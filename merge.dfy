/**
 * The build-environment merge of ParseBuildSBOM (pkg/sbom/implementation.go): which
 * packages of the build document are copied into the apk document, and the
 * relationships that tie them to the apk's first root.
 */
module Merge {
  import opened Wrappers
  import opened Spdx
  import opened Lowering

  /** A reference that makes its package a build dependency: a purl that parses and is not OCI. */
  predicate Qualifies(e: ExternalRef, parse: string -> Option<PackageURL>) {
    e.refType == "purl" && parse(e.locator).Some? && parse(e.locator).value.purlType != TypeOCI
  }

  /** The copies of `p` the reference loop appends: one per qualifying reference in `refs`. */
  function Copies(p: SpdxPackage, refs: seq<ExternalRef>, parse: string -> Option<PackageURL>): seq<SpdxPackage>
    decreases |refs|
  {
    if refs == [] then []
    else Copies(p, refs[..|refs| - 1], parse) + (if Qualifies(refs[|refs| - 1], parse) then [p] else [])
  }

  /** The number of qualifying references in `refs`. */
  function QualifyingCount(refs: seq<ExternalRef>, parse: string -> Option<PackageURL>): nat
    decreases |refs|
  {
    if refs == [] then 0
    else QualifyingCount(refs[..|refs| - 1], parse) + (if Qualifies(refs[|refs| - 1], parse) then 1 else 0)
  }

  /** `ret`: the packages of the build document that survive the filter, with repetitions. */
  function Survivors(build: seq<SpdxPackage>, parse: string -> Option<PackageURL>): seq<SpdxPackage>
    decreases |build|
  {
    if build == [] then []
    else
      Survivors(build[..|build| - 1], parse) + CopiesOf(build[|build| - 1], parse)
  }

  /** What the loop over one build package's references appends. */
  function CopiesOf(p: SpdxPackage, parse: string -> Option<PackageURL>): seq<SpdxPackage> {
    if |p.externalRefs| > 0 then Copies(p, p.externalRefs, parse) else []
  }

  /** One BUILD_DEPENDENCY_OF relationship from each appended package to `root`. */
  function DependencyRecords(ret: seq<SpdxPackage>, root: string): (r: seq<SpdxRelationship>)
    ensures |r| == |ret|
    ensures forall k :: 0 <= k < |r| ==>
      r[k].element == ret[k].id && r[k].relType == "BUILD_DEPENDENCY_OF" && r[k].related == root
  {
    seq(|ret|, k requires 0 <= k < |ret| => SpdxRelationship(ret[k].id, "BUILD_DEPENDENCY_OF", root))
  }

  lemma DependencyRecordsSnoc(ret: seq<SpdxPackage>, root: string, i: nat)
    requires i < |ret|
    ensures DependencyRecords(ret[..i + 1], root)
         == DependencyRecords(ret[..i], root) + [SpdxRelationship(ret[i].id, "BUILD_DEPENDENCY_OF", root)]
  {
  }

  /** A package is copied once per qualifying reference, so it can be copied several times. */
  lemma {:induction false} CopiesAreRepetitions(p: SpdxPackage, refs: seq<ExternalRef>, parse: string -> Option<PackageURL>)
    ensures |Copies(p, refs, parse)| == QualifyingCount(refs, parse)
    ensures forall k :: 0 <= k < |Copies(p, refs, parse)| ==> Copies(p, refs, parse)[k] == p
    decreases |refs|
  {
    if refs != [] {
      CopiesAreRepetitions(p, refs[..|refs| - 1], parse);
    }
  }

  lemma {:induction false} QualifyingCountPositive(refs: seq<ExternalRef>, parse: string -> Option<PackageURL>)
    ensures QualifyingCount(refs, parse) > 0 <==> exists e :: e in refs && Qualifies(e, parse)
    decreases |refs|
  {
    if refs != [] {
      var init := refs[..|refs| - 1];
      QualifyingCountPositive(init, parse);
      assert refs == init + [refs[|refs| - 1]];
      if exists e :: e in refs && Qualifies(e, parse) {
        var e :| e in refs && Qualifies(e, parse);
        assert e in init || e == refs[|refs| - 1];
      }
    }
  }

  lemma SurvivorsSnoc(s: seq<SpdxPackage>, p: SpdxPackage, parse: string -> Option<PackageURL>)
    ensures Survivors(s + [p], parse) == Survivors(s, parse) + CopiesOf(p, parse)
  {
    assert (s + [p])[..|s|] == s;
  }

  lemma SurvivorsConcatStep(a: seq<SpdxPackage>, b: seq<SpdxPackage>, last: SpdxPackage, parse: string -> Option<PackageURL>)
    requires Survivors(a + b, parse) == Survivors(a, parse) + Survivors(b, parse)
    ensures Survivors(a + (b + [last]), parse) == Survivors(a, parse) + Survivors(b + [last], parse)
  {
    var ab := a + b;
    var c := CopiesOf(last, parse);
    assert a + (b + [last]) == ab + [last];
    calc {
      Survivors(a + (b + [last]), parse);
      Survivors(ab + [last], parse);
      { SurvivorsSnoc(ab, last, parse); }
      Survivors(ab, parse) + c;
      (Survivors(a, parse) + Survivors(b, parse)) + c;
      Survivors(a, parse) + (Survivors(b, parse) + c);
      { SurvivorsSnoc(b, last, parse); }
      Survivors(a, parse) + Survivors(b + [last], parse);
    }
  }

  /** The filter keeps the build document's order: it maps concatenation to concatenation. */
  lemma {:induction false} SurvivorsConcat(a: seq<SpdxPackage>, b: seq<SpdxPackage>, parse: string -> Option<PackageURL>)
    ensures Survivors(a + b, parse) == Survivors(a, parse) + Survivors(b, parse)
    decreases |b|
  {
    if b == [] {
      assert a + b == a;
    } else {
      var b' := b[..|b| - 1];
      assert b == b' + [b[|b| - 1]];
      SurvivorsConcat(a, b', parse);
      SurvivorsConcatStep(a, b', b[|b| - 1], parse);
    }
  }

  /**
   * A package is among the survivors exactly when it is in the build document and has
   * a purl reference that parses to a type other than OCI.
   */
  lemma {:induction false} SurvivorsMembers(build: seq<SpdxPackage>, parse: string -> Option<PackageURL>, x: SpdxPackage)
    ensures x in Survivors(build, parse) <==>
      x in build && exists e :: e in x.externalRefs && Qualifies(e, parse)
    decreases |build|
  {
    if build != [] {
      var init := build[..|build| - 1];
      var p := build[|build| - 1];
      SurvivorsMembers(init, parse, x);
      assert build == init + [p];
      CopiesAreRepetitions(p, p.externalRefs, parse);
      QualifyingCountPositive(p.externalRefs, parse);
      var tail := CopiesOf(p, parse);
      assert Survivors(build, parse) == Survivors(init, parse) + tail;
      assert x in tail <==> x == p && exists e :: e in p.externalRefs && Qualifies(e, parse) by {
        if x in tail {
          var k :| 0 <= k < |tail| && tail[k] == x;
        }
        if x == p && exists e :: e in p.externalRefs && Qualifies(e, parse) {
          assert tail[0] == p;
        }
      }
    }
  }

  /** The copies of one package are as many as its qualifying references. */
  lemma SurvivorsOfOne(p: SpdxPackage, parse: string -> Option<PackageURL>)
    ensures Survivors([p], parse) == seq(QualifyingCount(p.externalRefs, parse), _ => p)
  {
    assert [p][..0] == [];
    CopiesAreRepetitions(p, p.externalRefs, parse);
    if |p.externalRefs| == 0 {
      assert QualifyingCount(p.externalRefs, parse) == 0;
    }
  }

  /**
   * A build package with two purl references that both parse to a non-OCI type is
   * appended twice, and so gets two BUILD_DEPENDENCY_OF relationships.
   */
  lemma DuplicatedBuildPackage(p: SpdxPackage, parse: string -> Option<PackageURL>, root: string)
    requires |p.externalRefs| == 2
    requires Qualifies(p.externalRefs[0], parse) && Qualifies(p.externalRefs[1], parse)
    ensures Survivors([p], parse) == [p, p]
    ensures DependencyRecords(Survivors([p], parse), root) ==
      [SpdxRelationship(p.id, "BUILD_DEPENDENCY_OF", root), SpdxRelationship(p.id, "BUILD_DEPENDENCY_OF", root)]
  {
    var refs := p.externalRefs;
    assert refs[..1][..0] == [] && refs[..2] == refs && refs[..1] == [refs[0]];
    assert Copies(p, refs[..1], parse) == [p];
    assert Copies(p, refs, parse) == [p, p];
    assert [p][..0] == [];
  }

  /**
   * Merging keeps the document free of dangling relationships, provided its first root
   * is one of its records: the new relationships start at the appended packages.
   */
  lemma MergeKeepsResolved(s: Lowered, ret: seq<SpdxPackage>, root: string)
    requires Resolved(s) && HasId(s, root)
    ensures Resolved(Lowered(s.packages + ret, s.files, s.relationships + DependencyRecords(ret, root)))
  {
    var t := Lowered(s.packages + ret, s.files, s.relationships + DependencyRecords(ret, root));
    var deps := DependencyRecords(ret, root);
    assert Extends(s, t);
    forall x | HasId(s, x) ensures HasId(t, x) {
      ExtendsHasId(s, t, x);
    }
    forall k | 0 <= k < |t.relationships|
      ensures HasId(t, t.relationships[k].element) && HasId(t, t.relationships[k].related)
    {
      if k < |s.relationships| {
        assert t.relationships[k] == s.relationships[k];
      } else {
        var j := k - |s.relationships|;
        assert t.relationships[k] == deps[j];
        assert t.packages[|s.packages| + j] == ret[j];
      }
    }
  }
}
