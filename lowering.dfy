/**
 * The lowering of the package/file tree into SPDX records: what addPackage, addFile and
 * sbomHasRelationship (pkg/sbom/implementation.go) append to the output document, stated
 * as functions of the document's lists before the call. The Generator module's methods
 * are proved against these functions; the lemmas here are about them.
 */
module Lowering {
  import opened Wrappers
  import opened StringOrder
  import opened Bom
  import opened Spdx

  /** The identifiers of the direct file-typed targets, in relationship order (`HasFiles`). */
  function FileTargetIds(rels: seq<Relationship>): seq<string>
    decreases |rels|
  {
    if rels == [] then []
    else
      var rel := rels[|rels| - 1];
      FileTargetIds(rels[..|rels| - 1]) + (if rel.target.FileElement? then [rel.target.file.id] else [])
  }

  /** The SHA1 checksums of the direct file-typed targets that have one, in relationship order. */
  function HashList(rels: seq<Relationship>): seq<string>
    decreases |rels|
  {
    if rels == [] then []
    else
      var rel := rels[|rels| - 1];
      HashList(rels[..|rels| - 1]) + HashOf(rel)
  }

  function HashOf(rel: Relationship): seq<string> {
    if rel.target.FileElement? && "SHA1" in rel.target.file.checksums
    then [rel.target.file.checksums["SHA1"]] else []
  }

  /** The identifiers of the direct file-typed targets without a SHA1 checksum. */
  function ExcludedIds(rels: seq<Relationship>): seq<string>
    decreases |rels|
  {
    if rels == [] then []
    else
      var rel := rels[|rels| - 1];
      ExcludedIds(rels[..|rels| - 1]) +
        (if rel.target.FileElement? && "SHA1" !in rel.target.file.checksums
         then [rel.target.file.id] else [])
  }

  /** Every file target is either hashed or excluded, and only file targets are excluded. */
  lemma {:induction false} FileTargetsPartition(rels: seq<Relationship>)
    ensures |HashList(rels)| + |ExcludedIds(rels)| == |FileTargetIds(rels)|
    ensures forall x :: x in ExcludedIds(rels) ==> x in FileTargetIds(rels)
    decreases |rels|
  {
    if rels != [] {
      FileTargetsPartition(rels[..|rels| - 1]);
    }
  }

  lemma {:induction false} FileTargetIdsExact(rels: seq<Relationship>, x: string)
    ensures x in FileTargetIds(rels) <==>
      exists k :: 0 <= k < |rels| && rels[k].target.FileElement? && x == rels[k].target.file.id
    decreases |rels|
  {
    if rels != [] {
      var init := rels[..|rels| - 1];
      FileTargetIdsExact(init, x);
      assert forall k :: 0 <= k < |init| ==> init[k] == rels[k];
    }
  }

  lemma {:induction false} HashListExact(rels: seq<Relationship>, x: string)
    ensures x in HashList(rels) <==>
      exists k :: 0 <= k < |rels| && rels[k].target.FileElement? && "SHA1" in rels[k].target.file.checksums &&
        x == rels[k].target.file.checksums["SHA1"]
    decreases |rels|
  {
    if rels != [] {
      var init := rels[..|rels| - 1];
      HashListExact(init, x);
      assert forall k :: 0 <= k < |init| ==> init[k] == rels[k];
    }
  }

  lemma {:induction false} ExcludedIdsExact(rels: seq<Relationship>, x: string)
    ensures x in ExcludedIds(rels) <==>
      exists k :: 0 <= k < |rels| && rels[k].target.FileElement? && "SHA1" !in rels[k].target.file.checksums &&
        x == rels[k].target.file.id
    decreases |rels|
  {
    if rels != [] {
      var init := rels[..|rels| - 1];
      ExcludedIdsExact(init, x);
      assert forall k :: 0 <= k < |init| ==> init[k] == rels[k];
    }
  }

  /**
   * Which file goes to which list: a direct file target with a SHA1 checksum contributes
   * that checksum to the hash list; one without is listed as excluded by its identifier;
   * every direct file target is listed in `HasFiles`.
   */
  lemma FileListsExact(rels: seq<Relationship>, x: string)
    ensures x in FileTargetIds(rels) <==>
      exists k :: 0 <= k < |rels| && rels[k].target.FileElement? && x == rels[k].target.file.id
    ensures x in HashList(rels) <==>
      exists k :: 0 <= k < |rels| && rels[k].target.FileElement? && "SHA1" in rels[k].target.file.checksums &&
        x == rels[k].target.file.checksums["SHA1"]
    ensures x in ExcludedIds(rels) <==>
      exists k :: 0 <= k < |rels| && rels[k].target.FileElement? && "SHA1" !in rels[k].target.file.checksums &&
        x == rels[k].target.file.id
  {
    FileTargetIdsExact(rels, x);
    HashListExact(rels, x);
    ExcludedIdsExact(rels, x);
  }

  lemma {:induction false} HashListConcat(a: seq<Relationship>, b: seq<Relationship>)
    ensures HashList(a + b) == HashList(a) + HashList(b)
    decreases |b|
  {
    if b != [] {
      var c := a + b;
      assert c[..|c| - 1] == a + b[..|b| - 1];
      assert c[|c| - 1] == b[|b| - 1];
      assert HashList(c) == HashList(a + b[..|b| - 1]) + HashOf(b[|b| - 1]);
      assert HashList(b) == HashList(b[..|b| - 1]) + HashOf(b[|b| - 1]);
      HashListConcat(a, b[..|b| - 1]);
    } else {
      assert a + b == a;
    }
  }

  lemma HashListOfOne(x: Relationship)
    ensures HashList([x]) == HashOf(x)
  {
    assert [x][..0] == [];
  }

  /** Taking one relationship out of a list takes its hash, if any, out of the hash list. */
  lemma HashListRemove(l: seq<Relationship>, x: Relationship, r: seq<Relationship>)
    ensures multiset(HashList(l + [x] + r)) == multiset(HashList(l + r)) + multiset(HashOf(x))
  {
    HashListConcat(l + [x], r);
    HashListConcat(l, [x]);
    HashListOfOne(x);
    HashListConcat(l, r);
  }

  /**
   * The hashes collected for the verification code do not depend on the order of the
   * relationships: a permutation of them collects the same multiset of hashes.
   */
  lemma {:induction false} HashListPermutation(a: seq<Relationship>, b: seq<Relationship>)
    requires multiset(a) == multiset(b)
    ensures multiset(HashList(a)) == multiset(HashList(b))
    decreases |b|
  {
    if b == [] {
      assert |a| == |multiset(a)| == 0;
    } else {
      var x := b[|b| - 1];
      var b' := b[..|b| - 1];
      assert b == b' + [x];
      assert x in multiset(a);
      var j :| 0 <= j < |a| && a[j] == x;
      var a' := a[..j] + a[j + 1..];
      assert a == a[..j] + [x] + a[j + 1..];
      assert multiset(a') == multiset(a) - multiset{x};
      assert multiset(b') == multiset(b) - multiset{x};
      HashListPermutation(a', b');
      HashListRemove(a[..j], x, a[j + 1..]);
      HashListConcat(b', [x]);
      HashListOfOne(x);
    }
  }

  /** The verification code of a package's relationships does not depend on their order. */
  lemma VerificationCodeOfPermutation(a: seq<Relationship>, b: seq<Relationship>, sha1: string -> Sha1Sum)
    requires multiset(a) == multiset(b)
    ensures ComputeVerificationCode(HashList(a), sha1) == ComputeVerificationCode(HashList(b), sha1)
  {
    HashListPermutation(a, b);
    VerificationCodeOrderFree(HashList(a), HashList(b), sha1);
  }

  /** Relationships with the same targets, whatever their types, give the same file lists. */
  lemma {:induction false} FileListsIgnoreKind(a: seq<Relationship>, b: seq<Relationship>)
    requires |a| == |b|
    requires forall k :: 0 <= k < |a| ==> a[k].target == b[k].target
    ensures HashList(a) == HashList(b)
    ensures ExcludedIds(a) == ExcludedIds(b)
    ensures FileTargetIds(a) == FileTargetIds(b)
    decreases |a|
  {
    if a != [] {
      FileListsIgnoreKind(a[..|a| - 1], b[..|b| - 1]);
    }
  }

  function ArchQualifiers(arch: string): seq<Qualifier> {
    if arch != "" then [Qualifier("arch", arch)] else []
  }

  /** The purl external reference of a package: present exactly when it has a namespace. */
  function PurlRefs(p: Package, ext: Foreign): (r: seq<ExternalRef>)
    ensures |r| <= 1
    ensures |r| == 1 <==> p.namespace != ""
    ensures forall k :: 0 <= k < |r| ==> r[k].category == "PACKAGE_MANAGER" && r[k].refType == "purl"
  {
    if p.namespace != "" then
      [ExternalRef(
        "PACKAGE_MANAGER",
        ext.purlToString(PackageURL("apk", p.namespace, p.name, p.version, ArchQualifiers(p.arch), "")),
        "purl")]
    else []
  }

  /** The verification code addPackage attaches, given its relationships. */
  function VerificationOf(rels: seq<Relationship>, sha1: string -> Sha1Sum): Option<PackageVerificationCode> {
    var code := ComputeVerificationCode(HashList(rels), sha1);
    var excluded := ExcludedIds(rels);
    if code != "" then
      Some(PackageVerificationCode(code, if |excluded| > 0 then Some(excluded) else None))
    else None
  }

  /** The record addPackage appends for `p`. */
  ghost function PackageRecord(p: Package, ext: Foreign): SpdxPackage {
    var code := VerificationOf(p.relationships, ext.sha1);
    SpdxPackage(
      id := p.id,
      name := p.name,
      version := p.version,
      filesAnalyzed := code.Some?,
      hasFiles := FileTargetIds(p.relationships),
      licenseConcluded := p.licenseConcluded,
      licenseDeclared := p.licenseDeclared,
      downloadLocation := NoAssertion,
      licenseInfoFromFiles := [],
      copyrightText := p.copyright,
      checksums := ChecksumList(p.checksums),
      externalRefs := PurlRefs(p, ext),
      verificationCode := code)
  }

  /** The record addFile appends for `f`. */
  ghost function FileRecord(f: File): SpdxFile {
    SpdxFile(f.id, f.name, NoAssertion, [], [], ChecksumList(f.checksums))
  }

  /** The record of a relationship: its (source, type, target) triple by identifiers. */
  function RecordOf(rel: Relationship): SpdxRelationship {
    SpdxRelationship(rel.sourceId, rel.kind, rel.target.Id())
  }

  /**
   * What a package record holds: its own fields, its checksums sorted, its direct
   * file targets, and a verification code that is present in every package (40 hex
   * digits of SHA-1 over the sorted hashes), with the unhashed files listed only
   * when there are any.
   */
  lemma PackageRecordFacts(p: Package, ext: Foreign)
    ensures var r := PackageRecord(p, ext);
      && r.id == p.id && r.name == p.name && r.version == p.version
      && r.licenseDeclared == p.licenseDeclared && r.licenseConcluded == p.licenseConcluded
      && r.copyrightText == p.copyright && r.downloadLocation == NoAssertion
      && r.hasFiles == FileTargetIds(p.relationships)
      && (r.filesAnalyzed <==> r.verificationCode.Some?)
      && r.filesAnalyzed
      && r.verificationCode.value.value == ComputeVerificationCode(HashList(p.relationships), ext.sha1)
      && |r.verificationCode.value.value| == 40
      && (r.verificationCode.value.excludedFiles.Some? <==> |ExcludedIds(p.relationships)| > 0)
      && (r.verificationCode.value.excludedFiles.Some? ==>
            r.verificationCode.value.excludedFiles.value == ExcludedIds(p.relationships))
      && (|r.externalRefs| == 1 <==> p.namespace != "")
      && |r.checksums| == |p.checksums|
      && (forall i :: 0 <= i < |r.checksums| ==>
            r.checksums[i].algorithm in p.checksums &&
            r.checksums[i].value == p.checksums[r.checksums[i].algorithm])
      && (forall i, j :: 0 <= i < j < |r.checksums| ==>
            Below(r.checksums[i].algorithm, r.checksums[j].algorithm))
  {
    ChecksumListExact(p.checksums);
  }

  /**
   * A package with no file targets still gets a verification code, the hex SHA-1 of
   * the empty string, and is marked as having its files analyzed.
   */
  lemma NoFilesStillAnalyzed(p: Package, ext: Foreign)
    requires forall k :: 0 <= k < |p.relationships| ==> p.relationships[k].target.PackageElement?
    ensures PackageRecord(p, ext).filesAnalyzed
    ensures PackageRecord(p, ext).hasFiles == []
    ensures PackageRecord(p, ext).verificationCode == Some(PackageVerificationCode(Hex(ext.sha1("")), None))
  {
    NoFileTargets(p.relationships);
  }

  lemma {:induction false} NoFileTargets(rels: seq<Relationship>)
    requires forall k :: 0 <= k < |rels| ==> rels[k].target.PackageElement?
    ensures HashList(rels) == [] && ExcludedIds(rels) == [] && FileTargetIds(rels) == []
    decreases |rels|
  {
    if rels != [] {
      NoFileTargets(rels[..|rels| - 1]);
    }
  }

  /** sbomHasRelationship: whether the triple of `rel` is already among the records. */
  function SbomHasRelationship(records: seq<SpdxRelationship>, rel: Relationship): (b: bool)
    ensures b <==> RecordOf(rel) in records
  {
    if records == [] then false
    else
      var r := records[0];
      (r.element == rel.sourceId && r.related == rel.target.Id() && r.relType == rel.kind)
      || SbomHasRelationship(records[1..], rel)
  }

  /** The three lists of the output document that addPackage and addFile extend. */
  datatype Lowered = Lowered(
    packages: seq<SpdxPackage>,
    files: seq<SpdxFile>,
    relationships: seq<SpdxRelationship>)

  /** addPackage: its own record, then its relationships. */
  ghost function LowerPackage(s: Lowered, p: Package, ext: Foreign): Lowered
    decreases PackageElement(p), 1
  {
    LowerRels(s.(packages := s.packages + [PackageRecord(p, ext)]), PackageElement(p), 0, ext)
  }

  /** addFile: its own record, then its relationships. */
  ghost function LowerFile(s: Lowered, f: File, ext: Foreign): Lowered
    decreases FileElement(f), 1
  {
    LowerRels(s.(files := s.files + [FileRecord(f)]), FileElement(f), 0, ext)
  }

  /** The type switch on a relationship's target. */
  ghost function LowerNode(s: Lowered, e: Element, ext: Foreign): Lowered
    decreases e, 2
  {
    match e
    case PackageElement(p) => LowerPackage(s, p, ext)
    case FileElement(f) => LowerFile(s, f, ext)
  }

  /**
   * The relationship loop of `owner` from index `i` on: a triple already recorded is
   * skipped; otherwise the target is lowered and, for a package only, the triple recorded.
   */
  ghost function LowerRels(s: Lowered, owner: Element, i: nat, ext: Foreign): Lowered
    decreases owner, 0, |owner.Relationships()| - i
  {
    if i >= |owner.Relationships()| then s
    else
      var rel := owner.Relationships()[i];
      assert rel in owner.Relationships();
      if SbomHasRelationship(s.relationships, rel) then LowerRels(s, owner, i + 1, ext)
      else
        var t := LowerNode(s, rel.target, ext);
        var u := if owner.PackageElement? then t.(relationships := t.relationships + [RecordOf(rel)]) else t;
        LowerRels(u, owner, i + 1, ext)
  }

  lemma LowerRelsVisit(s: Lowered, owner: Element, i: nat, ext: Foreign)
    requires i < |owner.Relationships()|
    requires !SbomHasRelationship(s.relationships, owner.Relationships()[i])
    ensures var rel := owner.Relationships()[i];
      var t := LowerNode(s, rel.target, ext);
      LowerRels(s, owner, i, ext) ==
        LowerRels(if owner.PackageElement? then t.(relationships := t.relationships + [RecordOf(rel)]) else t, owner, i + 1, ext)
  {
  }

  /** `t` only appends to the lists of `s`. */
  predicate Extends(s: Lowered, t: Lowered) {
    s.packages <= t.packages && s.files <= t.files && s.relationships <= t.relationships
  }

  lemma ExtendsTransitive(s: Lowered, t: Lowered, u: Lowered)
    requires Extends(s, t) && Extends(t, u)
    ensures Extends(s, u)
  {
  }

  /**
   * Lowering an element only appends to the document, and the first record it appends
   * is the element's own.
   */
  lemma {:induction false} LowerNodeExtends(s: Lowered, e: Element, ext: Foreign)
    ensures Extends(s, LowerNode(s, e, ext))
    ensures e.PackageElement? ==>
      |LowerNode(s, e, ext).packages| > |s.packages| &&
      LowerNode(s, e, ext).packages[|s.packages|] == PackageRecord(e.pkg, ext)
    ensures e.FileElement? ==>
      |LowerNode(s, e, ext).files| > |s.files| &&
      LowerNode(s, e, ext).files[|s.files|] == FileRecord(e.file)
    decreases e, 2
  {
    match e
    case PackageElement(p) =>
      var s' := s.(packages := s.packages + [PackageRecord(p, ext)]);
      LowerRelsExtends(s', e, 0, ext);
    case FileElement(f) =>
      var s' := s.(files := s.files + [FileRecord(f)]);
      LowerRelsExtends(s', e, 0, ext);
  }

  lemma {:induction false} LowerRelsExtends(s: Lowered, owner: Element, i: nat, ext: Foreign)
    ensures Extends(s, LowerRels(s, owner, i, ext))
    decreases owner, 0, |owner.Relationships()| - i
  {
    if i < |owner.Relationships()| {
      var rel := owner.Relationships()[i];
      assert rel in owner.Relationships();
      if SbomHasRelationship(s.relationships, rel) {
        LowerRelsExtends(s, owner, i + 1, ext);
      } else {
        var t := LowerNode(s, rel.target, ext);
        var u := if owner.PackageElement? then t.(relationships := t.relationships + [RecordOf(rel)]) else t;
        LowerNodeExtends(s, rel.target, ext);
        LowerRelsExtends(u, owner, i + 1, ext);
        ExtendsTransitive(s, t, u);
        ExtendsTransitive(s, u, LowerRels(u, owner, i + 1, ext));
      }
    }
  }

  lemma {:induction false} LowerRelsCovers(s: Lowered, owner: Element, i: nat, ext: Foreign)
    requires owner.PackageElement?
    ensures forall k :: i <= k < |owner.Relationships()| ==>
      RecordOf(owner.Relationships()[k]) in LowerRels(s, owner, i, ext).relationships
    decreases |owner.Relationships()| - i
  {
    if i < |owner.Relationships()| {
      var rels := owner.Relationships();
      var rel := rels[i];
      var r := LowerRels(s, owner, i, ext);
      if SbomHasRelationship(s.relationships, rel) {
        LowerRelsCovers(s, owner, i + 1, ext);
        LowerRelsExtends(s, owner, i + 1, ext);
      } else {
        var t := LowerNode(s, rel.target, ext);
        var u := t.(relationships := t.relationships + [RecordOf(rel)]);
        LowerRelsCovers(u, owner, i + 1, ext);
        LowerRelsExtends(u, owner, i + 1, ext);
        assert u.relationships[|t.relationships|] == RecordOf(rel);
      }
    }
  }

  /**
   * After addPackage, every direct relationship of the package is recorded: either it
   * was already present or the call appended it.
   */
  lemma PackageRelationshipsRecorded(s: Lowered, p: Package, ext: Foreign)
    ensures forall k :: 0 <= k < |p.relationships| ==>
      RecordOf(p.relationships[k]) in LowerPackage(s, p, ext).relationships
  {
    LowerRelsCovers(s.(packages := s.packages + [PackageRecord(p, ext)]), PackageElement(p), 0, ext);
  }

  /** A relationship loop whose triples are all recorded already changes nothing. */
  lemma {:induction false} LowerRelsAllPresent(s: Lowered, owner: Element, i: nat, ext: Foreign)
    requires forall k :: i <= k < |owner.Relationships()| ==> RecordOf(owner.Relationships()[k]) in s.relationships
    ensures LowerRels(s, owner, i, ext) == s
    decreases |owner.Relationships()| - i
  {
    if i < |owner.Relationships()| {
      LowerRelsAllPresent(s, owner, i + 1, ext);
    }
  }

  /** Lowering a package a second time appends only a second copy of its own record. */
  lemma LowerPackageTwice(s: Lowered, p: Package, ext: Foreign)
    ensures var t := LowerPackage(s, p, ext);
      LowerPackage(t, p, ext) == t.(packages := t.packages + [PackageRecord(p, ext)])
  {
    var t := LowerPackage(s, p, ext);
    PackageRelationshipsRecorded(s, p, ext);
    LowerRelsAllPresent(t.(packages := t.packages + [PackageRecord(p, ext)]), PackageElement(p), 0, ext);
  }

  /** A file whose relationships, transitively, lead only to files. */
  ghost predicate FileOnly(e: Element)
    decreases e
  {
    && e.FileElement?
    && forall k :: 0 <= k < |e.Relationships()| ==> FileOnly(e.Relationships()[k].target)
  }

  /**
   * addFile appends no relationship record: lowering a file whose subtree holds only
   * files leaves the relationship list as it was, however many files it adds.
   */
  lemma {:induction false} LowerFileOnlyKeepsRelationships(s: Lowered, f: File, ext: Foreign)
    requires FileOnly(FileElement(f))
    ensures LowerFile(s, f, ext).relationships == s.relationships
    decreases FileElement(f), 1
  {
    LowerRelsFileOnly(s.(files := s.files + [FileRecord(f)]), FileElement(f), 0, ext);
  }

  lemma {:induction false} LowerRelsFileOnly(s: Lowered, owner: Element, i: nat, ext: Foreign)
    requires FileOnly(owner)
    ensures LowerRels(s, owner, i, ext).relationships == s.relationships
    decreases owner, 0, |owner.Relationships()| - i
  {
    if i < |owner.Relationships()| {
      var rel := owner.Relationships()[i];
      assert rel in owner.Relationships();
      if SbomHasRelationship(s.relationships, rel) {
        LowerRelsFileOnly(s, owner, i + 1, ext);
      } else {
        assert FileOnly(rel.target);
        LowerFileOnlyKeepsRelationships(s, rel.target.file, ext);
        LowerRelsFileOnly(LowerNode(s, rel.target, ext), owner, i + 1, ext);
      }
    }
  }

  /**
   * The asymmetry this causes: a file that CONTAINS another file lowers to two file
   * records and no relationship record, while a package with the same relationship
   * records it.
   */
  lemma FileToFileNotRecorded(a: File, b: File, p: Package, ext: Foreign)
    requires b.relationships == []
    requires a.relationships == [Relationship(a.id, "CONTAINS", FileElement(b))]
    requires p.relationships == [Relationship(p.id, "CONTAINS", FileElement(b))]
    ensures LowerFile(Lowered([], [], []), a, ext) == Lowered([], [FileRecord(a), FileRecord(b)], [])
    ensures LowerPackage(Lowered([], [], []), p, ext).relationships == [SpdxRelationship(p.id, "CONTAINS", b.id)]
  {
    var e := Lowered([], [], []);
    var rel := a.relationships[0];
    var s1 := e.(files := e.files + [FileRecord(a)]);
    assert !SbomHasRelationship(s1.relationships, rel);
    var t1 := LowerNode(s1, FileElement(b), ext);
    assert FileElement(b).Relationships() == [];
    assert t1 == LowerFile(s1, b, ext);
    assert t1 == LowerRels(s1.(files := s1.files + [FileRecord(b)]), FileElement(b), 0, ext);
    assert s1.files + [FileRecord(b)] == [FileRecord(a), FileRecord(b)];
    assert t1 == Lowered([], [FileRecord(a), FileRecord(b)], []);
    assert LowerRels(s1, FileElement(a), 0, ext) == LowerRels(t1, FileElement(a), 1, ext);

    var q := p.relationships[0];
    var s2 := e.(packages := e.packages + [PackageRecord(p, ext)]);
    assert !SbomHasRelationship(s2.relationships, q);
    var t2 := LowerNode(s2, FileElement(b), ext);
    assert t2 == LowerFile(s2, b, ext);
    assert t2 == LowerRels(s2.(files := s2.files + [FileRecord(b)]), FileElement(b), 0, ext);
    assert t2.relationships == [];
    var u2 := t2.(relationships := t2.relationships + [RecordOf(q)]);
    assert LowerRels(s2, PackageElement(p), 0, ext) == LowerRels(u2, PackageElement(p), 1, ext);
    assert RecordOf(q) == SpdxRelationship(p.id, "CONTAINS", b.id);
  }

  /** The record of `p` or `f` with identifier `x` is in the document. */
  ghost predicate HasId(s: Lowered, x: string) {
    (exists k :: 0 <= k < |s.packages| && s.packages[k].id == x) ||
    (exists k :: 0 <= k < |s.files| && s.files[k].id == x)
  }

  /** No relationship record names an element the document does not hold. */
  ghost predicate Resolved(s: Lowered) {
    forall k :: 0 <= k < |s.relationships| ==>
      HasId(s, s.relationships[k].element) && HasId(s, s.relationships[k].related)
  }

  lemma ExtendsHasId(s: Lowered, t: Lowered, x: string)
    requires Extends(s, t) && HasId(s, x)
    ensures HasId(t, x)
  {
    if exists k :: 0 <= k < |s.packages| && s.packages[k].id == x {
      var k :| 0 <= k < |s.packages| && s.packages[k].id == x;
      assert t.packages[k] == s.packages[k];
    } else {
      var k :| 0 <= k < |s.files| && s.files[k].id == x;
      assert t.files[k] == s.files[k];
    }
  }

  /**
   * Lowering a well-formed element keeps the document free of dangling identifiers,
   * and the element's own identifier is then in the document.
   */
  lemma {:induction false} LowerNodeResolved(s: Lowered, e: Element, ext: Foreign)
    requires Resolved(s) && WellFormed(e)
    ensures Resolved(LowerNode(s, e, ext))
    ensures HasId(LowerNode(s, e, ext), e.Id())
    decreases e, 2
  {
    LowerNodeExtends(s, e, ext);
    var r := LowerNode(s, e, ext);
    var s': Lowered;
    match e {
      case PackageElement(p) =>
        s' := s.(packages := s.packages + [PackageRecord(p, ext)]);
        assert s'.packages[|s.packages|].id == e.Id();
        assert r.packages[|s.packages|].id == e.Id();
      case FileElement(f) =>
        s' := s.(files := s.files + [FileRecord(f)]);
        assert s'.files[|s.files|].id == e.Id();
        assert r.files[|s.files|].id == e.Id();
    }
    assert r == LowerRels(s', e, 0, ext);
    assert Extends(s, s');
    forall k | 0 <= k < |s'.relationships|
      ensures HasId(s', s'.relationships[k].element) && HasId(s', s'.relationships[k].related)
    {
      ExtendsHasId(s, s', s'.relationships[k].element);
      ExtendsHasId(s, s', s'.relationships[k].related);
    }
    assert HasId(s', e.Id());
    LowerRelsResolved(s', e, 0, ext);
  }

  lemma {:induction false} LowerRelsResolved(s: Lowered, owner: Element, i: nat, ext: Foreign)
    requires Resolved(s) && WellFormed(owner) && HasId(s, owner.Id())
    ensures Resolved(LowerRels(s, owner, i, ext))
    decreases owner, 0, |owner.Relationships()| - i
  {
    if i < |owner.Relationships()| {
      var rel := owner.Relationships()[i];
      assert rel in owner.Relationships();
      if SbomHasRelationship(s.relationships, rel) {
        LowerRelsResolved(s, owner, i + 1, ext);
      } else {
        assert rel.sourceId == owner.Id() && WellFormed(rel.target);
        var t := LowerNode(s, rel.target, ext);
        LowerNodeResolved(s, rel.target, ext);
        LowerNodeExtends(s, rel.target, ext);
        ExtendsHasId(s, t, owner.Id());
        var u := if owner.PackageElement? then t.(relationships := t.relationships + [RecordOf(rel)]) else t;
        ResolvedAppend(t, u, rel);
        LowerRelsResolved(u, owner, i + 1, ext);
      }
    }
  }

  lemma ResolvedAppend(t: Lowered, u: Lowered, rel: Relationship)
    requires Resolved(t) && HasId(t, rel.sourceId) && HasId(t, rel.target.Id())
    requires u == t || u == t.(relationships := t.relationships + [RecordOf(rel)])
    ensures Resolved(u) && (forall x :: HasId(t, x) ==> HasId(u, x))
  {
  }

  /** The package loop of buildDocumentSPDX: each top-level package lowered in turn. */
  ghost function LowerPackages(s: Lowered, ps: seq<Package>, ext: Foreign): Lowered
    decreases |ps|
  {
    if ps == [] then s else LowerNode(LowerPackages(s, ps[..|ps| - 1], ext), PackageElement(ps[|ps| - 1]), ext)
  }

  /** The file loop of buildDocumentSPDX. */
  ghost function LowerFiles(s: Lowered, fs: seq<File>, ext: Foreign): Lowered
    decreases |fs|
  {
    if fs == [] then s else LowerNode(LowerFiles(s, fs[..|fs| - 1], ext), FileElement(fs[|fs| - 1]), ext)
  }

  /** The three lists of the document buildDocumentSPDX returns. */
  ghost function LowerBom(b: Bom, ext: Foreign): Lowered {
    LowerFiles(LowerPackages(Lowered([], [], []), b.packages, ext), b.files, ext)
  }

  function PackageIds(ps: seq<Package>): seq<string> {
    seq(|ps|, k requires 0 <= k < |ps| => ps[k].id)
  }

  function FileIds(fs: seq<File>): seq<string> {
    seq(|fs|, k requires 0 <= k < |fs| => fs[k].id)
  }

  /** `DocumentDescribes`: the top-level package identifiers, then the top-level file identifiers. */
  function Describes(b: Bom): (r: seq<string>)
    ensures |r| == |b.packages| + |b.files|
    ensures forall k :: 0 <= k < |b.packages| ==> r[k] == b.packages[k].id
    ensures forall k :: 0 <= k < |b.files| ==> r[|b.packages| + k] == b.files[k].id
  {
    PackageIds(b.packages) + FileIds(b.files)
  }

  /** Lowering a well-formed element keeps the document resolved and loses no identifier. */
  lemma LowerNodeGrows(s: Lowered, e: Element, ext: Foreign)
    requires Resolved(s) && WellFormed(e)
    ensures Resolved(LowerNode(s, e, ext))
    ensures HasId(LowerNode(s, e, ext), e.Id())
    ensures forall x :: HasId(s, x) ==> HasId(LowerNode(s, e, ext), x)
  {
    LowerNodeResolved(s, e, ext);
    LowerNodeExtends(s, e, ext);
    forall x | HasId(s, x) ensures HasId(LowerNode(s, e, ext), x) {
      ExtendsHasId(s, LowerNode(s, e, ext), x);
    }
  }

  lemma {:induction false} LowerPackagesResolved(s: Lowered, ps: seq<Package>, ext: Foreign)
    requires Resolved(s)
    requires forall k :: 0 <= k < |ps| ==> WellFormed(PackageElement(ps[k]))
    ensures Resolved(LowerPackages(s, ps, ext))
    ensures forall k :: 0 <= k < |ps| ==> HasId(LowerPackages(s, ps, ext), ps[k].id)
    ensures forall x :: HasId(s, x) ==> HasId(LowerPackages(s, ps, ext), x)
    decreases |ps|
  {
    if ps != [] {
      var init := ps[..|ps| - 1];
      var last := PackageElement(ps[|ps| - 1]);
      LowerPackagesResolved(s, init, ext);
      var t := LowerPackages(s, init, ext);
      LowerNodeGrows(t, last, ext);
      assert forall k :: 0 <= k < |init| ==> init[k] == ps[k];
    }
  }

  lemma {:induction false} LowerFilesResolved(s: Lowered, fs: seq<File>, ext: Foreign)
    requires Resolved(s)
    requires forall k :: 0 <= k < |fs| ==> WellFormed(FileElement(fs[k]))
    ensures Resolved(LowerFiles(s, fs, ext))
    ensures forall k :: 0 <= k < |fs| ==> HasId(LowerFiles(s, fs, ext), fs[k].id)
    ensures forall x :: HasId(s, x) ==> HasId(LowerFiles(s, fs, ext), x)
    decreases |fs|
  {
    if fs != [] {
      var init := fs[..|fs| - 1];
      var last := FileElement(fs[|fs| - 1]);
      LowerFilesResolved(s, init, ext);
      var t := LowerFiles(s, init, ext);
      LowerNodeGrows(t, last, ext);
      assert forall k :: 0 <= k < |init| ==> init[k] == fs[k];
    }
  }

  /**
   * The document built from a well-formed bom has no dangling relationship, and each
   * identifier it describes is the identifier of one of its records.
   */
  lemma BomLoweringResolved(b: Bom, ext: Foreign)
    requires WellFormedBom(b)
    ensures Resolved(LowerBom(b, ext))
    ensures forall x :: x in Describes(b) ==> HasId(LowerBom(b, ext), x)
  {
    var s0 := Lowered([], [], []);
    LowerPackagesResolved(s0, b.packages, ext);
    var t := LowerPackages(s0, b.packages, ext);
    LowerFilesResolved(t, b.files, ext);
    var d := Describes(b);
    forall x | x in d ensures HasId(LowerBom(b, ext), x) {
      var k :| 0 <= k < |d| && d[k] == x;
      if k >= |b.packages| {
        assert x == b.files[k - |b.packages|].id;
      }
    }
  }
}
