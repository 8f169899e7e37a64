/**
 * The output document and the code that fills it: addPackage, addFile, buildDocumentSPDX
 * and ParseBuildSBOM (pkg/sbom/implementation.go). Go passes `*spdx.Document` and
 * appends to its slices; here the document is an object whose list fields the methods
 * reassign, and each method's result is tied to the functions of the Lowering and
 * Merge modules.
 */
module Generator {
  import opened Wrappers
  import opened Decimal
  import opened Bom
  import opened Spdx
  import opened Lowering
  import opened Merge

  /** `CreationInfo.Created`: the time of the run, or the instant SOURCE_DATE_EPOCH names. */
  datatype Timestamp = Now | Epoch(seconds: int)

  /**
   * `spdx.Document`, as far as this code sets it. The header is fixed when the
   * document is built; only the four lists grow afterwards.
   */
  class Document {
    const id: string
    const name: string
    const version: string
    const created: Timestamp
    const creators: seq<string>
    const licenseListVersion: string
    const dataLicense: string
    const namespace: string
    var describes: seq<string>
    var packages: seq<SpdxPackage>
    var files: seq<SpdxFile>
    var relationships: seq<SpdxRelationship>

    /** The lists addPackage and addFile append to. */
    function Lists(): Lowered
      reads this
    {
      Lowered(packages, files, relationships)
    }

    /** The document literal of buildDocumentSPDX, before any package or file is added. */
    constructor (spec: Spec, created: Timestamp, toolVersion: string)
      ensures name == "apk-" + spec.packageName + "-" + spec.packageVersion
      ensures id == "SPDXRef-DOCUMENT-" + name
      ensures version == "SPDX-2.3"
      ensures this.created == created
      ensures creators == ["Tool: melange (" + toolVersion + ")", "Organization: Chainguard, Inc"]
      ensures licenseListVersion == "3.18"
      ensures dataLicense == "CC0-1.0"
      ensures namespace == "https://spdx.org/spdxdocs/chainguard/melange/"
      ensures describes == [] && packages == [] && files == [] && relationships == []
    {
      name := "apk-" + spec.packageName + "-" + spec.packageVersion;
      id := "SPDXRef-DOCUMENT-" + "apk-" + spec.packageName + "-" + spec.packageVersion;
      version := "SPDX-2.3";
      this.created := created;
      creators := ["Tool: melange (" + toolVersion + ")", "Organization: Chainguard, Inc"];
      licenseListVersion := "3.18";
      dataLicense := "CC0-1.0";
      namespace := "https://spdx.org/spdxdocs/chainguard/melange/";
      describes := [];
      packages := [];
      files := [];
      relationships := [];
    }

    /**
     * addPackage: appends the package's record, then, for each relationship whose triple
     * is not yet recorded, lowers its target and records the triple.
     */
    method AddPackage(p: Package, ext: Foreign)
      modifies this`packages, this`files, this`relationships
      ensures Lists() == LowerPackage(old(Lists()), p, ext)
      decreases PackageElement(p), 1
    {
      var spdxPkg := BuildPackageRecord(p, ext);
      packages := packages + [spdxPkg];
      for i := 0 to |p.relationships|
        invariant LowerRels(Lists(), PackageElement(p), i, ext) == LowerPackage(old(Lists()), p, ext)
      {
        if SbomHasRelationship(relationships, p.relationships[i]) {
          continue;
        }
        VisitTarget(PackageElement(p), i, ext);
      }
    }

    /**
     * addFile: appends the file's record, then lowers the targets of the relationships
     * not yet recorded, without recording any relationship itself.
     */
    method AddFile(f: File, ext: Foreign)
      modifies this`packages, this`files, this`relationships
      ensures Lists() == LowerFile(old(Lists()), f, ext)
      decreases FileElement(f), 1
    {
      var checksums := ChecksumRecords(f.checksums);
      files := files + [SpdxFile(f.id, f.name, NoAssertion, [], [], checksums)];
      for i := 0 to |f.relationships|
        invariant LowerRels(Lists(), FileElement(f), i, ext) == LowerFile(old(Lists()), f, ext)
      {
        if SbomHasRelationship(relationships, f.relationships[i]) {
          continue;
        }
        VisitTarget(FileElement(f), i, ext);
      }
    }

    /**
     * The body of the relationship loops of addPackage and addFile for a triple not yet
     * recorded: the type switch on the target, then, in addPackage only, the triple.
     */
    method VisitTarget(owner: Element, i: nat, ext: Foreign)
      requires i < |owner.Relationships()|
      requires !SbomHasRelationship(relationships, owner.Relationships()[i])
      modifies this`packages, this`files, this`relationships
      ensures LowerRels(Lists(), owner, i + 1, ext) == LowerRels(old(Lists()), owner, i, ext)
      decreases owner, 0
    {
      var rel := owner.Relationships()[i];
      assert rel in owner.Relationships();
      ghost var before := Lists();
      match rel.target {
        case FileElement(v) => AddFile(v, ext);
        case PackageElement(v) => AddPackage(v, ext);
      }
      ghost var t := Lists();
      assert t == LowerNode(before, rel.target, ext);
      if owner.PackageElement? {
        relationships := relationships + [RecordOf(rel)];
        assert Lists() == t.(relationships := t.relationships + [RecordOf(rel)]);
      }
      LowerRelsVisit(before, owner, i, ext);
    }

    /** The package loop of buildDocumentSPDX: each package described, then added. */
    method DescribePackages(ps: seq<Package>, ext: Foreign)
      modifies this`describes, this`packages, this`files, this`relationships
      ensures describes == old(describes) + PackageIds(ps)
      ensures Lists() == LowerPackages(old(Lists()), ps, ext)
    {
      for i := 0 to |ps|
        invariant describes == old(describes) + PackageIds(ps[..i])
        invariant Lists() == LowerPackages(old(Lists()), ps[..i], ext)
      {
        var p := ps[i];
        assert ps[..i + 1][..i] == ps[..i];
        describes := describes + [p.id];
        ghost var before := Lists();
        AddPackage(p, ext);
        assert Lists() == LowerNode(before, PackageElement(p), ext);
      }
      assert ps[..|ps|] == ps;
    }

    /** The file loop of buildDocumentSPDX: each file described, then added. */
    method DescribeFiles(fs: seq<File>, ext: Foreign)
      modifies this`describes, this`packages, this`files, this`relationships
      ensures describes == old(describes) + FileIds(fs)
      ensures Lists() == LowerFiles(old(Lists()), fs, ext)
    {
      for i := 0 to |fs|
        invariant describes == old(describes) + FileIds(fs[..i])
        invariant Lists() == LowerFiles(old(Lists()), fs[..i], ext)
      {
        var f := fs[i];
        assert fs[..i + 1][..i] == fs[..i];
        describes := describes + [f.id];
        ghost var before := Lists();
        AddFile(f, ext);
        assert Lists() == LowerNode(before, FileElement(f), ext);
      }
      assert fs[..|fs|] == fs;
    }

    /**
     * ParseBuildSBOM, after the build document is read: `build` is its package list, or
     * None when it could not be read or decoded. With no root to attach to, the document
     * is left as it was; otherwise the surviving packages are appended, then one
     * BUILD_DEPENDENCY_OF relationship per appended package, to the first root.
     */
    method ParseBuildSBOM(build: Option<seq<SpdxPackage>>, ext: Foreign) returns (err: Option<Error>)
      modifies this`packages, this`relationships
      ensures build.None? ==> err == Some(BuildSbomUnreadable) && packages == old(packages) && relationships == old(relationships)
      ensures build.Some? && |describes| == 0 ==>
        err == Some(NoRootElements) && packages == old(packages) && relationships == old(relationships)
      ensures build.Some? && |describes| > 0 ==>
        && err == None
        && packages == old(packages) + Survivors(build.value, ext.purlFromString)
        && relationships == old(relationships) + DependencyRecords(Survivors(build.value, ext.purlFromString), describes[0])
    {
      if build.None? {
        return Some(BuildSbomUnreadable);
      }
      if |describes| == 0 {
        return Some(NoRootElements);
      }
      var ret := FilterBuildPackages(build.value, ext);
      packages := packages + ret;
      var rootId := describes[0];
      for i := 0 to |ret|
        invariant packages == old(packages) + ret
        invariant relationships == old(relationships) + DependencyRecords(ret[..i], rootId)
      {
        DependencyRecordsSnoc(ret, rootId, i);
        relationships := relationships + [SpdxRelationship(ret[i].id, "BUILD_DEPENDENCY_OF", rootId)];
      }
      assert ret[..|ret|] == ret;
      return None;
    }
  }

  /** The record literal of addPackage and the loops that complete it. */
  method BuildPackageRecord(p: Package, ext: Foreign) returns (r: SpdxPackage)
    ensures r == PackageRecord(p, ext)
  {
    var checksums := ChecksumRecords(p.checksums);
    var hasFiles, hashList, excluded := CollectFiles(p.relationships);

    var filesAnalyzed := false;
    var code: Option<PackageVerificationCode> := None;
    var verificationCode := ComputeVerificationCode(hashList, ext.sha1);
    if verificationCode != "" {
      code := Some(PackageVerificationCode(verificationCode, None));
      filesAnalyzed := true;
      if |excluded| > 0 {
        code := Some(PackageVerificationCode(verificationCode, Some(excluded)));
      }
    }
    assert code == VerificationOf(p.relationships, ext.sha1);

    var externalRefs := [];
    if p.namespace != "" {
      var q := [];
      if p.arch != "" {
        q := [Qualifier("arch", p.arch)];
      }
      externalRefs := externalRefs + [ExternalRef(
        "PACKAGE_MANAGER",
        ext.purlToString(PackageURL("apk", p.namespace, p.name, p.version, q, "")),
        "purl")];
    }
    assert externalRefs == PurlRefs(p, ext);

    r := SpdxPackage(
      id := p.id,
      name := p.name,
      version := p.version,
      filesAnalyzed := filesAnalyzed,
      hasFiles := hasFiles,
      licenseConcluded := p.licenseConcluded,
      licenseDeclared := p.licenseDeclared,
      downloadLocation := NoAssertion,
      licenseInfoFromFiles := [],
      copyrightText := p.copyright,
      checksums := checksums,
      externalRefs := externalRefs,
      verificationCode := code);
  }

  /** The relationship loop of addPackage that lists its file targets and their SHA1 hashes. */
  method CollectFiles(rels: seq<Relationship>) returns (hasFiles: seq<string>, hashList: seq<string>, excluded: seq<string>)
    ensures hasFiles == FileTargetIds(rels)
    ensures hashList == HashList(rels)
    ensures excluded == ExcludedIds(rels)
  {
    hasFiles, hashList, excluded := [], [], [];
    for i := 0 to |rels|
      invariant hasFiles == FileTargetIds(rels[..i])
      invariant hashList == HashList(rels[..i])
      invariant excluded == ExcludedIds(rels[..i])
    {
      var rel := rels[i];
      assert rels[..i + 1][..i] == rels[..i];
      if rel.target.FileElement? {
        var f := rel.target.file;
        hasFiles := hasFiles + [f.id];
        if "SHA1" in f.checksums {
          hashList := hashList + [f.checksums["SHA1"]];
        } else {
          excluded := excluded + [f.id];
        }
      }
    }
    assert rels[..|rels|] == rels;
  }

  /** The filter loop of ParseBuildSBOM: every package once per qualifying purl reference. */
  method FilterBuildPackages(build: seq<SpdxPackage>, ext: Foreign) returns (ret: seq<SpdxPackage>)
    ensures ret == Survivors(build, ext.purlFromString)
  {
    ret := [];
    for i := 0 to |build|
      invariant ret == Survivors(build[..i], ext.purlFromString)
    {
      var p := build[i];
      assert build[..i + 1][..i] == build[..i];
      if |p.externalRefs| > 0 {
        ghost var before := ret;
        for j := 0 to |p.externalRefs|
          invariant ret == before + Copies(p, p.externalRefs[..j], ext.purlFromString)
        {
          var e := p.externalRefs[j];
          assert p.externalRefs[..j + 1][..j] == p.externalRefs[..j];
          if e.refType == "purl" {
            var pl := ext.purlFromString(e.locator);
            if pl.None? {
              continue;
            }
            if pl.value.purlType == TypeOCI {
              continue;
            }
            ret := ret + [p];
          }
        }
        assert p.externalRefs[..|p.externalRefs|] == p.externalRefs;
      }
    }
    assert build[..|build|] == build;
  }

  /**
   * buildDocumentSPDX. `epoch` is the value of SOURCE_DATE_EPOCH when it is set, and
   * `toolVersion` the version string melange reports. A set value that is not a
   * base-10 int64 is an error; otherwise the document describes every top-level
   * package, then every top-level file, and holds what lowering them gives.
   */
  method BuildDocumentSPDX(spec: Spec, b: Bom, epoch: Option<string>, toolVersion: string, ext: Foreign)
    returns (r: Result<Document, Error>)
    ensures r.Err? <==> epoch.Some? && ParseInt64(epoch.value).None?
    ensures r.Err? ==> epoch.Some? && r.error == EpochMalformed(epoch.value)
    ensures r.Ok? ==>
      && fresh(r.value)
      && r.value.name == "apk-" + spec.packageName + "-" + spec.packageVersion
      && r.value.id == "SPDXRef-DOCUMENT-" + r.value.name
      && r.value.version == "SPDX-2.3"
      && r.value.created == (if epoch.Some? then Epoch(ParseInt64(epoch.value).value) else Now)
      && r.value.creators == ["Tool: melange (" + toolVersion + ")", "Organization: Chainguard, Inc"]
      && r.value.licenseListVersion == "3.18"
      && r.value.dataLicense == "CC0-1.0"
      && r.value.namespace == "https://spdx.org/spdxdocs/chainguard/melange/"
      && r.value.describes == Describes(b)
      && r.value.Lists() == LowerBom(b, ext)
  {
    var created := Now;
    if epoch.Some? {
      var sec := ParseInt64(epoch.value);
      if sec.None? {
        return Err(EpochMalformed(epoch.value));
      }
      created := Epoch(sec.value);
    }

    var doc := new Document(spec, created, toolVersion);
    doc.DescribePackages(b.packages, ext);
    doc.DescribeFiles(b.files, ext);
    return Ok(doc);
  }

  /**
   * WriteSBOM up to the encoding: the document is built, the build environment's
   * packages merged into it, and the result handed to the writer. The document of a
   * well-formed bom has no relationship naming an element it does not hold.
   */
  method WriteSBOM(spec: Spec, b: Bom, epoch: Option<string>, toolVersion: string,
                   build: Option<seq<SpdxPackage>>, ext: Foreign)
    returns (r: Result<Document, Error>)
    ensures epoch.Some? && ParseInt64(epoch.value).None? ==> r == Err(EpochMalformed(epoch.value))
    ensures r.Ok? <==> !(epoch.Some? && ParseInt64(epoch.value).None?) && build.Some? && |Describes(b)| > 0
    ensures !(epoch.Some? && ParseInt64(epoch.value).None?) && build.None? ==> r == Err(BuildSbomUnreadable)
    ensures !(epoch.Some? && ParseInt64(epoch.value).None?) && build.Some? && |Describes(b)| == 0 ==>
      r == Err(NoRootElements)
    ensures r.Ok? ==>
      var survivors := Survivors(build.value, ext.purlFromString);
      && r.value.describes == Describes(b)
      && r.value.Lists() == Lowered(LowerBom(b, ext).packages + survivors, LowerBom(b, ext).files,
                                    LowerBom(b, ext).relationships + DependencyRecords(survivors, Describes(b)[0]))
    ensures r.Ok? && WellFormedBom(b) ==> Resolved(r.value.Lists())
  {
    var built := BuildDocumentSPDX(spec, b, epoch, toolVersion, ext);
    if built.Err? {
      return Err(built.error);
    }
    var doc := built.value;
    ghost var lowered := doc.Lists();
    var err := doc.ParseBuildSBOM(build, ext);
    if err.Some? {
      return Err(err.value);
    }
    if WellFormedBom(b) {
      BomLoweringResolved(b, ext);
      assert doc.describes[0] in Describes(b);
      MergeKeepsResolved(lowered, Survivors(build.value, ext.purlFromString), doc.describes[0]);
    }
    return Ok(doc);
  }
}
