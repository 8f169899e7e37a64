/**
 * The in-memory description of an apk before it is lowered to SPDX: packages and
 * files linked by typed relationships (pkg/sbom/implementation.go), the identity
 * metadata that comes with a build, and the errors the generator reports.
 *
 * Go links relationships by pointers; here the graph is a finite tree of values, so
 * every traversal terminates structurally. A relationship's target is held by value,
 * and its source by the identifier `Source.ID()` yields (a value cannot contain the
 * package whose list contains it). `ID()` itself is not part of this model: each
 * entity carries the identifier it would return in its `id` field.
 */
module Bom {
  import opened Wrappers

  /** The SPDX "no assertion" sentinel (spdx.NOASSERTION). */
  const NoAssertion: string := "NOASSERTION"

  /** Go's `pkg`. */
  datatype Package = Package(
    id: string,
    name: string,
    version: string,
    copyright: string,
    licenseDeclared: string,
    licenseConcluded: string,
    namespace: string,
    arch: string,
    checksums: map<string, string>,
    relationships: seq<Relationship>,
    filesAnalyzed: bool)

  /** Go's `file`. */
  datatype File = File(
    id: string,
    name: string,
    checksums: map<string, string>,
    relationships: seq<Relationship>)

  /** A relationship endpoint: Go switches on `*pkg` and `*file`. */
  datatype Element = PackageElement(pkg: Package) | FileElement(file: File) {

    function Id(): string {
      if PackageElement? then pkg.id else file.id
    }

    function Relationships(): seq<Relationship> {
      if PackageElement? then pkg.relationships else file.relationships
    }
  }

  datatype Relationship = Relationship(sourceId: string, kind: string, target: Element)

  /** Go's `bom`: the top-level packages and files of the document. */
  datatype Bom = Bom(packages: seq<Package>, files: seq<File>)

  /** The identity metadata of the package being built (the fields of `Spec` used here). */
  datatype Spec = Spec(
    packageName: string,
    packageVersion: string,
    license: string,
    copyright: string,
    namespace: string,
    arch: string)

  datatype Error =
    | NameNotSpecified
    | WalkFailed
    | DigestFailed(algorithm: string, path: string)
    | EpochMalformed(value: string)
    | NoRootElements
    | BuildSbomUnreadable

  /**
   * Every relationship in the tree starts at the element whose list holds it: the shape
   * the generator builds, and the one under which the document has no dangling ids.
   */
  ghost predicate WellFormed(e: Element)
    decreases e
  {
    forall k :: 0 <= k < |e.Relationships()| ==>
      e.Relationships()[k].sourceId == e.Id() && WellFormed(e.Relationships()[k].target)
  }

  ghost predicate WellFormedBom(b: Bom) {
    && (forall k :: 0 <= k < |b.packages| ==> WellFormed(PackageElement(b.packages[k])))
    && (forall k :: 0 <= k < |b.files| ==> WellFormed(FileElement(b.files[k])))
  }

  /**
   * GenerateAPKPackage: the package that represents the apk. `id` is the identifier
   * `ID()` gives the new package.
   */
  function GenerateAPKPackage(spec: Spec, id: string): (r: Result<Package, Error>)
    ensures r.Err? <==> spec.packageName == ""
    ensures r.Err? ==> r.error == NameNotSpecified
    ensures r.Ok? ==>
      && r.value.id == id
      && r.value.name == spec.packageName
      && r.value.version == spec.packageVersion
      && r.value.copyright == spec.copyright
      && r.value.namespace == spec.namespace
      && r.value.arch == spec.arch
      && r.value.licenseDeclared == (if spec.license != "" then spec.license else NoAssertion)
      && r.value.licenseConcluded == NoAssertion
      && r.value.checksums == map[]
      && r.value.relationships == []
      && !r.value.filesAnalyzed
    ensures r.Ok? ==> r.value.licenseDeclared != "" && r.value.licenseConcluded != ""
    ensures r.Ok? ==> WellFormed(PackageElement(r.value))
  {
    if spec.packageName == "" then Err(NameNotSpecified)
    else
      var p := Package(
        id := id,
        name := spec.packageName,
        version := spec.packageVersion,
        copyright := spec.copyright,
        licenseDeclared := NoAssertion,
        licenseConcluded := NoAssertion,
        namespace := spec.namespace,
        arch := spec.arch,
        checksums := map[],
        relationships := [],
        filesAnalyzed := false);
      if spec.license != "" then Ok(p.(licenseDeclared := spec.license)) else Ok(p)
  }
}
