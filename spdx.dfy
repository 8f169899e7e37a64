/**
 * The SPDX 2.3 records the generator writes (the fields of apko's `spdx` package that
 * pkg/sbom/implementation.go sets), the foreign functions it calls, and the two
 * computations shared by package and file records: the checksum list and the package
 * verification code of section 7.9 of SPDX 2.3.
 */
module Spdx {
  import opened Wrappers
  import opened StringOrder

  datatype Checksum = Checksum(algorithm: string, value: string)

  datatype ExternalRef = ExternalRef(category: string, locator: string, refType: string)

  /** `ExcludedFiles` is None where Go leaves the slice unset. */
  datatype PackageVerificationCode = PackageVerificationCode(value: string, excludedFiles: Option<seq<string>>)

  datatype SpdxPackage = SpdxPackage(
    id: string,
    name: string,
    version: string,
    filesAnalyzed: bool,
    hasFiles: seq<string>,
    licenseConcluded: string,
    licenseDeclared: string,
    downloadLocation: string,
    licenseInfoFromFiles: seq<string>,
    copyrightText: string,
    checksums: seq<Checksum>,
    externalRefs: seq<ExternalRef>,
    verificationCode: Option<PackageVerificationCode>)

  datatype SpdxFile = SpdxFile(
    id: string,
    name: string,
    licenseConcluded: string,
    fileTypes: seq<string>,
    licenseInfoInFile: seq<string>,
    checksums: seq<Checksum>)

  datatype SpdxRelationship = SpdxRelationship(element: string, relType: string, related: string)

  datatype Qualifier = Qualifier(key: string, value: string)

  /** packageurl-go's `PackageURL`. */
  datatype PackageURL = PackageURL(
    purlType: string,
    namespace: string,
    name: string,
    version: string,
    qualifiers: seq<Qualifier>,
    subpath: string)

  /** packageurl-go's `TypeOCI`. */
  const TypeOCI: string := "oci"

  type Sha1Sum = s: seq<bv8> | |s| == 20 witness seq(20, _ => 0 as bv8)

  /**
   * The calls into code outside this model: SHA-1 of a string's bytes
   * (`crypto/sha1`), `PackageURL.ToString` and `purl.FromString` (None on a
   * malformed purl).
   */
  datatype Foreign = Foreign(
    sha1: string -> Sha1Sum,
    purlToString: PackageURL -> string,
    purlFromString: string -> Option<PackageURL>)

  const HexDigits: string := "0123456789abcdef"

  predicate IsHex(c: char) {
    c in HexDigits
  }

  /** `fmt.Sprintf("%x", b)`: two lower-case hex digits per byte, high nibble first. */
  function Hex(b: seq<bv8>): (r: string)
    ensures |r| == 2 * |b|
    ensures forall i :: 0 <= i < |r| ==> IsHex(r[i])
    decreases |b|
  {
    if b == [] then ""
    else
      var v := b[0] as int;
      [HexDigits[v / 16], HexDigits[v % 16]] + Hex(b[1..])
  }

  /**
   * computeVerificationCode: the hex SHA-1 of the sorted hashes joined without a
   * separator. Go's error branch for `h.Write` is unreachable (a SHA-1 writer never
   * fails), so the result is always a 40-digit string, even for no hashes.
   */
  function ComputeVerificationCode(hashList: seq<string>, sha1: string -> Sha1Sum): (r: string)
    ensures |r| == 40 && r != ""
    ensures forall i :: 0 <= i < |r| ==> IsHex(r[i])
  {
    Hex(sha1(Concat(Sort(hashList))))
  }

  /** The order of the hashes handed to computeVerificationCode does not matter. */
  lemma VerificationCodeOrderFree(a: seq<string>, b: seq<string>, sha1: string -> Sha1Sum)
    requires multiset(a) == multiset(b)
    ensures ComputeVerificationCode(a, sha1) == ComputeVerificationCode(b, sha1)
  {
    SortDeterminedByMultiset(a, b);
  }

  /** One checksum record per key of `keys`, in that order, with the value `m` holds for it. */
  function ChecksumsIn(keys: seq<string>, m: map<string, string>): seq<Checksum>
    requires forall i :: 0 <= i < |keys| ==> keys[i] in m
  {
    seq(|keys|, i requires 0 <= i < |keys| => Checksum(keys[i], m[keys[i]]))
  }

  lemma ChecksumsInSnoc(keys: seq<string>, m: map<string, string>, k: nat)
    requires k < |keys|
    requires forall i :: 0 <= i < |keys| ==> keys[i] in m
    ensures ChecksumsIn(keys[..k + 1], m) == ChecksumsIn(keys[..k], m) + [Checksum(keys[k], m[keys[k]])]
  {
  }

  /** The checksum records of a map: its entries, in ascending order of algorithm name. */
  ghost function ChecksumList(m: map<string, string>): seq<Checksum> {
    SortedSetMembers(m.Keys);
    ChecksumsIn(SortedSet(m.Keys), m)
  }

  /**
   * Records over a strictly ascending listing of a map's keys hold exactly the map's
   * entries, in that order.
   */
  lemma ChecksumsInExact(keys: seq<string>, m: map<string, string>)
    requires StrictlySorted(keys) && |keys| == |m|
    requires forall x :: x in keys <==> x in m
    ensures var cs := ChecksumsIn(keys, m);
      && |cs| == |m|
      && (forall i :: 0 <= i < |cs| ==> cs[i].algorithm in m && cs[i].value == m[cs[i].algorithm])
      && (forall a :: a in m ==> exists i :: 0 <= i < |cs| && cs[i].algorithm == a)
      && (forall i, j :: 0 <= i < j < |cs| ==> Below(cs[i].algorithm, cs[j].algorithm))
  {
    var cs := ChecksumsIn(keys, m);
    assert forall i :: 0 <= i < |cs| ==> cs[i].algorithm == keys[i];
    forall a | a in m ensures exists i :: 0 <= i < |cs| && cs[i].algorithm == a {
      assert a in keys;
      var i :| 0 <= i < |keys| && keys[i] == a;
      assert cs[i].algorithm == a;
    }
  }

  /** The checksum list holds exactly the map's entries, strictly ascending by algorithm. */
  lemma ChecksumListExact(m: map<string, string>)
    ensures var cs := ChecksumList(m);
      && |cs| == |m|
      && (forall i :: 0 <= i < |cs| ==> cs[i].algorithm in m && cs[i].value == m[cs[i].algorithm])
      && (forall a :: a in m ==> exists i :: 0 <= i < |cs| && cs[i].algorithm == a)
      && (forall i, j :: 0 <= i < j < |cs| ==> Below(cs[i].algorithm, cs[j].algorithm))
  {
    SortedSetExact(m.Keys);
    ChecksumsInExact(SortedSet(m.Keys), m);
  }

  /** The checksum loop of addPackage and addFile: the keys ranged over, sorted, each made a record. */
  method ChecksumRecords(m: map<string, string>) returns (cs: seq<Checksum>)
    ensures cs == ChecksumList(m)
  {
    var algos := SortedKeys(m.Keys);
    SortedSetMembers(m.Keys);
    cs := [];
    for i := 0 to |algos|
      invariant cs == ChecksumsIn(algos[..i], m)
    {
      var algo := algos[i];
      ChecksumsInSnoc(algos, m, i);
      cs := cs + [Checksum(algo, m[algo])];
    }
    assert algos[..|algos|] == algos;
  }
}
