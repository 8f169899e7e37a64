/**
 * The deterministic part of `ScanFiles` and `getDirectoryTree`: listing the walked
 * tree, hashing every listed file and attaching the files to the package in path order.
 *
 * The file-system walk is given as the sequence of callback invocations it makes, and
 * the content digests as a function from (algorithm, path) to a hex digest, or None
 * when the file cannot be read. The worker pool is run sequentially: its only visible
 * results are the path-to-file map and whether some digest failed.
 */
module Scan {
  import opened Wrappers
  import opened StringOrder
  import opened Bom

  /** One call of the `fs.WalkDir` callback: a path relative to the root, its kind, and whether the walk passed an error. */
  datatype WalkVisit = WalkVisit(path: string, isDir: bool, isSymlink: bool, failed: bool)

  /** (algorithm, path) to the hex digest of the file's content, None if it cannot be read. */
  type Digester = (string, string) -> Option<string>

  const Algorithms: seq<string> := ["SHA1", "SHA256", "SHA512"]

  /**
   * Directories and entries whose type is exactly a symbolic link are skipped; every
   * other entry (regular files, devices, pipes, sockets) is listed.
   */
  predicate Listed(v: WalkVisit) {
    !v.isDir && !v.isSymlink
  }

  predicate WalkFails(walk: seq<WalkVisit>) {
    exists i :: 0 <= i < |walk| && walk[i].failed
  }

  /** The absolute paths the walk callback appends to `fileList`, in walk order. */
  function Collected(walk: seq<WalkVisit>): seq<string>
    decreases |walk|
  {
    if walk == [] then []
    else
      var v := walk[|walk| - 1];
      Collected(walk[..|walk| - 1]) + (if Listed(v) then ["/" + v.path] else [])
  }

  /** The set of paths the scan hashes. */
  ghost function Scanned(walk: seq<WalkVisit>): set<string> {
    set x | x in Collected(walk)
  }

  lemma {:induction false} CollectedExact(walk: seq<WalkVisit>, x: string)
    ensures x in Collected(walk) <==> exists i :: 0 <= i < |walk| && Listed(walk[i]) && x == "/" + walk[i].path
  {
    if walk != [] {
      var init := walk[..|walk| - 1];
      CollectedExact(init, x);
      assert forall i :: 0 <= i < |init| ==> init[i] == walk[i];
    }
  }

  /**
   * getDirectoryTree: fails on the first visit that carries an error; otherwise the
   * collected paths, sorted.
   */
  method GetDirectoryTree(walk: seq<WalkVisit>) returns (r: Result<seq<string>, Error>)
    ensures r.Err? <==> WalkFails(walk)
    ensures r.Err? ==> r.error == WalkFailed
    ensures r.Ok? ==> r.value == Sort(Collected(walk))
  {
    var fileList := [];
    for i := 0 to |walk|
      invariant forall j :: 0 <= j < i ==> !walk[j].failed
      invariant fileList == Collected(walk[..i])
    {
      var v := walk[i];
      assert walk[..i + 1][..i] == walk[..i];
      if v.failed {
        return Err(WalkFailed);
      }
      if v.isDir {
        continue;
      }
      if v.isSymlink {
        continue;
      }
      fileList := fileList + ["/" + v.path];
    }
    assert walk[..|walk|] == walk;
    return Ok(Sort(fileList));
  }

  /**
   * The directory listing is ascending and holds exactly the walk's entries that are
   * neither directories nor symbolic links.
   */
  lemma DirectoryTreeExact(walk: seq<WalkVisit>, x: string)
    ensures Sorted(Sort(Collected(walk)))
    ensures x in Sort(Collected(walk)) <==> exists i :: 0 <= i < |walk| && Listed(walk[i]) && x == "/" + walk[i].path
  {
    CollectedExact(walk, x);
    assert x in Sort(Collected(walk)) <==> x in multiset(Sort(Collected(walk)));
  }

  predicate HashFails(path: string, digest: Digester) {
    exists a :: a in Algorithms && digest(a, path).None?
  }

  /** What the worker stores for a failed digest: the empty string `fn` returned. */
  function ChecksumOf(o: Option<string>): string {
    if o.Some? then o.value else ""
  }

  /** The file a worker builds for `path`. */
  function ScannedFile(path: string, digest: Digester, fileId: string -> string): File {
    File(
      fileId(path),
      path,
      map["SHA1" := ChecksumOf(digest("SHA1", path)),
          "SHA256" := ChecksumOf(digest("SHA256", path)),
          "SHA512" := ChecksumOf(digest("SHA512", path))],
      [])
  }

  /** One CONTAINS relationship from `sourceId` per path, in the order of `paths`. */
  function ContainsAll(sourceId: string, paths: seq<string>, digest: Digester, fileId: string -> string): seq<Relationship>
  {
    seq(|paths|, k requires 0 <= k < |paths| =>
      Relationship(sourceId, "CONTAINS", FileElement(ScannedFile(paths[k], digest, fileId))))
  }

  lemma ContainsAllSnoc(sourceId: string, paths: seq<string>, k: nat, digest: Digester, fileId: string -> string)
    requires k < |paths|
    ensures ContainsAll(sourceId, paths[..k + 1], digest, fileId)
         == ContainsAll(sourceId, paths[..k], digest, fileId)
            + [Relationship(sourceId, "CONTAINS", FileElement(ScannedFile(paths[k], digest, fileId)))]
  {
  }

  /** The body of one worker: hash `path` with every algorithm. */
  method HashFile(path: string, digest: Digester, fileId: string -> string) returns (f: File, failure: Option<Error>)
    ensures f == ScannedFile(path, digest, fileId)
    ensures failure.None? <==> !HashFails(path, digest)
    ensures failure.Some? ==>
      && failure.value.DigestFailed?
      && failure.value.path == path
      && failure.value.algorithm in Algorithms
      && digest(failure.value.algorithm, path).None?
  {
    f := File(fileId(path), path, map[], []);
    failure := None;
    for a := 0 to |Algorithms|
      invariant f.id == fileId(path) && f.name == path && f.relationships == []
      invariant f.checksums.Keys == set j | 0 <= j < a :: Algorithms[j]
      invariant forall j :: 0 <= j < a ==> f.checksums[Algorithms[j]] == ChecksumOf(digest(Algorithms[j], path))
      invariant failure.None? <==> forall j :: 0 <= j < a ==> digest(Algorithms[j], path).Some?
      invariant failure.Some? ==>
        failure.value.DigestFailed? && failure.value.path == path &&
        failure.value.algorithm in Algorithms && digest(failure.value.algorithm, path).None?
    {
      var algo := Algorithms[a];
      var csum := digest(algo, path);
      if csum.None? && failure.None? {
        failure := Some(DigestFailed(algo, path));
      }
      f := f.(checksums := f.checksums[algo := ChecksumOf(csum)]);
    }
    assert Algorithms[0] == "SHA1" && Algorithms[1] == "SHA256" && Algorithms[2] == "SHA512";
    assert f.checksums.Keys == {"SHA1", "SHA256", "SHA512"};
    assert f.checksums == ScannedFile(path, digest, fileId).checksums;
  }

  /**
   * The worker pool, drained: one worker per listed path, each storing its file under
   * its path; `firstError` is the error kept by FirstErrorStore, if any worker failed.
   */
  method HashAll(fileList: seq<string>, digest: Digester, fileId: string -> string)
    returns (files: map<string, File>, firstError: Option<Error>)
    ensures files.Keys == set x | x in fileList
    ensures forall x :: x in files ==> files[x] == ScannedFile(x, digest, fileId)
    ensures firstError.None? <==> forall x :: x in fileList ==> !HashFails(x, digest)
    ensures firstError.Some? ==>
      && firstError.value.DigestFailed?
      && firstError.value.path in fileList
      && firstError.value.algorithm in Algorithms
      && digest(firstError.value.algorithm, firstError.value.path).None?
  {
    files := map[];
    firstError := None;
    for k := 0 to |fileList|
      invariant files.Keys == set j | 0 <= j < k :: fileList[j]
      invariant forall x :: x in files ==> files[x] == ScannedFile(x, digest, fileId)
      invariant firstError.None? <==> forall j :: 0 <= j < k ==> !HashFails(fileList[j], digest)
      invariant firstError.Some? ==>
        && firstError.value.DigestFailed?
        && firstError.value.path in fileList
        && firstError.value.algorithm in Algorithms
        && digest(firstError.value.algorithm, firstError.value.path).None?
    {
      var path := fileList[k];
      var f, failure := HashFile(path, digest, fileId);
      if failure.Some? && firstError.None? {
        firstError := failure;
      }
      files := files[path := f];
    }
    assert forall x :: x in fileList ==> exists j :: 0 <= j < |fileList| && fileList[j] == x;
  }

  /**
   * ScanFiles, from the directory listing on. `p` is the package before the call and
   * `q` the package after it (Go updates `*pkg` in place).
   */
  method ScanFiles(p: Package, walk: seq<WalkVisit>, digest: Digester, fileId: string -> string)
    returns (q: Package, err: Option<Error>)
    ensures WalkFails(walk) ==> err == Some(WalkFailed) && q == p
    ensures !WalkFails(walk) && (exists x :: x in Scanned(walk) && HashFails(x, digest)) ==>
      && q == p.(filesAnalyzed := true)
      && err.Some? && err.value.DigestFailed?
      && err.value.path in Scanned(walk)
      && err.value.algorithm in Algorithms
      && digest(err.value.algorithm, err.value.path).None?
    ensures !WalkFails(walk) && (forall x :: x in Scanned(walk) ==> !HashFails(x, digest)) ==>
      && err == None
      && q == p.(filesAnalyzed := true,
                 relationships := p.relationships + ContainsAll(p.id, SortedSet(Scanned(walk)), digest, fileId))
  {
    var tree := GetDirectoryTree(walk);
    if tree.Err? {
      return p, Some(tree.error);
    }
    var fileList := tree.value;
    assert forall x :: x in fileList <==> x in Scanned(walk) by {
      forall x ensures x in fileList <==> x in Scanned(walk) {
        assert x in fileList <==> x in multiset(fileList);
      }
    }

    q := p.(filesAnalyzed := true);
    var files, firstError := HashAll(fileList, digest, fileId);

    if firstError.Some? {
      return q, firstError;
    }
    assert forall x :: x in Scanned(walk) ==> !HashFails(x, digest);

    assert files.Keys == Scanned(walk);
    var rels := AttachFiles(q.id, files, digest, fileId);
    q := q.(relationships := q.relationships + rels);
    return q, None;
  }

  /**
   * The tail of ScanFiles: the stored paths, sorted, each made a CONTAINS relationship
   * from the package `sourceId` names, in that order.
   */
  method AttachFiles(sourceId: string, files: map<string, File>, digest: Digester, fileId: string -> string)
    returns (rels: seq<Relationship>)
    requires forall x :: x in files ==> files[x] == ScannedFile(x, digest, fileId)
    ensures rels == ContainsAll(sourceId, SortedSet(files.Keys), digest, fileId)
  {
    var pathList := SortedKeys(files.Keys);
    SortedSetMembers(files.Keys);
    rels := [];
    for k := 0 to |pathList|
      invariant rels == ContainsAll(sourceId, pathList[..k], digest, fileId)
    {
      var path := pathList[k];
      var rel := Relationship(sourceId, "CONTAINS", FileElement(files[path]));
      ContainsAllSnoc(sourceId, pathList, k, digest, fileId);
      rels := rels + [rel];
    }
    assert pathList[..|pathList|] == pathList;
  }

  /**
   * The relationships a successful scan appends: from the package, of kind CONTAINS,
   * one per scanned path, in strictly ascending path order.
   */
  lemma ContainsAllExact(sourceId: string, paths: set<string>, digest: Digester, fileId: string -> string)
    ensures var r := ContainsAll(sourceId, SortedSet(paths), digest, fileId);
      && |r| == |paths|
      && (forall k :: 0 <= k < |r| ==>
            r[k].sourceId == sourceId && r[k].kind == "CONTAINS" && r[k].target.FileElement? &&
            r[k].target.file.name in paths && r[k].target.file.relationships == [])
      && (forall i, j :: 0 <= i < j < |r| ==> Below(r[i].target.file.name, r[j].target.file.name))
      && (forall x :: x in paths ==> exists k :: 0 <= k < |r| && r[k].target.file.name == x)
  {
    SortedSetExact(paths);
    var s := SortedSet(paths);
    var r := ContainsAll(sourceId, s, digest, fileId);
    assert forall k :: 0 <= k < |r| ==> r[k].target.file.name == s[k];
    forall x | x in paths ensures exists k :: 0 <= k < |r| && r[k].target.file.name == x {
      assert x in s;
      var k :| 0 <= k < |s| && s[k] == x;
      assert r[k].target.file.name == x;
    }
  }

  /** Scanning keeps the package well-formed: every new relationship starts at it. */
  lemma ScanKeepsWellFormed(p: Package, paths: seq<string>, digest: Digester, fileId: string -> string)
    requires WellFormed(PackageElement(p))
    ensures WellFormed(PackageElement(p.(filesAnalyzed := true,
      relationships := p.relationships + ContainsAll(p.id, paths, digest, fileId))))
  {
    var q := p.(filesAnalyzed := true, relationships := p.relationships + ContainsAll(p.id, paths, digest, fileId));
    forall k | 0 <= k < |q.relationships|
      ensures q.relationships[k].sourceId == q.id && WellFormed(q.relationships[k].target)
    {
      if k < |p.relationships| {
        assert q.relationships[k] == p.relationships[k] == PackageElement(p).Relationships()[k];
      } else {
        assert q.relationships[k] == ContainsAll(p.id, paths, digest, fileId)[k - |p.relationships|];
        assert q.relationships[k].target.Relationships() == [];
      }
    }
  }
}
