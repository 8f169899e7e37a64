# melange SBOM generation engine, modelled in Dafny

This project models how melange builds the SPDX 2.3 software bill of materials of an
apk. The code it follows is `pkg/sbom/implementation.go`. It covers five parts:

- **Package assembly** (`GenerateAPKPackage`): builds the package that stands for the apk.
- **File scan** (`ScanFiles` and `getDirectoryTree`): lists the entries of the walked tree that are neither directories nor symbolic links (devices, pipes and sockets included) in Go string order, hashes each one, and attaches it to the package as a `CONTAINS` relationship, in path order.
- **Lowering** (`addPackage`, `addFile`, `sbomHasRelationship`, `computeVerificationCode`): flattens the package/file tree into the output document's package, file and relationship lists. It sorts checksums by algorithm name and skips relationship triples that are already recorded. It computes the package verification code of section 7.9 of SPDX 2.3.
- **Document building** (`buildDocumentSPDX`): fills in the fixed header, parses `SOURCE_DATE_EPOCH`, and lists the described roots.
- **Build-SBOM merge** (`ParseBuildSBOM`): copies every build-environment package that has a non-OCI purl into the document, and ties each copy to the first root with `BUILD_DEPENDENCY_OF`.

Modelling choices:

- Go's pointer graph is a finite tree of datatype values (`Bom.Element`), so every traversal terminates structurally.
- A relationship holds its source as the identifier `Source.ID()` returns. It holds its target by value.
- `ID()` is not part of this model. Each entity carries its identifier in an `id` field.
- The output document is a class (`Generator.Document`). Its methods extend `seq` fields, as Go appends to slices.
- Each method is proved equal to a function of the document's lists before the call (`Lowering.LowerPackage`, `Merge.Survivors`, …).
- The lemmas are stated and proved about those functions.

Modules:

| file | module | contents |
|---|---|---|
| `wrappers.dfy` | `Wrappers` | `Option`, `Result` |
| `ordering.dfy` | `StringOrder` | Go's string order, `sort.Strings` as a function, uniqueness of sorted permutations, sorted map keys, `strings.Join` |
| `decimal.dfy` | `Decimal` | `strconv.ParseInt(v, 10, 64)` |
| `bom.dfy` | `Bom` | the in-memory package/file model, errors, `GenerateAPKPackage` |
| `scan.dfy` | `Scan` | `getDirectoryTree` and `ScanFiles` after the walk |
| `spdx.dfy` | `Spdx` | output records, checksum lists, `computeVerificationCode` |
| `lowering.dfy` | `Lowering` | the records `addPackage`/`addFile` append, as functions, and their properties |
| `merge.dfy` | `Merge` | the build-SBOM filter and its properties |
| `generator.dfy` | `Generator` | the `Document` class and the imperative `addPackage`, `addFile`, `buildDocumentSPDX`, `ParseBuildSBOM`, `WriteSBOM` |

Behaviours of the code worth noting, all followed by the model:

- **Verification code presence.** The code attaches a verification code whenever the hex string is non-empty. That is always, even for a package with no files (lines 284-293).
- **Which relationships feed the code.** Every direct file-typed target is listed in `HasFiles`, whatever the relationship type; its SHA1 value feeds the code, or, when it has none, it is listed as excluded (lines 273-281).
- **Licences in `addPackage`.** `addPackage` copies `LicenseDeclared` and `LicenseConcluded` unchanged (lines 246-247). Only `GenerateAPKPackage` defaults them to `NOASSERTION` (lines 117-126).
- **No relationships from files.** `addFile` lowers the targets of a file's relationships but records no relationship triple itself (lines 358-368).
- **Repeated build packages.** `ParseBuildSBOM` appends a build package once per qualifying purl reference, so one package can be appended several times (lines 451-463).

## Model

| member | source | states |
|---|---|---|
| Bom.GenerateAPKPackage | pkg/sbom/implementation.go:108-129 | fails exactly when the package name is empty; otherwise LicenseDeclared is the licence or NOASSERTION when none is given, LicenseConcluded is NOASSERTION, FilesAnalyzed is false, no relationships, identity fields copied, licences never empty, result well-formed |
| Scan.GetDirectoryTree | pkg/sbom/implementation.go:513-535 | errors exactly when some walk visit carries an error; otherwise returns the sorted list of `"/"+path` over the visits that are neither directories nor symlinks |
| Scan.CollectedExact | pkg/sbom/implementation.go:516-529 | a path is collected iff some walk visit that is neither a directory nor a symbolic link has that path under `/` |
| Scan.DirectoryTreeExact | pkg/sbom/implementation.go:513-535 | the listing is ascending and holds exactly the walk's entries that are neither directories nor symbolic links |
| Scan.HashFile | pkg/sbom/implementation.go:153-175 | the worker's file has the path as name, the three algorithms' digests ("" for a failed one) and no relationships; fails iff some algorithm fails, naming a failing algorithm |
| Scan.HashAll | pkg/sbom/implementation.go:147-184 | the drained pool stores one file per listed path, keyed by path; it reports an error iff some path fails to hash, and the error names a failing path and algorithm |
| Scan.AttachFiles | pkg/sbom/implementation.go:186-216 | the appended relationships are one CONTAINS per stored path, sourced at the package, in sorted path order |
| Scan.ScanFiles | pkg/sbom/implementation.go:133-217 | a walk error leaves the package unchanged; a digest error sets only FilesAnalyzed; success sets FilesAnalyzed and appends, after the existing relationships, one CONTAINS relationship per scanned path in ascending order |
| Scan.ContainsAllExact | pkg/sbom/implementation.go:186-216 | the appended relationships number the scanned paths, all start at the package with type CONTAINS, target files named by the scanned paths, in strictly ascending order, and every path appears |
| Scan.ScanKeepsWellFormed | pkg/sbom/implementation.go:197-216 | scanning keeps the package well-formed: every new relationship's source is the package |
| StringOrder.Sort | pkg/sbom/implementation.go:230 | `sort.Strings`: the result is ascending and a permutation of the input |
| StringOrder.SortedUnique | pkg/sbom/implementation.go:194 | two ascending sequences with the same elements are equal, so the sorted order does not depend on the sorting algorithm or input order |
| StringOrder.SortDeterminedByMultiset | pkg/sbom/implementation.go:259 | sorting depends only on the multiset of strings |
| StringOrder.SortedSetExact | pkg/sbom/implementation.go:188-194 | the sorted keys are strictly ascending, as many as the keys, and exactly the keys |
| StringOrder.SortedKeys | pkg/sbom/implementation.go:255-259 | ranging over a map's keys and sorting them gives the keys' ascending listing, whatever the iteration order |
| StringOrder.BelowTotal | pkg/sbom/implementation.go:533 | Go's string order is total |
| StringOrder.BelowTransitive | pkg/sbom/implementation.go:533 | Go's string order is transitive |
| Decimal.ParseInt64 | pkg/sbom/implementation.go:387 | the parsed value lies in the int64 range; "", "+" and "-" are rejected |
| Decimal.ParseFormatRoundTrip | pkg/sbom/implementation.go:387-390 | the decimal form of an integer parses back to it exactly when it is within int64, and fails otherwise |
| Decimal.NonDigitRejected | pkg/sbom/implementation.go:387-390 | a non-digit after the optional sign makes the epoch malformed |
| Spdx.Hex | pkg/sbom/implementation.go:235 | `%x` gives two lower-case hex digits per byte |
| Spdx.ComputeVerificationCode | pkg/sbom/implementation.go:228-236 | the code is 40 lower-case hex digits, hence never empty, for any list of hashes including none |
| Spdx.VerificationCodeOrderFree | pkg/sbom/implementation.go:228-236 | permuting the hash list does not change the code |
| Spdx.ChecksumListExact | pkg/sbom/implementation.go:255-265 | the checksum records hold exactly the map's entries, strictly ascending by algorithm name |
| Spdx.ChecksumRecords | pkg/sbom/implementation.go:343-353 | the checksum loop produces the sorted checksum list of the map |
| Lowering.FileTargetsPartition | pkg/sbom/implementation.go:271-282 | the hash list and the excluded list together are as long as the file-target list; excluded ids are file targets |
| Lowering.FileListsExact | pkg/sbom/implementation.go:273-281 | a value is in HasFiles iff it is the id of a direct file target; in the hash list iff it is the SHA1 value of a direct file target that has one; in the excluded list iff it is the id of a direct file target without a SHA1 checksum |
| Lowering.HashListPermutation | pkg/sbom/implementation.go:271-282 | permuting the relationships gives the same multiset of hashes |
| Lowering.VerificationCodeOfPermutation | pkg/sbom/implementation.go:271-289 | permuting a package's relationships does not change its verification code |
| Lowering.FileListsIgnoreKind | pkg/sbom/implementation.go:273-281 | the hash list, excluded list and HasFiles depend only on the targets, not the relationship types |
| Lowering.PurlRefs | pkg/sbom/implementation.go:295-310 | exactly one external ref, of category PACKAGE_MANAGER and type purl, iff the namespace is non-empty |
| Lowering.PackageRecordFacts | pkg/sbom/implementation.go:240-310 | the package record copies the id, name, version, licences and copyright, lists the direct file targets, sorts checksums, always carries the verification code over the hash list with FilesAnalyzed true, lists excluded files iff there are any, and has a purl iff there is a namespace |
| Lowering.NoFilesStillAnalyzed | pkg/sbom/implementation.go:284-289 | a package without file targets still has FilesAnalyzed and the code of SHA-1 over the empty string |
| Lowering.SbomHasRelationship | pkg/sbom/implementation.go:373-380 | true exactly when the relationship's (source id, type, target id) triple is among the records |
| Lowering.LowerNodeExtends | pkg/sbom/implementation.go:312-368 | lowering only appends to the three lists, and its first appended record is the element's own |
| Lowering.PackageRelationshipsRecorded | pkg/sbom/implementation.go:314-330 | after addPackage, every direct relationship's triple is recorded |
| Lowering.LowerRelsAllPresent | pkg/sbom/implementation.go:315-318 | relationships whose triples are all recorded are skipped without recursion and change nothing |
| Lowering.LowerPackageTwice | pkg/sbom/implementation.go:312-330 | adding a package a second time appends only a second copy of its own record |
| Lowering.LowerFileOnlyKeepsRelationships | pkg/sbom/implementation.go:357-368 | addFile appends no relationship record; a file subtree with only files leaves the relationship list unchanged |
| Lowering.FileToFileNotRecorded | pkg/sbom/implementation.go:325-368 | a file containing a file yields two file records and no relationship, while a package containing it records the relationship |
| Lowering.LowerNodeResolved | pkg/sbom/implementation.go:312-368 | lowering a well-formed element leaves no relationship naming an absent element and adds the element's id |
| Lowering.LowerRelsResolved | pkg/sbom/implementation.go:314-330 | the relationship loop keeps the document free of dangling ids |
| Lowering.LowerPackagesResolved | pkg/sbom/implementation.go:417-420 | the package loop of buildDocumentSPDX keeps the lists resolved and adds every package id |
| Lowering.LowerFilesResolved | pkg/sbom/implementation.go:422-425 | the file loop of buildDocumentSPDX keeps the lists resolved and adds every file id |
| Lowering.BomLoweringResolved | pkg/sbom/implementation.go:417-425 | the document of a well-formed bom has no dangling relationship, and every described id is a record's id |
| Lowering.Describes | pkg/sbom/implementation.go:417-424 | DocumentDescribes is the package ids, then the file ids, in input order |
| Merge.DependencyRecords | pkg/sbom/implementation.go:471-479 | one BUILD_DEPENDENCY_OF relationship per appended package, from its id to the root, in order |
| Merge.CopiesAreRepetitions | pkg/sbom/implementation.go:451-463 | a build package is copied once per qualifying purl ref |
| Merge.QualifyingCountPositive | pkg/sbom/implementation.go:451-462 | a package is copied at least once iff some ref is a purl that parses to a non-OCI type |
| Merge.SurvivorsConcat | pkg/sbom/implementation.go:449-466 | the filter keeps the build document's order |
| Merge.SurvivorsMembers | pkg/sbom/implementation.go:449-466 | a package is appended iff it is in the build document and has a non-OCI purl that parses |
| Merge.SurvivorsOfOne | pkg/sbom/implementation.go:449-466 | one build package is appended as many times as it has qualifying refs |
| Merge.DuplicatedBuildPackage | pkg/sbom/implementation.go:451-463 | a package with two qualifying refs is appended twice and gets two dependency relationships |
| Merge.MergeKeepsResolved | pkg/sbom/implementation.go:468-479 | the merge keeps the document free of dangling ids when its first root is one of its records |
| Generator.Document.constructor | pkg/sbom/implementation.go:396-415 | the header: Name `apk-<name>-<version>`, ID `SPDXRef-DOCUMENT-<Name>`, SPDX-2.3, list version 3.18, CC0-1.0, the melange namespace, the two creator strings, empty lists |
| Generator.Document.AddPackage | pkg/sbom/implementation.go:239-331 | the document's lists become LowerPackage of the old lists; other fields are untouched |
| Generator.Document.AddFile | pkg/sbom/implementation.go:333-369 | the document's lists become LowerFile of the old lists |
| Generator.Document.VisitTarget | pkg/sbom/implementation.go:319-329 | lowering one unrecorded relationship (its target, then the triple when the owner is a package) advances the remaining relationship loop by one step |
| Generator.Document.DescribePackages | pkg/sbom/implementation.go:417-420 | each package's id is described and the package is lowered, in order |
| Generator.Document.DescribeFiles | pkg/sbom/implementation.go:422-425 | each file's id is described and the file is lowered, in order |
| Generator.Document.ParseBuildSBOM | pkg/sbom/implementation.go:431-482 | an unreadable build document or no root is an error that leaves the document unchanged; otherwise it appends Survivors after the packages and their dependency records after the relationships |
| Generator.BuildPackageRecord | pkg/sbom/implementation.go:240-310 | the record literal and its loops produce PackageRecord |
| Generator.CollectFiles | pkg/sbom/implementation.go:271-282 | the loop collects HasFiles, the SHA1 hash list and the excluded ids of the direct file targets |
| Generator.FilterBuildPackages | pkg/sbom/implementation.go:446-466 | the filter loop produces Survivors |
| Generator.BuildDocumentSPDX | pkg/sbom/implementation.go:383-427 | fails exactly when SOURCE_DATE_EPOCH is set and not a base-10 int64; otherwise the header as stated, Created from the epoch when set, describes as Describes, and the lists as LowerBom |
| Generator.WriteSBOM | pkg/sbom/implementation.go:485-494 | a malformed epoch gives EpochMalformed, then an unreadable build document BuildSbomUnreadable, then no roots NoRootElements, and it succeeds otherwise; on success describes is the bom's roots and the lists are the lowered bom followed by the surviving build packages and their BUILD_DEPENDENCY_OF records to the first root; for a well-formed bom no relationship dangles |

## Left out

- `CheckEnvironment` and `CopyBuildSBOM`: file-system I/O.
- The file read and JSON decoding in `ParseBuildSBOM`: I/O. The model receives the decoded package list, or None when reading or decoding failed.
- File creation and JSON encoding in `WriteSBOM`: I/O.
- `GenerateDocument`: it only returns an empty bom.
- `ScanLicenses` and `ReadDependencyData`: they are no-ops returning nil.
- The walk, hashing and resolving of real files (`filepath.Abs`, `fs.WalkDir`, `hash.SHA*ForFile`): I/O. The walk is given as the sequence of callback visits it makes. The digests are given as a function from (algorithm, path) to an optional hex digest. `filepath.Abs` is taken to succeed.
- The `limiter` worker pool, `sync.Map` and `FirstErrorStore`/`FirstErrorGet` in `ScanFiles`: concurrency. The workers run one after another.
- Scan.HashAll: when several digests fail, Go keeps whichever error is stored first. The model promises only that the error names some failing path and algorithm.
- The error of `WaitAndClose` is not modelled. The `!ok` branch after `files.Load` is dead, because every listed path is stored, so it is not modelled either.
- SHA-1 (`crypto/sha1`), `PackageURL.ToString` and `purl.FromString`: foreign code. They are fields of `Spdx.Foreign`. SHA-1 is assumed only to return 20 bytes.
- `ID()` of packages and files: not shown in the source. Each entity carries its identifier as a field.
- The error branch of `h.Write` in `computeVerificationCode`: unreachable, since a SHA-1 writer never fails.
- `version.GetVersionInfo()`: its version string is a parameter.
- `time.Now`, `time.Unix` and RFC 3339 formatting: clock and library formatting. `Created` is `Now` or `Epoch(seconds)`.
- `sort.Strings` sorting its argument in place: modelled as a function on values. No caller reads the slice after the sort.
- Go compares strings byte by byte. The model compares code points, which gives the same order on valid UTF-8.
- The `ExternalDocumentRefs` field: always empty.
- Header fields are `const`, because no code changes them after the document literal.
- The SPDX fields this code never sets: left out of the record types.
