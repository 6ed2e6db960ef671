/** Package discovery from composer.lock alone
    (src/PackageResolver/LockReaderStrategy.php). */
module LockReaderStrategy {
  import opened Php
  import opened Seqs
  import opened Domain
  import Hasher

  /** One element of the lock file's `packages` list after `json_decode`.
      A missing `type` key reads as null, which is never `'metapackage'`. */
  datatype LockEntry = LockEntry(name: string, kind: Option<string>, version: string)

  /** The decoded lock file. `packages` is None when the key is absent or
      null, and also when decoding failed: `null['packages'] ?? []` is `[]`. */
  datatype LockData = LockData(packages: Option<seq<LockEntry>>)

  /** The `RuntimeException('Could not find composer.lock')`. */
  datatype Error = MissingLockFile

  function LockFilePath(rootDirectory: string): string {
    Join(rootDirectory, "composer.lock")
  }

  /** `resolveVendorPath`: the directory `vendor` directly under the root. */
  function ResolveVendorPath(rootDirectory: string): (r: string)
    ensures LastIndexOf(r, Separator) == Some(|rootDirectory|)
    ensures r[..|rootDirectory|] == rootDirectory && r[|rootDirectory| + 1..] == "vendor"
  {
    JoinSplitsAtLastSeparator(rootDirectory, "vendor");
    Join(rootDirectory, "vendor")
  }

  /** The filter of the loop: no metapackages, no `dev-` versions. */
  predicate Keep(e: LockEntry) {
    e.kind != Some("metapackage") && !StartsWith(e.version, "dev-")
  }

  function ToPackage(e: LockEntry): Package {
    Package(e.name, e.version)
  }

  /** `resolvePackages`. `file_exists` is membership in `fs`, and `decode`
      stands for `json_decode(file_get_contents(...), true)`. */
  method ResolvePackages(fs: Hasher.Fs, decode: string -> LockData, rootDirectory: string)
    returns (r: Result<seq<Package>, Error>)
    ensures LockFilePath(rootDirectory) !in fs ==> r == Err(MissingLockFile)
    ensures LockFilePath(rootDirectory) in fs ==>
      r == Ok(FilterMap(decode(Hasher.ReadFile(fs, LockFilePath(rootDirectory))).packages.GetOr([]), Keep, ToPackage))
  {
    var lockFile := Join(rootDirectory, "composer.lock");
    if lockFile !in fs {
      return Err(MissingLockFile);
    }
    var data := decode(Hasher.ReadFile(fs, lockFile));
    var entries := data.packages.GetOr([]);
    var packages := [];
    for i := 0 to |entries|
      invariant packages == FilterMap(entries[..i], Keep, ToPackage)
    {
      assert entries[..i + 1][..i] == entries[..i];
      var package := entries[i];
      if package.kind == Some("metapackage") {
        continue;
      }
      if StartsWith(package.version, "dev-") {
        continue;
      }
      packages := packages + [Package(package.name, package.version)];
    }
    assert entries[..|entries|] == entries;
    return Ok(packages);
  }

  /** What `resolvePackages` returns for the entries of an existing lock
      file: exactly the entries that are neither metapackages nor `dev-`
      versions (a prefix test), in lock-file order, each as its name and
      version; an absent `packages` key gives no packages. */
  lemma {:induction false} ResolvedPackages(entries: seq<LockEntry>)
    ensures FilterMap([], Keep, ToPackage) == []
    ensures |FilterMap(entries, Keep, ToPackage)| == |KeptIndices(entries, Keep)|
    ensures forall j :: 0 <= j < |KeptIndices(entries, Keep)| ==>
      var e := entries[KeptIndices(entries, Keep)[j]];
      e.kind != Some("metapackage") && !StartsWith(e.version, "dev-") &&
      FilterMap(entries, Keep, ToPackage)[j] == Package(e.name, e.version)
    ensures forall i :: 0 <= i < |entries| ==>
      (entries[i].kind != Some("metapackage") && !StartsWith(entries[i].version, "dev-") ==> i in KeptIndices(entries, Keep))
  {
    FilterMapIsKeptSubsequence(entries, Keep, ToPackage);
  }
}
