/** Fingerprinting (src/Hasher.php): which files of a package directory are
    hashed, in which order, and the three hashes built on one streaming
    xxh64 context whose hex digest is upper-cased. */
module Hasher {
  import opened Php

  /** What the filesystem shows at a path: a directory listing in `scandir`
      order (ascending by name), a regular file with its bytes, or a symbolic
      link, which the walk never follows, so its target is not recorded. */
  datatype Node = Dir(entries: seq<(string, Node)>) | File(content: string) | Link

  /** The node found at each path, following links at that path itself. */
  type Fs = map<string, Node>

  /** xxh64 of a byte string, rendered as lower-case hexadecimal. The model
      treats it as an arbitrary function and never looks inside it. */
  type HashFn = string -> string

  /** A selected file: its path and the bytes `hash_update_file` reads from it. */
  datatype FileRef = FileRef(path: string, content: string)

  const HashedFileExtensions: seq<string> := ["php", "phtml", "html", "js"]

  const ClientName: string := "composer-integrity-plugin"

  predicate IsDotEntry(name: string) {
    name == "." || name == ".."
  }

  /** The extension test of the walk: lower-cased `pathinfo` extension. */
  predicate IsHashedName(name: string) {
    Lower(Extension(name)) in HashedFileExtensions
  }

  function Width(n: Node): nat {
    if n.Dir? then |n.entries| + 1 else 0
  }

  // ---------------------------------------------------------------------
  // The walk, as a specification

  /** Files selected from the first `k` entries of directory `d` at `dir`. */
  function DirFiles(dir: string, d: Node, k: nat): seq<FileRef>
    requires d.Dir? && k <= |d.entries|
    decreases d, k
  {
    if k == 0 then []
    else DirFiles(dir, d, k - 1) + EntryFiles(dir, d.entries[k - 1].0, d.entries[k - 1].1)
  }

  /** What one entry `name` of the directory at `dir` contributes. */
  function EntryFiles(dir: string, name: string, n: Node): seq<FileRef>
    decreases n, Width(n)
  {
    if IsDotEntry(name) then []
    else
      match n
      case Link => []
      case Dir(es) => DirFiles(Join(dir, name), n, |es|)
      case File(b) => if IsHashedName(name) then [FileRef(Join(dir, name), b)] else []
  }

  /** `getPackageFiles(dir)` when `scandir(dir)` sees `n`; a failing
      `scandir` (no directory there) yields no files. */
  function Listing(dir: string, n: Node): seq<FileRef> {
    if n.Dir? then DirFiles(dir, n, |n.entries|) else []
  }

  function PackageFiles(fs: Fs, dir: string): seq<FileRef> {
    if dir in fs then Listing(dir, fs[dir]) else []
  }

  /** The bytes fed to the context, file after file. */
  function Concat(files: seq<FileRef>): string {
    if files == [] then "" else Concat(files[..|files| - 1]) + files[|files| - 1].content
  }

  /** `file_get_contents`; its `false` on failure becomes "" in `hash_update`. */
  function ReadFile(fs: Fs, path: string): string {
    if path in fs && fs[path].File? then fs[path].content else ""
  }

  function PackageDataHash(h: HashFn, fs: Fs, dir: string): string {
    Upper(h(Concat(PackageFiles(fs, dir))))
  }

  function PackageIdHash(h: HashFn, name: string, version: string): string {
    Upper(h(name + version))
  }

  /** The bytes an installation hash covers, for a given client string. */
  function InstallInput(fs: Fs, baseDir: string, client: string): string {
    ReadFile(fs, Join(baseDir, "composer.json")) + ReadFile(fs, Join(baseDir, "composer.lock")) + client
  }

  function InstallIdHash(h: HashFn, fs: Fs, baseDir: string, client: string): string {
    Upper(h(InstallInput(fs, baseDir, client)))
  }

  // ---------------------------------------------------------------------
  // The streaming hash context

  /** A `hash_init('xxh64')` context: it remembers everything fed to it. */
  class HashContext {
    const algo: HashFn
    var input: string

    constructor (algo: HashFn)
      ensures this.algo == algo && input == ""
    {
      this.algo := algo;
      input := "";
    }

    /** `hash_update` / `hash_update_file`. */
    method Update(data: string)
      modifies this
      ensures input == old(input) + data
    {
      input := input + data;
    }

    /** `hash_final`: the digest of all input so far. */
    function Final(): (digest: string)
      reads this
      ensures digest == algo(input)
    {
      algo(input)
    }
  }

  // ---------------------------------------------------------------------
  // The operations of Hasher.php

  /** `getPackageFiles`: the `foreach` over the listing with its `continue`s
      and the `array_merge` of each subdirectory's files. */
  method GetPackageFiles(dir: string, n: Node) returns (files: seq<FileRef>)
    ensures files == Listing(dir, n)
    decreases n
  {
    files := [];
    if !n.Dir? {
      return;
    }
    var items := n.entries;
    for i := 0 to |items|
      invariant files == DirFiles(dir, n, i)
    {
      var (item, child) := items[i];
      if item == "." || item == ".." {
        continue;
      }
      var path := Join(dir, item);
      if child.Link? {
        continue;
      } else if child.Dir? {
        var sub := GetPackageFiles(path, child);
        files := files + sub;
      } else if Lower(Extension(item)) in HashedFileExtensions {
        files := files + [FileRef(path, child.content)];
      }
    }
  }

  method GeneratePackageDataHash(h: HashFn, fs: Fs, packageDirectory: string) returns (r: string)
    ensures r == Upper(h(Concat(PackageFiles(fs, packageDirectory))))
  {
    var context := new HashContext(h);
    var files := [];
    if packageDirectory in fs {
      files := GetPackageFiles(packageDirectory, fs[packageDirectory]);
    }
    for i := 0 to |files|
      invariant context.algo == h
      invariant context.input == Concat(files[..i])
    {
      assert files[..i + 1][..i] == files[..i];
      context.Update(files[i].content);
    }
    assert files[..|files|] == files;
    r := Upper(context.Final());
  }

  method GeneratePackageIdHash(h: HashFn, packageName: string, packageVersion: string) returns (r: string)
    ensures r == Upper(h(packageName + packageVersion))
  {
    var context := new HashContext(h);
    context.Update(packageName);
    context.Update(packageVersion);
    assert context.input == packageName + packageVersion;
    r := Upper(context.Final());
  }

  /** The installation hash with the client string as a parameter: Hasher.php
      passes ClientName, the older Integrity.php and Command.php another. */
  method GenerateInstallIdHashFor(h: HashFn, fs: Fs, baseDir: string, client: string) returns (r: string)
    ensures r == InstallIdHash(h, fs, baseDir, client)
  {
    var context := new HashContext(h);
    context.Update(ReadFile(fs, Join(baseDir, "composer.json")));
    context.Update(ReadFile(fs, Join(baseDir, "composer.lock")));
    context.Update(client);
    assert context.input == InstallInput(fs, baseDir, client);
    r := Upper(context.Final());
  }

  method GenerateInstallIdHash(h: HashFn, fs: Fs, baseDir: string) returns (r: string)
    ensures r == Upper(h(ReadFile(fs, Join(baseDir, "composer.json"))
                         + ReadFile(fs, Join(baseDir, "composer.lock"))
                         + "composer-integrity-plugin"))
  {
    r := GenerateInstallIdHashFor(h, fs, baseDir, ClientName);
  }
}
