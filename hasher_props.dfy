/** What the file walk and the data hash of src/Hasher.php promise. */
module HasherProps {
  import opened Php
  import opened Hasher

  // ---------------------------------------------------------------------
  // Which files are selected, independently of their order

  /** `f` is selected from one of the first `k` entries of `d`. */
  ghost predicate DirReaches(dir: string, d: Node, k: nat, f: FileRef)
    requires d.Dir? && k <= |d.entries|
    decreases d, k
  {
    exists j :: 0 <= j < k && EntryReaches(dir, d.entries[j].0, d.entries[j].1, f)
  }

  /** `f` is selected through entry `name` of the directory at `dir`: the entry
      is not `.` or `..`, and it is either a regular file with a hashed
      extension (then `f` is that file) or a directory `f` is selected from.
      A link reaches nothing. */
  ghost predicate EntryReaches(dir: string, name: string, n: Node, f: FileRef)
    decreases n, Width(n)
  {
    !IsDotEntry(name) &&
    match n
    case Link => false
    case File(b) => IsHashedName(name) && f == FileRef(Join(dir, name), b)
    case Dir(es) => DirReaches(Join(dir, name), n, |es|, f)
  }

  lemma {:induction false} DirFilesSelectExactly(dir: string, d: Node, k: nat, f: FileRef)
    requires d.Dir? && k <= |d.entries|
    ensures f in DirFiles(dir, d, k) <==> DirReaches(dir, d, k, f)
    decreases d, k
  {
    if k > 0 {
      var (name, n) := d.entries[k - 1];
      DirFilesSelectExactly(dir, d, k - 1, f);
      EntryFilesSelectExactly(dir, name, n, f);
      if DirReaches(dir, d, k, f) {
        var j :| 0 <= j < k && EntryReaches(dir, d.entries[j].0, d.entries[j].1, f);
        if j < k - 1 {
          assert DirReaches(dir, d, k - 1, f);
        }
      }
      if EntryReaches(dir, name, n, f) {
        assert EntryReaches(dir, d.entries[k - 1].0, d.entries[k - 1].1, f);
      }
    }
  }

  lemma {:induction false} EntryFilesSelectExactly(dir: string, name: string, n: Node, f: FileRef)
    ensures f in EntryFiles(dir, name, n) <==> EntryReaches(dir, name, n, f)
    decreases n, Width(n)
  {
    if !IsDotEntry(name) && n.Dir? {
      DirFilesSelectExactly(Join(dir, name), n, |n.entries|, f);
    }
  }

  /** A file is returned by `getPackageFiles` iff it is reached through
      entries other than `.`/`..`, never through a link, and ends in a regular
      file whose name has one of the four hashed extensions. */
  lemma ListingSelectsExactly(dir: string, n: Node, f: FileRef)
    requires n.Dir?
    ensures f in Listing(dir, n) <==> DirReaches(dir, n, |n.entries|, f)
  {
    DirFilesSelectExactly(dir, n, |n.entries|, f);
  }

  // ---------------------------------------------------------------------
  // Paths

  lemma PrefixOfJoined(dir: string, name: string, p: string)
    requires StartsWith(p, Join(dir, name) + [Separator])
    ensures StartsWith(p, dir + [Separator])
  {
    assert p[..|dir| + 1] == (Join(dir, name) + [Separator])[..|dir| + 1];
  }

  lemma {:induction false} DirFilesUnderDir(dir: string, d: Node, k: nat)
    requires d.Dir? && k <= |d.entries|
    ensures forall f :: f in DirFiles(dir, d, k) ==> StartsWith(f.path, dir + [Separator])
    decreases d, k
  {
    if k > 0 {
      DirFilesUnderDir(dir, d, k - 1);
      EntryFilesUnderDir(dir, d.entries[k - 1].0, d.entries[k - 1].1);
    }
  }

  lemma {:induction false} EntryFilesUnderDir(dir: string, name: string, n: Node)
    ensures forall f :: f in EntryFiles(dir, name, n) ==> StartsWith(f.path, dir + [Separator])
    decreases n, Width(n)
  {
    if !IsDotEntry(name) {
      match n
      case Link =>
      case File(b) =>
        assert Join(dir, name)[..|dir| + 1] == dir + [Separator];
      case Dir(es) =>
        DirFilesUnderDir(Join(dir, name), n, |es|);
        forall f | f in EntryFiles(dir, name, n) ensures StartsWith(f.path, dir + [Separator]) {
          PrefixOfJoined(dir, name, f.path);
        }
    }
  }

  /** Every returned path begins with the walked directory and a separator. */
  lemma ListingUnderDir(dir: string, n: Node)
    ensures forall f :: f in Listing(dir, n) ==> StartsWith(f.path, dir + [Separator])
  {
    if n.Dir? {
      DirFilesUnderDir(dir, n, |n.entries|);
    }
  }

  // ---------------------------------------------------------------------
  // Splicing: a listing is the concatenation of its entries' contributions

  /** DirFiles looks only at the first `k` entries. */
  lemma {:induction false} DirFilesOfPrefix(dir: string, d1: Node, d2: Node, k: nat)
    requires d1.Dir? && d2.Dir? && k <= |d1.entries| && k <= |d2.entries|
    requires d1.entries[..k] == d2.entries[..k]
    ensures DirFiles(dir, d1, k) == DirFiles(dir, d2, k)
  {
    if k > 0 {
      assert d1.entries[..k - 1] == d1.entries[..k][..k - 1];
      assert d2.entries[..k - 1] == d2.entries[..k][..k - 1];
      assert d1.entries[k - 1] == d1.entries[..k][k - 1];
      assert d2.entries[k - 1] == d2.entries[..k][k - 1];
      DirFilesOfPrefix(dir, d1, d2, k - 1);
    }
  }

  /** The files of `d`, whose entries are those of `a` then those of `b`,
      taken up to the m-th entry of `b`. */
  lemma {:induction false} DirFilesSplit(dir: string, d: Node, a: Node, b: Node, m: nat)
    requires d.Dir? && a.Dir? && b.Dir? && d.entries == a.entries + b.entries && m <= |b.entries|
    ensures DirFiles(dir, d, |a.entries| + m) == DirFiles(dir, a, |a.entries|) + DirFiles(dir, b, m)
  {
    if m == 0 {
      assert d.entries[..|a.entries|] == a.entries[..|a.entries|];
      DirFilesOfPrefix(dir, d, a, |a.entries|);
    } else {
      DirFilesSplit(dir, d, a, b, m - 1);
      assert d.entries[|a.entries| + m - 1] == b.entries[m - 1];
    }
  }

  /** Listing a directory whose entries are `a` then `b` gives `a`'s files
      followed by `b`'s: each entry's files are spliced in at its position. */
  lemma ListingAppend(dir: string, a: seq<(string, Node)>, b: seq<(string, Node)>)
    ensures Listing(dir, Dir(a + b)) == Listing(dir, Dir(a)) + Listing(dir, Dir(b))
  {
    DirFilesSplit(dir, Dir(a + b), Dir(a), Dir(b), |b|);
  }

  lemma {:induction false} ConcatAppend(x: seq<FileRef>, y: seq<FileRef>)
    ensures Concat(x + y) == Concat(x) + Concat(y)
  {
    if y != [] {
      assert (x + y)[..|x + y| - 1] == x + y[..|y| - 1];
      ConcatAppend(x, y[..|y| - 1]);
    } else {
      assert x + y == x;
    }
  }

  /** The data hash sees one byte stream: splitting a directory's entries
      splits the hashed input at the same point, and file boundaries leave no
      mark in it. */
  lemma DataInputAppend(dir: string, a: seq<(string, Node)>, b: seq<(string, Node)>)
    ensures Concat(Listing(dir, Dir(a + b))) == Concat(Listing(dir, Dir(a))) + Concat(Listing(dir, Dir(b)))
  {
    ListingAppend(dir, a, b);
    ConcatAppend(Listing(dir, Dir(a)), Listing(dir, Dir(b)));
  }

  /** A directory whose every entry is `.`, `..`, a link or a file without a
      hashed extension has the data hash of the empty input. */
  lemma {:induction false} NothingSelectedHashesEmpty(h: HashFn, fs: Fs, dir: string)
    requires dir in fs && fs[dir].Dir?
    requires forall i :: 0 <= i < |fs[dir].entries| ==>
      var (name, n) := fs[dir].entries[i];
      IsDotEntry(name) || n.Link? || (n.File? && !IsHashedName(name))
    ensures PackageDataHash(h, fs, dir) == Upper(h(""))
  {
    var d := fs[dir];
    for k := 0 to |d.entries|
      invariant DirFiles(dir, d, k) == []
    {
    }
  }

  lemma ConcatOfTwo(f: FileRef, g: FileRef)
    ensures Concat([f, g]) == f.content + g.content
  {
    calc {
      Concat([f, g]);
      Concat([f, g][..1]) + g.content;
      { assert [f, g][..1] == [f]; }
      Concat([f]) + g.content;
      { assert [f][..0] == []; }
      Concat([]) + f.content + g.content;
    }
  }

  /** The data hash hashes one byte stream: moving bytes from the end of a
      selected file to the start of the next one, anywhere in the listing,
      leaves the hashed input and so the hash unchanged. */
  lemma FileBoundariesInvisible(a: seq<FileRef>, b: seq<FileRef>, p: string, q: string, x: string, y: string, z: string)
    ensures Concat(a + [FileRef(p, x + y), FileRef(q, z)] + b) == Concat(a + [FileRef(p, x), FileRef(q, y + z)] + b)
  {
    var one := [FileRef(p, x + y), FileRef(q, z)];
    var two := [FileRef(p, x), FileRef(q, y + z)];
    ConcatOfTwo(one[0], one[1]);
    ConcatOfTwo(two[0], two[1]);
    assert Concat(one) == Concat(two);
    SameInputInContext(a, one, two, b);
  }

  lemma SameInputInContext(a: seq<FileRef>, one: seq<FileRef>, two: seq<FileRef>, b: seq<FileRef>)
    requires Concat(one) == Concat(two)
    ensures Concat(a + one + b) == Concat(a + two + b)
  {
    ConcatAppend(a + one, b);
    ConcatAppend(a, one);
    ConcatAppend(a + two, b);
    ConcatAppend(a, two);
  }

  /** The id hash sees only `name ++ version`: pairs with the same
      concatenation share an id. */
  lemma IdHashSeesConcatenation(h: HashFn, name: string, version: string, name': string, version': string)
    requires name + version == name' + version'
    ensures PackageIdHash(h, name, version) == PackageIdHash(h, name', version')
  {
  }

  // ---------------------------------------------------------------------
  // Only the selected part of the tree matters

  predicate Selectable(e: (string, Node)) {
    !IsDotEntry(e.0) && !e.1.Link? && (e.1.File? ==> IsHashedName(e.0))
  }

  /** The first `k` entries of `d` with every unselected entry removed, at
      every depth. */
  function PruneDir(d: Node, k: nat): (r: seq<(string, Node)>)
    requires d.Dir? && k <= |d.entries|
    ensures forall e :: e in r ==> Selectable(e)
    decreases d, k
  {
    if k == 0 then [] else PruneDir(d, k - 1) + PruneEntry(d.entries[k - 1].0, d.entries[k - 1].1)
  }

  function PruneEntry(name: string, n: Node): (r: seq<(string, Node)>)
    ensures forall e :: e in r ==> Selectable(e)
    decreases n, Width(n)
  {
    if IsDotEntry(name) then []
    else
      match n
      case Link => []
      case File(_) => if IsHashedName(name) then [(name, n)] else []
      case Dir(es) => [(name, Dir(PruneDir(n, |es|)))]
  }

  function Pruned(n: Node): Node {
    if n.Dir? then Dir(PruneDir(n, |n.entries|)) else n
  }

  lemma {:induction false} PruneDirKeepsFiles(dir: string, d: Node, k: nat)
    requires d.Dir? && k <= |d.entries|
    ensures Listing(dir, Dir(PruneDir(d, k))) == DirFiles(dir, d, k)
    decreases d, k
  {
    if k > 0 {
      var (name, n) := d.entries[k - 1];
      PruneDirKeepsFiles(dir, d, k - 1);
      PruneEntryKeepsFiles(dir, name, n);
      ListingAppend(dir, PruneDir(d, k - 1), PruneEntry(name, n));
    }
  }

  lemma {:induction false} PruneEntryKeepsFiles(dir: string, name: string, n: Node)
    ensures Listing(dir, Dir(PruneEntry(name, n))) == EntryFiles(dir, name, n)
    decreases n, Width(n)
  {
    if !IsDotEntry(name) && n.Dir? {
      var p := PruneDir(n, |n.entries|);
      PruneDirKeepsFiles(Join(dir, name), n, |n.entries|);
      calc {
        Listing(dir, Dir(PruneEntry(name, n)));
        DirFiles(dir, Dir([(name, Dir(p))]), 1);
        EntryFiles(dir, name, Dir(p));
        Listing(Join(dir, name), Dir(p));
      }
    } else {
      var e := PruneEntry(name, n);
      if e != [] {
        assert e == [(name, n)];
        assert DirFiles(dir, Dir(e), 1) == DirFiles(dir, Dir(e), 0) + EntryFiles(dir, name, n);
      }
    }
  }

  /** Removing `.`/`..` entries, links and files without a hashed extension,
      at any depth, changes neither the file list nor the data hash: the hash
      is blind to everything the walk does not select. */
  lemma PruningPreservesDataHash(h: HashFn, fs: Fs, dir: string)
    requires dir in fs
    ensures PackageFiles(fs[dir := Pruned(fs[dir])], dir) == PackageFiles(fs, dir)
    ensures PackageDataHash(h, fs[dir := Pruned(fs[dir])], dir) == PackageDataHash(h, fs, dir)
  {
    if fs[dir].Dir? {
      PruneDirKeepsFiles(dir, fs[dir], |fs[dir].entries|);
    }
  }
}
