/** Submission and reconciliation (src/PackageSubmitter.php): fingerprint
    every package of the local repository, send the hashes, index the
    service's answer by `pkg_ver` and give every package one verdict. */
module PackageSubmitter {
  import opened Php
  import opened Domain
  import opened Hasher

  /** An element of `getPackages`: the array `{id, data, name, version}`. */
  datatype LocalPackage = LocalPackage(id: string, data: string, name: string, version: string)

  /** An element of the payload's `pkg` list: `{id, data}` only. */
  datatype PkgRef = PkgRef(id: string, data: string)

  /** The request body `{id, hash_type, origin, pkg}`. */
  datatype VendorState = VendorState(id: string, hashType: int, origin: int, pkg: seq<PkgRef>)

  /** An element of the response's `verdicts` list; absent or null fields
      are None. */
  datatype ResponseVerdict = ResponseVerdict(pkgVer: Option<string>, verdict: Option<string>, incidencePerc: Option<string>)

  /** The decoded response; `verdicts` is None when `isset` fails (also when
      the body did not decode). */
  datatype Response = Response(verdicts: Option<seq<ResponseVerdict>>)

  /** The service behind the POST: the decoded answer to a given payload. */
  type Service = VendorState -> Response

  const HashTypeXxh64: int := 0
  const Origin: int := 1

  function PackagePath(vendorDir: string, name: string): string {
    Join(vendorDir, name)
  }

  /** What `getPackages` records for one repository package. */
  function LocalPackageOf(h: HashFn, fs: Fs, vendorDir: string, p: RepoPackage): LocalPackage {
    LocalPackage(
      PackageIdHash(h, p.name, p.prettyVersion),
      PackageDataHash(h, fs, PackagePath(vendorDir, p.name)),
      p.name,
      p.prettyVersion)
  }

  /** `getPackages`: one record per local-repository package, in order, with
      the id hash of name and pretty version and the data hash of the
      package's directory under the vendor directory. */
  method GetPackages(h: HashFn, fs: Fs, vendorDir: string, repo: seq<RepoPackage>)
    returns (packages: seq<LocalPackage>)
    ensures |packages| == |repo|
    ensures forall i :: 0 <= i < |repo| ==> packages[i] == LocalPackageOf(h, fs, vendorDir, repo[i])
    ensures forall i :: 0 <= i < |repo| ==>
      packages[i].name == repo[i].name && packages[i].version == repo[i].prettyVersion &&
      packages[i].id == Upper(h(repo[i].name + repo[i].prettyVersion)) &&
      packages[i].data == Upper(h(Concat(PackageFiles(fs, vendorDir + "/" + repo[i].name))))
  {
    packages := [];
    for i := 0 to |repo|
      invariant |packages| == i
      invariant forall j :: 0 <= j < i ==> packages[j] == LocalPackageOf(h, fs, vendorDir, repo[j])
    {
      var package := repo[i];
      var packagePath := Join(vendorDir, package.name);
      var id := GeneratePackageIdHash(h, package.name, package.prettyVersion);
      var data := GeneratePackageDataHash(h, fs, packagePath);
      packages := packages + [LocalPackage(id, data, package.name, package.prettyVersion)];
    }
  }

  /** The `array_map` of `getVendorState`: each package reduced to its two
      hashes, in order. */
  function Project(packages: seq<LocalPackage>): (r: seq<PkgRef>)
    ensures |r| == |packages|
    ensures forall i :: 0 <= i < |packages| ==> r[i].id == packages[i].id && r[i].data == packages[i].data
  {
    seq(|packages|, i requires 0 <= i < |packages| => PkgRef(packages[i].id, packages[i].data))
  }

  function VendorStateOf(h: HashFn, fs: Fs, cwd: string, packages: seq<LocalPackage>): VendorState {
    VendorState(InstallIdHash(h, fs, cwd, ClientName), HashTypeXxh64, Origin, Project(packages))
  }

  /** `getVendorState`, with `getcwd()` as the parameter `cwd`. */
  method GetVendorState(h: HashFn, fs: Fs, cwd: string, packages: seq<LocalPackage>) returns (state: VendorState)
    ensures state.id == InstallIdHash(h, fs, cwd, "composer-integrity-plugin")
    ensures state.hashType == 0 && state.origin == 1
    ensures |state.pkg| == |packages|
    ensures forall i :: 0 <= i < |packages| ==> state.pkg[i] == PkgRef(packages[i].id, packages[i].data)
  {
    var id := GenerateInstallIdHashFor(h, fs, cwd, ClientName);
    state := VendorState(id, HashTypeXxh64, Origin, Project(packages));
  }

  /** Names and versions never reach the wire: two package lists that agree
      on their hashes give the same payload. */
  lemma PayloadWithholdsNames(h: HashFn, fs: Fs, cwd: string, a: seq<LocalPackage>, b: seq<LocalPackage>)
    requires |a| == |b|
    requires forall i :: 0 <= i < |a| ==> a[i].id == b[i].id && a[i].data == b[i].data
    ensures VendorStateOf(h, fs, cwd, a) == VendorStateOf(h, fs, cwd, b)
  {
    assert Project(a) == Project(b);
  }

  // ---------------------------------------------------------------------
  // The verdict index

  /** The key an entry is stored under: a null `pkg_ver` is the key "". */
  function Key(e: ResponseVerdict): string {
    e.pkgVer.GetOr("")
  }

  /** The dictionary the `foreach` of `submitPackages` fills, entry after
      entry, each one overwriting any earlier one with the same key. */
  function Index(entries: seq<ResponseVerdict>): map<string, ResponseVerdict> {
    if entries == [] then map[]
    else Index(entries[..|entries| - 1])[Key(entries[|entries| - 1]) := entries[|entries| - 1]]
  }

  function IndexOf(response: Response): map<string, ResponseVerdict> {
    if response.verdicts.None? then map[] else Index(response.verdicts.value)
  }

  /** The index of a decoded answer has a key exactly when the answer has a
      `verdicts` list with an entry under that key, and then holds the last
      such entry. */
  lemma IndexOfLastWins(response: Response, k: string)
    ensures k in IndexOf(response) <==>
      response.verdicts.Some? && exists i :: 0 <= i < |response.verdicts.value| && Key(response.verdicts.value[i]) == k
    ensures k in IndexOf(response) ==>
      var entries := response.verdicts.value;
      exists i :: 0 <= i < |entries| && Key(entries[i]) == k && IndexOf(response)[k] == entries[i] &&
        forall j :: i < j < |entries| ==> Key(entries[j]) != k
  {
    if response.verdicts.Some? {
      IndexLastWins(response.verdicts.value, k);
    }
  }

  /** `submitPackages`: post the payload and index the answer by `pkg_ver`. */
  method SubmitPackages(h: HashFn, fs: Fs, cwd: string, service: Service, packages: seq<LocalPackage>)
    returns (verdictsByPackageVer: map<string, ResponseVerdict>)
    ensures service(VendorStateOf(h, fs, cwd, packages)).verdicts.None? ==> verdictsByPackageVer == map[]
    ensures verdictsByPackageVer == IndexOf(service(VendorStateOf(h, fs, cwd, packages)))
  {
    var state := GetVendorState(h, fs, cwd, packages);
    assert state == VendorStateOf(h, fs, cwd, packages);
    var result := service(state);
    if result.verdicts.None? {
      return map[];
    }
    var entries := result.verdicts.value;
    verdictsByPackageVer := map[];
    for i := 0 to |entries|
      invariant verdictsByPackageVer == Index(entries[..i])
    {
      assert entries[..i + 1][..i] == entries[..i];
      var verdict := entries[i];
      verdictsByPackageVer := verdictsByPackageVer[Key(verdict) := verdict];
    }
    assert entries[..|entries|] == entries;
  }

  /** The index holds exactly the keys of the entries, and under each key the
      last entry that carries it. */
  lemma {:induction false} IndexLastWins(entries: seq<ResponseVerdict>, k: string)
    ensures k in Index(entries) <==> exists i :: 0 <= i < |entries| && Key(entries[i]) == k
    ensures k in Index(entries) ==>
      exists i :: 0 <= i < |entries| && Key(entries[i]) == k && Index(entries)[k] == entries[i] &&
        forall j :: i < j < |entries| ==> Key(entries[j]) != k
  {
    if entries != [] {
      var init := entries[..|entries| - 1];
      var last := entries[|entries| - 1];
      IndexLastWins(init, k);
      if Key(last) != k {
        if exists i :: 0 <= i < |entries| && Key(entries[i]) == k {
          var i :| 0 <= i < |entries| && Key(entries[i]) == k;
          assert init[i] == entries[i];
        }
        if k in Index(init) {
          var i :| 0 <= i < |init| && Key(init[i]) == k && Index(init)[k] == init[i]
            && forall j :: i < j < |init| ==> Key(init[j]) != k;
          assert entries[i] == init[i];
          assert forall j :: i < j < |entries| ==> Key(entries[j]) != k by {
            forall j | i < j < |entries| ensures Key(entries[j]) != k {
              if j < |init| { assert entries[j] == init[j]; }
            }
          }
        }
      }
    }
  }

  /** Indexing `a` then `b` is `b`'s index laid over `a`'s. */
  lemma {:induction false} IndexAppend(a: seq<ResponseVerdict>, b: seq<ResponseVerdict>)
    ensures Index(a + b) == Index(a) + Index(b)
  {
    if b == [] {
      assert a + b == a;
    } else {
      assert (a + b)[..|a + b| - 1] == a + b[..|b| - 1];
      IndexAppend(a, b[..|b| - 1]);
    }
  }

  // ---------------------------------------------------------------------
  // Reconciliation

  /** The verdict of one package: its name, version, data and id, and the
      indexed `incidence_perc` and `verdict`, each defaulting on its own to
      `-` and `unknown`. */
  function VerdictFor(p: LocalPackage, index: map<string, ResponseVerdict>): (v: PackageVerdict)
    ensures v.name == p.name && v.version == p.version && v.checksum == p.data && v.id == p.id
  {
    PackageVerdict(
      p.name, p.version, p.data, p.id,
      if p.id in index then index[p.id].incidencePerc.GetOr("-") else "-",
      if p.id in index then index[p.id].verdict.GetOr("unknown") else "unknown")
  }

  /** `getPackageVerdicts`: exactly one verdict per local-repository package,
      in repository order, reconciled against the index of the answer the
      service gives to the payload of those packages. */
  method GetPackageVerdicts(h: HashFn, fs: Fs, cwd: string, vendorDir: string, repo: seq<RepoPackage>, service: Service)
    returns (packageVerdicts: seq<PackageVerdict>)
    ensures |packageVerdicts| == |repo|
    ensures forall i :: 0 <= i < |repo| ==>
      var p := LocalPackageOf(h, fs, vendorDir, repo[i]);
      var local := seq(|repo|, j requires 0 <= j < |repo| => LocalPackageOf(h, fs, vendorDir, repo[j]));
      packageVerdicts[i] == VerdictFor(p, IndexOf(service(VendorStateOf(h, fs, cwd, local))))
  {
    var packages := GetPackages(h, fs, vendorDir, repo);
    ghost var local := seq(|repo|, j requires 0 <= j < |repo| => LocalPackageOf(h, fs, vendorDir, repo[j]));
    assert packages == local;
    var verdicts := SubmitPackages(h, fs, cwd, service, packages);
    packageVerdicts := [];
    for i := 0 to |packages|
      invariant |packageVerdicts| == i
      invariant forall j :: 0 <= j < i ==> packageVerdicts[j] == VerdictFor(packages[j], verdicts)
    {
      var package := packages[i];
      var percentage := if package.id in verdicts then verdicts[package.id].incidencePerc.GetOr("-") else "-";
      var verdict := if package.id in verdicts then verdicts[package.id].verdict.GetOr("unknown") else "unknown";
      packageVerdicts := packageVerdicts + [PackageVerdict(package.name, package.version, package.data, package.id, percentage, verdict)];
    }
  }

  /** A package the service says nothing about is `unknown` with percentage
      `-`; otherwise each field comes from the last entry for its id. */
  lemma {:induction false} VerdictDefaults(p: LocalPackage, entries: seq<ResponseVerdict>)
    ensures (forall i :: 0 <= i < |entries| ==> Key(entries[i]) != p.id) ==>
      VerdictFor(p, Index(entries)).verdict == "unknown" && VerdictFor(p, Index(entries)).percentage == "-"
    ensures forall i :: 0 <= i < |entries| ==>
      (Key(entries[i]) == p.id && (forall j :: i < j < |entries| ==> Key(entries[j]) != p.id) ==>
      VerdictFor(p, Index(entries)).verdict == entries[i].verdict.GetOr("unknown")
      && VerdictFor(p, Index(entries)).percentage == entries[i].incidencePerc.GetOr("-"))
  {
    IndexLastWins(entries, p.id);
    if p.id in Index(entries) {
      var i :| 0 <= i < |entries| && Key(entries[i]) == p.id && Index(entries)[p.id] == entries[i]
        && forall j :: i < j < |entries| ==> Key(entries[j]) != p.id;
      forall i' | 0 <= i' < |entries| && Key(entries[i']) == p.id
        && (forall j :: i' < j < |entries| ==> Key(entries[j]) != p.id)
        ensures i' == i
      {
      }
    }
  }

  /** Response entries whose `pkg_ver` is no local package's id change no
      verdict, wherever they stand in the answer. */
  lemma ForeignEntriesIgnored(packages: seq<LocalPackage>, a: seq<ResponseVerdict>, extra: seq<ResponseVerdict>, b: seq<ResponseVerdict>)
    requires forall e, p :: e in extra && p in packages ==> Key(e) != p.id
    ensures forall p :: p in packages ==> VerdictFor(p, Index(a + extra + b)) == VerdictFor(p, Index(a + b))
  {
    IndexAppend(a + extra, b);
    IndexAppend(a, extra);
    IndexAppend(a, b);
    forall p | p in packages ensures VerdictFor(p, Index(a + extra + b)) == VerdictFor(p, Index(a + b)) {
      IndexLastWins(extra, p.id);
    }
  }
}
