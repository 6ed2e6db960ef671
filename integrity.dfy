/** The older pipeline of src/Integrity.php. The file walk, the data hash and
    the id hash are the ones of src/Hasher.php, and the package list is the
    one of src/PackageSubmitter.php, so this module reuses them. It differs
    in the client string of the install hash, in the shape of the answer (a
    flat map keyed by package id) and in the five-field verdict. */
module Integrity {
  import opened Php
  import opened Domain
  import opened Hasher
  import PackageSubmitter

  const LegacyClientName: string := "integrity-plugin"

  /** One value of the decoded answer, keyed by package id; absent or null
      fields are None. */
  datatype FlatEntry = FlatEntry(percentage: Option<string>, verdict: Option<string>)

  /** The decoded answer: package id to entry. A body that does not decode is
      the empty map, since indexing null gives null as well. */
  type FlatResponse = map<string, FlatEntry>

  /** The service behind the POST. */
  type FlatService = PackageSubmitter.VendorState -> FlatResponse

  /** The five-field verdict constructed by `getPackageVerdicts`. */
  datatype Verdict = Verdict(name: string, version: string, checksum: string, percentage: string, verdict: string)

  /** `getInstallIdHash`: composer.json, composer.lock, then `integrity-plugin`. */
  method GetInstallIdHash(h: HashFn, fs: Fs, baseDir: string) returns (r: string)
    ensures r == Upper(h(ReadFile(fs, Join(baseDir, "composer.json")) + ReadFile(fs, Join(baseDir, "composer.lock")) + "integrity-plugin"))
  {
    r := GenerateInstallIdHashFor(h, fs, baseDir, LegacyClientName);
  }

  /** The two clients hash different inputs for the same installation: the
      older input is the newer one with its last nine characters missing. */
  lemma ClientsHashDifferentInputs(fs: Fs, baseDir: string)
    ensures InstallInput(fs, baseDir, LegacyClientName) != InstallInput(fs, baseDir, ClientName)
    ensures |InstallInput(fs, baseDir, ClientName)| == |InstallInput(fs, baseDir, LegacyClientName)| + 9
  {
  }

  function VendorStateOf(h: HashFn, fs: Fs, cwd: string, packages: seq<PackageSubmitter.LocalPackage>): PackageSubmitter.VendorState {
    PackageSubmitter.VendorState(InstallIdHash(h, fs, cwd, LegacyClientName), 0, 1, PackageSubmitter.Project(packages))
  }

  /** `getVendorState`, with `getcwd()` as the parameter `cwd`. */
  method GetVendorState(h: HashFn, fs: Fs, cwd: string, packages: seq<PackageSubmitter.LocalPackage>)
    returns (state: PackageSubmitter.VendorState)
    ensures state.id == InstallIdHash(h, fs, cwd, "integrity-plugin")
    ensures state.hashType == 0 && state.origin == 1
    ensures |state.pkg| == |packages|
    ensures forall i :: 0 <= i < |packages| ==> state.pkg[i] == PackageSubmitter.PkgRef(packages[i].id, packages[i].data)
  {
    var id := GetInstallIdHash(h, fs, cwd);
    state := PackageSubmitter.VendorState(id, 0, 1, PackageSubmitter.Project(packages));
  }

  /** The verdict of one package: the answer's `percentage` and `verdict`
      under its id, each defaulting on its own to `-` and `unknown`. */
  function VerdictFor(p: PackageSubmitter.LocalPackage, verdicts: FlatResponse): (v: Verdict)
    ensures v.name == p.name && v.version == p.version && v.checksum == p.data
    ensures p.id !in verdicts ==> v.percentage == "-" && v.verdict == "unknown"
    ensures p.id in verdicts ==>
      v.percentage == verdicts[p.id].percentage.GetOr("-") && v.verdict == verdicts[p.id].verdict.GetOr("unknown")
  {
    var percentage := if p.id in verdicts then verdicts[p.id].percentage.GetOr("-") else "-";
    var verdict := if p.id in verdicts then verdicts[p.id].verdict.GetOr("unknown") else "unknown";
    Verdict(p.name, p.version, p.data, percentage, verdict)
  }

  /** The packages of the local repository as `getPackages` records them. */
  function LocalPackages(h: HashFn, fs: Fs, vendorDir: string, repo: seq<RepoPackage>): (r: seq<PackageSubmitter.LocalPackage>)
    ensures |r| == |repo|
    ensures forall i :: 0 <= i < |repo| ==> r[i] == PackageSubmitter.LocalPackageOf(h, fs, vendorDir, repo[i])
  {
    seq(|repo|, j requires 0 <= j < |repo| => PackageSubmitter.LocalPackageOf(h, fs, vendorDir, repo[j]))
  }

  /** The service's answer to the payload built from the whole repository. */
  function Answer(h: HashFn, fs: Fs, cwd: string, vendorDir: string, repo: seq<RepoPackage>, service: FlatService): FlatResponse {
    service(VendorStateOf(h, fs, cwd, LocalPackages(h, fs, vendorDir, repo)))
  }

  /** `getPackageVerdicts`: one verdict per local-repository package, with no
      filtering, in repository order, holding the package's name, pretty
      version and data hash and the answer's fields for its id. */
  method GetPackageVerdicts(h: HashFn, fs: Fs, cwd: string, vendorDir: string, repo: seq<RepoPackage>, service: FlatService)
    returns (packageVerdicts: seq<Verdict>)
    ensures |packageVerdicts| == |repo|
    ensures forall i :: 0 <= i < |repo| ==>
      packageVerdicts[i].name == repo[i].name && packageVerdicts[i].version == repo[i].prettyVersion &&
      packageVerdicts[i].checksum == PackageDataHash(h, fs, Join(vendorDir, repo[i].name))
    ensures forall i :: 0 <= i < |repo| ==>
      packageVerdicts[i] == VerdictFor(PackageSubmitter.LocalPackageOf(h, fs, vendorDir, repo[i]), Answer(h, fs, cwd, vendorDir, repo, service))
  {
    var packages := PackageSubmitter.GetPackages(h, fs, vendorDir, repo);
    assert packages == LocalPackages(h, fs, vendorDir, repo);
    var vendorState := GetVendorState(h, fs, cwd, packages);
    assert vendorState == VendorStateOf(h, fs, cwd, packages);
    var verdicts := service(vendorState);
    packageVerdicts := [];
    for i := 0 to |packages|
      invariant |packageVerdicts| == i
      invariant forall j :: 0 <= j < i ==> packageVerdicts[j] == VerdictFor(packages[j], verdicts)
    {
      var package := packages[i];
      var percentage := if package.id in verdicts then verdicts[package.id].percentage.GetOr("-") else "-";
      var verdict := if package.id in verdicts then verdicts[package.id].verdict.GetOr("unknown") else "unknown";
      packageVerdicts := packageVerdicts + [Verdict(package.name, package.version, package.data, percentage, verdict)];
    }
  }
}
