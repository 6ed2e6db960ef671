/** Package discovery from the running Composer instance
    (src/PackageResolver/ComposerStrategy.php). */
module ComposerStrategy {
  import opened Php
  import opened Seqs
  import opened Domain

  /** The part of Composer's configuration the strategy reads. */
  datatype ComposerConfig = ComposerConfig(vendorDir: string)

  /** The filter of the loop; the `dev-` test is on the normalized version. */
  predicate Keep(p: RepoPackage) {
    p.kind != "metapackage" && !StartsWith(p.version, "dev-")
  }

  /** A kept package is reported with its pretty version. */
  function ToPackage(p: RepoPackage): Package {
    Package(p.name, p.prettyVersion)
  }

  /** `resolvePackages` over the local repository's package list. */
  method ResolvePackages(localRepository: seq<RepoPackage>) returns (packages: seq<Package>)
    ensures packages == FilterMap(localRepository, Keep, ToPackage)
  {
    packages := [];
    for i := 0 to |localRepository|
      invariant packages == FilterMap(localRepository[..i], Keep, ToPackage)
    {
      assert localRepository[..i + 1][..i] == localRepository[..i];
      var package := localRepository[i];
      if package.kind == "metapackage" {
        continue;
      }
      if StartsWith(package.version, "dev-") {
        continue;
      }
      packages := packages + [Package(package.name, package.prettyVersion)];
    }
    assert localRepository[..|localRepository|] == localRepository;
  }

  /** `resolveVendorPath`: the configured `vendor-dir`, as Composer resolved it. */
  function ResolveVendorPath(config: ComposerConfig): (r: string)
    ensures r == config.vendorDir
  {
    config.vendorDir
  }

  /** Exactly the repository packages that are not metapackages and whose
      normalized version does not start with `dev-`, in repository order,
      each as its name and pretty version. */
  lemma {:induction false} ResolvedPackages(repo: seq<RepoPackage>)
    ensures |FilterMap(repo, Keep, ToPackage)| == |KeptIndices(repo, Keep)|
    ensures forall j :: 0 <= j < |KeptIndices(repo, Keep)| ==>
      var p := repo[KeptIndices(repo, Keep)[j]];
      p.kind != "metapackage" && !StartsWith(p.version, "dev-") &&
      FilterMap(repo, Keep, ToPackage)[j] == Package(p.name, p.prettyVersion)
    ensures forall i :: 0 <= i < |repo| ==>
      (repo[i].kind != "metapackage" && !StartsWith(repo[i].version, "dev-") ==> i in KeptIndices(repo, Keep))
  {
    FilterMapIsKeptSubsequence(repo, Keep, ToPackage);
  }

  /** A package whose pretty version starts with `dev-` is still kept when its
      normalized version does not, and keeps its pretty version. */
  lemma PrettyVersionIsNotTested(name: string, version: string, pretty: string)
    requires !StartsWith(version, "dev-") && StartsWith(pretty, "dev-")
    ensures FilterMap([RepoPackage(name, "library", version, pretty)], Keep, ToPackage) == [Package(name, pretty)]
  {
    assert [RepoPackage(name, "library", version, pretty)][..0] == [];
  }
}
