/** The value types the pipeline passes between its stages. */
module Domain {

  /** An installed package as a resolver strategy reports it. */
  datatype Package = Package(name: string, version: string)

  /** What the plugin reads of a package in Composer's local repository:
      `getName`, `getType`, `getVersion` (normalized) and `getPrettyVersion`. */
  datatype RepoPackage = RepoPackage(name: string, kind: string, version: string, prettyVersion: string)

  /** The unit the renderer shows: a package, its two hashes and the service's
      opinion of it. `checksum` is the data hash, `id` the id hash. */
  datatype PackageVerdict = PackageVerdict(
    name: string,
    version: string,
    checksum: string,
    id: string,
    percentage: string,
    verdict: string)
}
