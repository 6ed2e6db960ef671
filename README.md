# composer-integrity-plugin, modelled in Dafny

This project models the verification pipeline of the Composer integrity
plugin. The plugin fingerprints every installed package and sends the
fingerprints to a remote service. It then reconciles the service's verdicts
with the local packages and renders one row per package, optionally with a
`Patched` column when a patch plugin is installed.

The model follows the source file by file:

- `php.dfy` (`Php`): the PHP built-ins the code relies on. These are `??`,
  `implode` with the separator, `strpos(...) === 0`, `strtolower`,
  `strtoupper` and `pathinfo(..., PATHINFO_EXTENSION)`.
- `seqs.dfy` (`Seqs`): the filtering loop that both resolver strategies run,
  as a specification function, with its subsequence properties.
- `domain.dfy` (`Domain`): the values passed between stages (`Package`, the
  local-repository package, the six-field `PackageVerdict`).
- `hasher.dfy` (`Hasher`): src/Hasher.php.
  - The filesystem is a tree (`Dir` entries in `scandir` order, `File`
    bytes, `Link`).
  - The walk is a recursive method proved equal to a specification function.
  - The streaming `xxh64` context is a class that accumulates its input.
  - The hash itself is an arbitrary function parameter.
- `hasher_props.dfy` (`HasherProps`): what the walk and the hashes promise.
  This covers exact file selection, path prefixes, splicing of
  subdirectories and blindness to file boundaries. It also shows that
  pruning everything unselected leaves the hash unchanged.
- `lock_reader_strategy.dfy`, `composer_strategy.dfy`: the two package
  resolver strategies.
- `package_submitter.dfy` (`PackageSubmitter`): the package records, the
  payload, the `pkg_ver` index of the answer and the reconciliation.
- `verdict_renderer.dfy` (`VerdictRenderer`): columns, percentage text,
  status cell, and `array_merge` of enricher columns into a row.
- `patch_detector.dfy` (`PatchDetector`): first-match search against the
  two-entry handler registry. Handlers are an abstract `Query`.
- `composer_integrity_command.dfy` (`ComposerIntegrityCommand`): the
  memoised detector field, the renderer options and the `patch_applied`
  enricher.
- `integrity.dfy` (`Integrity`) and `command.dfy` (`Command`): the two older
  pipelines.
  - Their `getPackageFiles`, `getPackageDataHash` and `getPackageIdHash`
    are textually the same as in src/Hasher.php, so they reuse
    `Hasher.GetPackageFiles`, `Hasher.GeneratePackageDataHash` and
    `Hasher.GeneratePackageIdHash`.
  - Their `getPackages`, with no filter, is `PackageSubmitter.GetPackages`.
  - They differ from the newer pipeline in three ways:
    - the install-hash client string is `integrity-plugin`;
    - the answer is a flat map keyed by package id;
    - Command.php uses its own `good`/`bad` glyph table.

Inputs from outside are parameters:

| Input | Parameter |
|---|---|
| xxh64 with hex encoding | `h` |
| filesystem | `fs` |
| `getcwd()` | `cwd` |
| vendor directory | `vendorDir` |
| local repository | `repo` |
| POST together with `json_decode` | `service` |
| `json_decode` of the lock file | `decode` |
| patch handlers' answers | `query` |
| parent command's renderer options | `parentOptions` |

The model follows the code in a few places where one might expect
otherwise:

- A lock file that does not decode yields no packages, not an error
  (`null['packages'] ?? []` is `[]`).
- No command filters out matching packages; every package gets a row.
- Exit codes do not depend on verdicts: Command.php always returns SUCCESS.
- Only the Vaimo handler catches anything: it turns an exception of its
  `patch:list` run into `[]` (src/PatchPlugin/Vaimo.php:24-29). Cweagans,
  PatchDetector.php and ComposerIntegrityCommand.php catch nothing. The
  parameter `query` stands for whatever the handler returns.

## Model

| member | source | states |
|---|---|---|
| Php.Lower | src/Hasher.php:31 | `strtolower` keeps the length and maps each ASCII capital to its lower-case letter, every other byte to itself |
| Php.Upper | src/Hasher.php:45 | `strtoupper` keeps the length and maps each ASCII lower-case letter to its capital |
| Php.ExtensionAfterLastDot | src/Hasher.php:31 | `Extension`, the `pathinfo` extension of an entry name, holds no dot, is empty for a name without a dot, and otherwise is exactly what follows the name's last dot |
| Php.JoinSplitsAtLastSeparator | src/Hasher.php:59-60 | `Join`, `implode(DIRECTORY_SEPARATOR, [a, b])`, is `a`, the separator, then `b`; when `b` holds no separator, that separator is the last one and splits the result back into `a` and `b` |
| Php.StartsWithMeansPrefix | src/PackageResolver/LockReaderStrategy.php:35 | `StartsWith`, `strpos(s, p) === 0`, holds exactly when `s` is `p` followed by the rest of `s`, and holds for `p` followed by anything |
| Seqs.FilterMapIsKeptSubsequence | src/PackageResolver/LockReaderStrategy.php:29-42 | the filtering loop's output is element by element the image of the kept elements at ascending indices |
| Seqs.FilterMapMembers | src/PackageResolver/ComposerStrategy.php:17-29 | a value is in the output iff it is the image of some kept element |
| Hasher.HashContext.Update | src/Hasher.php:43 | `hash_update` appends its data to the context's input |
| Hasher.HashContext.constructor | src/Hasher.php:41 | `hash_init` gives a context with the chosen algorithm and no input yet |
| Hasher.HashContext.Final | src/Hasher.php:45 | `hash_final` is the algorithm applied to everything fed since `hash_init`, in order |
| Hasher.GetPackageFiles | src/Hasher.php:16-37 | the recursive walk returns exactly the specification listing of the directory, in visiting order; a non-directory gives no files |
| Hasher.GeneratePackageDataHash | src/Hasher.php:39-46 | the data hash is the upper-cased hash of the selected files' contents concatenated in listing order |
| Hasher.GeneratePackageIdHash | src/Hasher.php:48-54 | the id hash is the upper-cased hash of name followed by version |
| Hasher.GenerateInstallIdHashFor | src/Hasher.php:56-63 | the install hash covers composer.json, then composer.lock, then the client string; a missing file contributes nothing |
| Hasher.GenerateInstallIdHash | src/Hasher.php:14-63 | the install hash uses the client string `composer-integrity-plugin` |
| HasherProps.DirFilesSelectExactly | src/Hasher.php:21-33 | a file is selected from the first k entries iff it is reached through one of them |
| HasherProps.EntryFilesSelectExactly | src/Hasher.php:21-33 | an entry contributes a file iff it is not `.`/`..`, not a link, and is either a hashed file or a directory the file is reached from |
| HasherProps.ListingSelectsExactly | src/Hasher.php:16-37 | a file is returned iff it is reached through entries other than `.`/`..` and links, ending in a regular file with one of the four extensions |
| HasherProps.DirFilesUnderDir | src/Hasher.php:26 | every file selected from a directory's entries has a path starting with the directory and the separator |
| HasherProps.EntryFilesUnderDir | src/Hasher.php:26 | every file one entry contributes lies under the directory |
| HasherProps.ListingUnderDir | src/Hasher.php:26 | every returned path begins with the walked directory followed by the separator |
| HasherProps.DirFilesOfPrefix | src/Hasher.php:21 | the files of the first k entries depend only on those entries |
| HasherProps.DirFilesSplit | src/Hasher.php:21-34 | the files of a directory whose entries are `a`'s then `b`'s are `a`'s files followed by those of `b`'s entries so far |
| HasherProps.ListingAppend | src/Hasher.php:19-34 | listing entries `a` then `b` gives `a`'s files followed by `b`'s, each subdirectory spliced in at its own position |
| HasherProps.ConcatAppend | src/Hasher.php:42-44 | the concatenated input of two file lists is the concatenation of their inputs |
| HasherProps.DataInputAppend | src/Hasher.php:39-46 | the hashed input of a split directory is the two parts' inputs joined |
| HasherProps.NothingSelectedHashesEmpty | src/Hasher.php:39-46 | a directory with only `.`/`..`, links and unhashed files has the data hash of the empty input |
| HasherProps.ConcatOfTwo | src/Hasher.php:42-44 | two files feed their contents in order |
| HasherProps.SameInputInContext | src/Hasher.php:42-44 | replacing a run of files by one with the same concatenated contents leaves the hashed input unchanged, wherever the run stands |
| HasherProps.FileBoundariesInvisible | src/Hasher.php:39-46 | moving bytes from the end of one selected file to the start of the next, anywhere in the listing, leaves the hashed input and so the data hash unchanged |
| HasherProps.IdHashSeesConcatenation | src/Hasher.php:48-54 | two name/version pairs with the same concatenation get the same id |
| HasherProps.PruneDir | src/Hasher.php:21-33 | pruning keeps only entries the walk can select |
| HasherProps.PruneEntry | src/Hasher.php:21-33 | a pruned entry is selectable |
| HasherProps.PruneDirKeepsFiles | src/Hasher.php:19-34 | the pruned entries list the same files as the original ones |
| HasherProps.PruneEntryKeepsFiles | src/Hasher.php:21-33 | a pruned entry contributes the same files as the original |
| HasherProps.PruningPreservesDataHash | src/Hasher.php:19-46 | removing dot entries, links and unhashed files at any depth changes neither the file list nor the data hash |
| LockReaderStrategy.ResolveVendorPath | src/PackageResolver/LockReaderStrategy.php:15-18 | the vendor path is the root, the separator, then `vendor`, and that separator is the last one |
| LockReaderStrategy.ResolvePackages | src/PackageResolver/LockReaderStrategy.php:20-43 | a missing lock file is the error; otherwise the kept entries of `packages` (none when absent), in order, as name and version |
| LockReaderStrategy.ResolvedPackages | src/PackageResolver/LockReaderStrategy.php:29-42 | exactly the entries that are not metapackages and have no `dev-` version prefix, in order, each as name and version |
| ComposerStrategy.ResolvePackages | src/PackageResolver/ComposerStrategy.php:15-30 | the loop returns the filtered repository list |
| ComposerStrategy.ResolveVendorPath | src/PackageResolver/ComposerStrategy.php:32-35 | the vendor path is the configured `vendor-dir` |
| ComposerStrategy.ResolvedPackages | src/PackageResolver/ComposerStrategy.php:17-29 | exactly the non-metapackages whose normalized version has no `dev-` prefix, in order, each with its pretty version |
| ComposerStrategy.PrettyVersionIsNotTested | src/PackageResolver/ComposerStrategy.php:23-27 | a `dev-` pretty version does not exclude a package whose normalized version is not `dev-` |
| PackageSubmitter.GetPackages | src/PackageSubmitter.php:24-38 | one record per repository package, in order, with its name, pretty version, id hash, and the data hash of vendor dir, separator, name |
| PackageSubmitter.Project | src/PackageSubmitter.php:46-52 | the payload list keeps length and order and carries each package's id and data |
| PackageSubmitter.GetVendorState | src/PackageSubmitter.php:40-54 | the payload has the install hash of the working directory, `hash_type` 0, `origin` 1 and the order-preserving `{id, data}` projection |
| PackageSubmitter.PayloadWithholdsNames | src/PackageSubmitter.php:46-52 | package lists agreeing on their hashes give the same payload, so names and versions are not sent |
| PackageSubmitter.SubmitPackages | src/PackageSubmitter.php:56-73 | the result is the index of the answer to this payload; an answer without `verdicts` gives the empty index |
| PackageSubmitter.IndexLastWins | src/PackageSubmitter.php:68-71 | `Index`, the dictionary the `foreach` fills, has exactly the entries' keys, each mapped to the last entry carrying it |
| PackageSubmitter.IndexAppend | src/PackageSubmitter.php:68-71 | indexing two lists in turn lays the second's index over the first's |
| PackageSubmitter.IndexOfLastWins | src/PackageSubmitter.php:64-72 | `IndexOf`, the index of a decoded answer, has a key iff the answer has `verdicts` with an entry under that key, and then holds the last such entry |
| PackageSubmitter.VerdictFor | src/PackageSubmitter.php:82-89 | a verdict carries the package's name, version, data hash and id |
| PackageSubmitter.GetPackageVerdicts | src/PackageSubmitter.php:75-92 | exactly one verdict per repository package, in order, reconciled against the index of the answer to those packages' payload |
| PackageSubmitter.VerdictDefaults | src/PackageSubmitter.php:87-88 | an id absent from the answer gives `unknown` and `-`; otherwise verdict and percentage come from the last entry for it, each defaulting on its own |
| PackageSubmitter.ForeignEntriesIgnored | src/PackageSubmitter.php:68-88 | answer entries whose `pkg_ver` is no local id change no verdict, wherever they stand in `verdicts` |
| VerdictRenderer.LookupPut | src/VerdictRenderer.php:64 | after `Put`, the assignment `$row[k] = c`, key k reads c and every other key reads as before |
| VerdictRenderer.KeysPut | src/VerdictRenderer.php:64 | `Put` assigning a key keeps the key order, appending the key when it is new |
| VerdictRenderer.MergeSemantics | src/VerdictRenderer.php:63-65 | `ArrayMerge`, `array_merge`, gives the base keys in order, then the new keys of the extra row in its order, each once, and nothing else; the extra row wins on shared keys and every other cell is kept |
| VerdictRenderer.MergeKeys | src/VerdictRenderer.php:64 | the keys of `ArrayMerge` are exactly the base keys followed by the extra row's keys that are not base keys, in the extra row's order |
| VerdictRenderer.MergeKeepsDistinct | src/VerdictRenderer.php:64 | merging into a row with distinct keys leaves every key once |
| VerdictRenderer.MergeLookup | src/VerdictRenderer.php:64 | after `ArrayMerge` a key is present iff it is in either row, and reads the extra row's cell if it has one, else the base cell |
| VerdictRenderer.KeysNotInMembers | src/VerdictRenderer.php:64 | the appended keys are exactly the extra row's keys that are not base keys |
| VerdictRenderer.PutKeepsDistinct | src/VerdictRenderer.php:64 | assigning a key into a row with distinct keys keeps them distinct |
| VerdictRenderer.LookupDistinct | src/VerdictRenderer.php:54-61 | in a row with distinct keys, each key reads its own cell |
| VerdictRenderer.MergeAppendsNewKeys | src/VerdictRenderer.php:64 | merging a row with only new keys appends it unchanged |
| VerdictRenderer.PutNewKeyAppends | src/VerdictRenderer.php:64 | assigning a new key appends it at the end |
| VerdictRenderer.GetColumns | src/VerdictRenderer.php:24-40 | the six base headers in fixed order, then the additional columns in their order |
| VerdictRenderer.GetPercentage | src/VerdictRenderer.php:42-49 | `-` iff the verdict is `unknown`, otherwise the percentage followed by `%` |
| VerdictRenderer.Status | src/VerdictRenderer.php:55 | JSON mode shows the raw verdict; table mode shows the glyph of `unknown`, `match` or `mismatch`, and null for any other verdict |
| VerdictRenderer.BaseRow | src/VerdictRenderer.php:54-61 | the literal row has the six distinct keys `status`, `package`, `version`, `package_id`, `checksum`, `percentage` in that order, each reading its own cell: status cell, name, version, id, checksum, and the float cast or `getPercentage` text |
| VerdictRenderer.GetRowsFromVerdicts | src/VerdictRenderer.php:51-68 | exactly one row per verdict, in input order |
| VerdictRenderer.RowWithoutEnricher | src/VerdictRenderer.php:53-68 | without an enricher the closure (`RowFromVerdict`) returns the base row: exactly the six base keys in order, with package, version, id and checksum copied verbatim |
| VerdictRenderer.RowWithEnricher | src/VerdictRenderer.php:53-68 | with an enricher the closure (`RowFromVerdict`) gives the six base keys in order, then the enricher's new keys in its order, each once, and nothing else; an enriched key overrides a base key of the same name |
| PatchDetector.GetPatchPlugin | src/PatchDetector.php:25-40 | no handler iff no installed name is a registry key; otherwise the handler of the first such name in repository order |
| PatchDetector.PatchedPackages | src/PatchDetector.php:42-46 | `[]` when no name is a key; otherwise the first matching name's handler's list |
| PatchDetector.OtherNamesIgnored | src/PatchDetector.php:29 | inserting a name that is not a key anywhere in the installed list changes nothing |
| PatchDetector.RegistryKeys | src/PatchDetector.php:13-16 | the registry maps exactly the vaimo and cweagans packages to their handlers |
| PatchDetector.RepositoryOrderWins | src/PatchDetector.php:28-37 | with both plugins installed, the one earlier in the repository is chosen |
| PatchDetector.PatchDetector.constructor | src/PatchDetector.php:18-23 | the detector keeps its readonly collaborators |
| PatchDetector.PatchDetector.HasPatchPlugin | src/PatchDetector.php:48-51 | true iff some installed package name is a registry key |
| PatchDetector.PatchDetector.GetPatchedPackages | src/PatchDetector.php:42-46 | `[]` without a plugin, otherwise the selected handler's list |
| ComposerIntegrityCommand.Enrich | src/ComposerIntegrityCommand.php:51-55 | the single key `patch_applied`, holding true (JSON) or `Yes` (table) iff the package name is patched, and otherwise false or `No` |
| ComposerIntegrityCommand.PatchOptions | src/ComposerIntegrityCommand.php:38-45 | without a plugin the parent options unchanged; with one, `additionalColumns` is exactly `['Patched']` and the enricher is `Enrich` for the parent's `json` flag |
| ComposerIntegrityCommand.PatchedRendering | src/ComposerIntegrityCommand.php:44-45 | with a plugin the headers end in `Patched` and each row is the six base cells followed by its `patch_applied` cell |
| ComposerIntegrityCommand.ComposerIntegrityCommand.constructor | src/ComposerIntegrityCommand.php:10-19 | a new command has no detector yet |
| ComposerIntegrityCommand.ComposerIntegrityCommand.GetPatchDetector | src/ComposerIntegrityCommand.php:21-34 | the first call builds a fresh detector and stores it; later calls return that same instance |
| ComposerIntegrityCommand.ComposerIntegrityCommand.GetRendererOptions | src/ComposerIntegrityCommand.php:36-59 | the options are `PatchOptions` for what the detector reports, and the memoised detector is kept |
| Integrity.GetInstallIdHash | src/Integrity.php:73-80 | the older install hash covers composer.json, composer.lock, then `integrity-plugin` |
| Integrity.ClientsHashDifferentInputs | src/Integrity.php:78 | the older and newer install hashes hash different inputs for the same installation |
| Integrity.GetVendorState | src/Integrity.php:98-109 | the older payload has the `integrity-plugin` install hash, `hash_type` 0, `origin` 1 and the `{id, data}` projection |
| Integrity.VerdictFor | src/Integrity.php:121-127 | name, version and data hash copied; percentage and verdict from the flat answer under the id, each defaulting to `-` and `unknown` |
| Integrity.LocalPackages | src/Integrity.php:82-96 | every repository package is recorded, with no filtering, in order |
| Integrity.GetPackageVerdicts | src/Integrity.php:111-130 | one verdict per repository package, in order, with its name, pretty version and data hash, reconciled against the flat answer |
| Command.Glyph | src/Command.php:23-27 | only `unknown`, `good` and `bad` have a glyph, and each has its own |
| Command.RowFor | src/Command.php:137-145 | a row copies name, version and data hash; a missing verdict shows the `unknown` glyph; a missing percentage shows `-` |
| Command.RowIsGlyphOfVerdict | src/Command.php:139-143 | each row is the older verdict with its verdict replaced by its glyph |
| Command.Execute | src/Command.php:128-153 | one five-field row per repository package, in order, and exit code SUCCESS whatever the verdicts |
| Command.NewerVerdictsHaveNoGlyph | src/Command.php:23-27 | `match` and `mismatch` have no glyph in this table |

## Left out

- The xxh64 algorithm and its hex encoding are the parameter `h`: no
  property of the digest beyond being a function is used.
- HTTP and JSON: the Guzzle POST and the decoding of the answer are the
  parameter `service`. Transport failures, which the code does not catch,
  are not modelled.
- Console output: the Symfony table, its column styles and the JSON
  printing (src/VerdictRenderer.php:71-88, src/Command.php:147-150) are
  output plumbing.
- The `(float)` cast of the percentage in JSON mode is the uninterpreted
  cell `AsFloat`.
- The patch handlers Vaimo and Cweagans run other Composer plugins. What
  they report is the parameter `query`.
- The DI container, plugin registration and entry points are wiring. The
  parent `IntegrityCommand::getRendererOptions` is not part of this model,
  so its options are the parameter `parentOptions`.
- `resolveRootPath` of the resolver interface has no implementation in
  either strategy.
- Hasher.GetPackageFiles: reading through links is not modelled. A `Link`
  node records nothing about its target. A failing `scandir` yields no
  files, rather than PHP's warning.
- Hasher.GeneratePackageDataHash: a file that cannot be read contributes
  its recorded content. The read-failure path of `hash_update_file` is not
  modelled.
- Hasher.GenerateInstallIdHashFor: a missing composer.json or composer.lock
  contributes nothing. This is the `false` that `file_get_contents`
  returns, coerced to "".
- VerdictRenderer.MergeSemantics: `array_merge` is modelled for string keys
  only. Numeric-string keys, which PHP renumbers, do not occur in these
  rows.
- LockReaderStrategy.ResolvePackages: loose `==` on `type` is modelled as
  string equality, since the compared value is always a string or null.
- PackageSubmitter.Key: a missing `pkg_ver` is stored under the key "",
  as PHP does for a null key.
- ComposerIntegrityCommand.Enrich: `in_array` uses loose comparison. It is
  modelled as exact membership, since package names are never numeric
  strings.
- LockReaderStrategy.ResolvePackages: every lock entry is assumed to carry
  a string `name` and `version`. In the source an entry without one of them
  reads as null, and `new Package(...)` then aborts with a TypeError, since
  both parameters are typed `string` (src/Package.php:8-9); that error path
  is not modelled.
