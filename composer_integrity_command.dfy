/** The Composer command's patch enrichment
    (src/ComposerIntegrityCommand.php): a memoised patch detector, and a
    `Patched` column with its enricher only when a patch plugin is present. */
module ComposerIntegrityCommand {
  import opened Php
  import opened Domain
  import opened VerdictRenderer
  import opened PatchDetector

  /** The anonymous enricher's `enrich`: one key, `patch_applied`, true
      exactly when the verdict's package is among the patched ones; a
      boolean for JSON, `Yes`/`No` for the table. */
  function Enrich(json: bool, patchedPackages: seq<string>, v: PackageVerdict): (r: Row)
    ensures Keys(r) == ["patch_applied"]
    ensures json ==> (r[0].1 == Flag(true) <==> v.name in patchedPackages) && r[0].1.Flag?
    ensures !json ==> (r[0].1 == Text("Yes") <==> v.name in patchedPackages) && r[0].1 in {Text("Yes"), Text("No")}
  {
    var patchApplied := v.name in patchedPackages;
    [("patch_applied", if json then Flag(patchApplied) else Text(if patchApplied then "Yes" else "No"))]
  }

  /** The option building of `getRendererOptions`, given the parent's options
      and what the detector answers. */
  function PatchOptions(parent: RendererOptions, hasPatchPlugin: bool, patchedPackages: seq<string>): (r: RendererOptions)
    ensures !hasPatchPlugin ==> r == parent
    ensures hasPatchPlugin ==>
      r.json == parent.json && r.additionalColumns == ["Patched"] && r.verdictEnricher.Some? &&
      forall v :: r.verdictEnricher.value(v) == Enrich(parent.json, patchedPackages, v)
  {
    if !hasPatchPlugin then parent
    else parent.(additionalColumns := ["Patched"],
                 verdictEnricher := Some(v => Enrich(parent.json, patchedPackages, v)))
  }

  /** With a patch plugin, the table gains the `Patched` header and every row
      ends with its `patch_applied` cell after the six base cells. */
  lemma PatchedRendering(parent: RendererOptions, patchedPackages: seq<string>, v: PackageVerdict)
    ensures GetColumns(PatchOptions(parent, true, patchedPackages).additionalColumns)
      == ["Status", "Package", "Version", "Package ID", "Checksum", "Percentage", "Patched"]
    ensures RowFromVerdict(PatchOptions(parent, true, patchedPackages), v)
      == BaseRow(parent.json, v) + Enrich(parent.json, patchedPackages, v)
  {
    var extra := Enrich(parent.json, patchedPackages, v);
    assert Keys(BaseRow(parent.json, v)) == BaseKeys;
    MergeAppendsNewKeys(BaseRow(parent.json, v), extra);
  }

  /** The command. `installed` and `query` are what the container hands the
      detector it builds; `patchDetector` is the lazily filled field. */
  class ComposerIntegrityCommand {
    const installed: seq<string>
    const query: Query
    var patchDetector: PatchDetector?

    ghost predicate Valid()
      reads this
    {
      patchDetector != null ==> patchDetector.installed == installed && patchDetector.query == query
    }

    constructor (installed: seq<string>, query: Query)
      ensures Valid() && patchDetector == null
      ensures this.installed == installed && this.query == query
    {
      this.installed := installed;
      this.query := query;
      patchDetector := null;
    }

    /** `getPatchDetector`: builds the detector on the first call only; every
      later call returns that same object. */
    method GetPatchDetector() returns (d: PatchDetector)
      requires Valid()
      modifies this`patchDetector
      ensures Valid() && patchDetector == d
      ensures old(patchDetector) != null ==> d == old(patchDetector)
      ensures old(patchDetector) == null ==> fresh(d)
      ensures d.installed == installed && d.query == query
    {
      if patchDetector == null {
        patchDetector := new PatchDetector(installed, query);
      }
      return patchDetector;
    }

    /** `getRendererOptions`, with the parent's options as a parameter. */
    method GetRendererOptions(parentOptions: RendererOptions) returns (options: RendererOptions)
      requires Valid()
      modifies this`patchDetector
      ensures Valid() && patchDetector != null
      ensures old(patchDetector) != null ==> patchDetector == old(patchDetector)
      ensures options == PatchOptions(parentOptions,
                                      GetPatchPlugin(installed).Some?,
                                      PatchedPackages(installed, query))
    {
      options := parentOptions;
      var detector := GetPatchDetector();
      if !detector.HasPatchPlugin() {
        return options;
      }
      options := options.(additionalColumns := ["Patched"]);
      var detector' := GetPatchDetector();
      var json := options.json;
      var patchedPackages := detector'.GetPatchedPackages();
      options := options.(verdictEnricher := Some(v => Enrich(json, patchedPackages, v)));
    }
  }
}
