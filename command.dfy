/** The oldest pipeline, src/Command.php: the same fingerprints and payload
    as src/Integrity.php, reported as a five-column table whose status column
    uses a `good`/`bad` glyph table. */
module Command {
  import opened Php
  import opened Domain
  import opened Hasher
  import PackageSubmitter
  import Integrity

  /** Symfony's `Command::SUCCESS`. */
  const Success: int := 0

  const VerdictTypes: map<string, string> := map["unknown" := "❔", "good" := "✅", "bad" := "❌"]

  const Columns: seq<string> := ["Status", "Package", "Version", "Checksum", "Percentage"]

  /** One table row; the status is None when the verdict has no glyph (an
      undefined key reads as null). */
  datatype CommandRow = CommandRow(status: Option<string>, name: string, version: string, checksum: string, percentage: string)

  /** The glyph of a verdict: only `unknown`, `good` and `bad` have one. */
  function Glyph(verdict: string): (r: Option<string>)
    ensures r.Some? <==> verdict in {"unknown", "good", "bad"}
    ensures verdict == "unknown" ==> r == Some("❔")
    ensures verdict == "good" ==> r == Some("✅")
    ensures verdict == "bad" ==> r == Some("❌")
  {
    if verdict in VerdictTypes then Some(VerdictTypes[verdict]) else None
  }

  /** The row of one package: the verdict defaults to `unknown` before the
      glyph lookup, and a missing percentage shows as `-`. */
  function RowFor(p: PackageSubmitter.LocalPackage, verdicts: Integrity.FlatResponse): (r: CommandRow)
    ensures r.name == p.name && r.version == p.version && r.checksum == p.data
    ensures (p.id !in verdicts || verdicts[p.id].verdict.None?) ==> r.status == Some("❔")
    ensures p.id in verdicts && verdicts[p.id].verdict.Some? ==> r.status == Glyph(verdicts[p.id].verdict.value)
    ensures (p.id !in verdicts || verdicts[p.id].percentage.None?) ==> r.percentage == "-"
    ensures p.id in verdicts && verdicts[p.id].percentage.Some? ==> r.percentage == verdicts[p.id].percentage.value
  {
    var verdict := if p.id in verdicts then verdicts[p.id].verdict.GetOr("unknown") else "unknown";
    var percentage := if p.id in verdicts then verdicts[p.id].percentage.GetOr("-") else "-";
    CommandRow(Glyph(verdict), p.name, p.version, p.data, percentage)
  }

  /** Each row is the newer five-field verdict with its verdict replaced by
      the glyph: the two reconciliations agree field by field. */
  lemma RowIsGlyphOfVerdict(p: PackageSubmitter.LocalPackage, verdicts: Integrity.FlatResponse)
    ensures var v := Integrity.VerdictFor(p, verdicts);
      RowFor(p, verdicts) == CommandRow(Glyph(v.verdict), v.name, v.version, v.checksum, v.percentage)
  {
  }

  /** `execute`, without the table output: the rows, one per local-repository
      package in order, and the exit code, which is SUCCESS whatever the
      verdicts. */
  method Execute(h: HashFn, fs: Fs, cwd: string, vendorDir: string, repo: seq<RepoPackage>, service: Integrity.FlatService)
    returns (rows: seq<CommandRow>, exitCode: int)
    ensures exitCode == Success
    ensures |rows| == |repo|
    ensures forall i :: 0 <= i < |repo| ==>
      rows[i].name == repo[i].name && rows[i].version == repo[i].prettyVersion &&
      rows[i].checksum == PackageDataHash(h, fs, Join(vendorDir, repo[i].name))
    ensures forall i :: 0 <= i < |repo| ==>
      rows[i] == RowFor(PackageSubmitter.LocalPackageOf(h, fs, vendorDir, repo[i]), Integrity.Answer(h, fs, cwd, vendorDir, repo, service))
  {
    var packages := PackageSubmitter.GetPackages(h, fs, vendorDir, repo);
    assert packages == Integrity.LocalPackages(h, fs, vendorDir, repo);
    var vendorState := Integrity.GetVendorState(h, fs, cwd, packages);
    assert vendorState == Integrity.VendorStateOf(h, fs, cwd, packages);
    var verdicts := service(vendorState);
    rows := [];
    for i := 0 to |packages|
      invariant |rows| == i
      invariant forall j :: 0 <= j < i ==> rows[j] == RowFor(packages[j], verdicts)
    {
      var package := packages[i];
      var verdict := if package.id in verdicts then verdicts[package.id].verdict.GetOr("unknown") else "unknown";
      var percentage := if package.id in verdicts then verdicts[package.id].percentage.GetOr("-") else "-";
      rows := rows + [CommandRow(Glyph(verdict), package.name, package.version, package.data, percentage)];
    }
    exitCode := Success;
  }

  /** The verdicts the newer renderer knows, `match` and `mismatch`, have no
      glyph here. */
  lemma NewerVerdictsHaveNoGlyph()
    ensures Glyph("match") == None && Glyph("mismatch") == None
  {
  }
}
