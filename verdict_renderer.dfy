/** Row construction (src/VerdictRenderer.php): the column list, the
    percentage text, the status cell and the merge of enricher columns. */
module VerdictRenderer {
  import opened Php
  import opened Domain

  /** A cell value: a string, a boolean, the `(float)` cast of a string
      (kept uninterpreted), or null (an undefined array key). */
  datatype Cell = Text(s: string) | Flag(b: bool) | AsFloat(s: string) | Null

  /** A PHP array with string keys, in insertion order. */
  type Row = seq<(string, Cell)>

  /** The constructor arguments of the renderer. */
  datatype RendererOptions = RendererOptions(
    json: bool,
    additionalColumns: seq<string>,
    verdictEnricher: Option<PackageVerdict -> Row>)

  const VerdictTypes: map<string, string> := map[
    "unknown" := "<fg=white>?</>",
    "match" := "<fg=green>✓</>",
    "mismatch" := "<fg=red>⨉</>"]

  const BaseColumns: seq<string> := ["Status", "Package", "Version", "Package ID", "Checksum", "Percentage"]

  const BaseKeys: seq<string> := ["status", "package", "version", "package_id", "checksum", "percentage"]

  // ---------------------------------------------------------------------
  // PHP arrays with string keys

  function Keys(row: Row): (r: seq<string>)
    ensures |r| == |row| && forall i :: 0 <= i < |row| ==> r[i] == row[i].0
  {
    seq(|row|, i requires 0 <= i < |row| => row[i].0)
  }

  predicate DistinctKeys(row: Row) {
    forall i, j :: 0 <= i < j < |row| ==> row[i].0 != row[j].0
  }

  /** `$row[k]`, or None if `k` is not a key. */
  function Lookup(row: Row, k: string): Option<Cell> {
    if row == [] then None
    else if row[0].0 == k then Some(row[0].1)
    else Lookup(row[1..], k)
  }

  /** `$row[k] = c`: overwrite in place, or append a new key at the end. */
  function Put(row: Row, k: string, c: Cell): Row {
    if row == [] then [(k, c)]
    else if row[0].0 == k then [(k, c)] + row[1..]
    else [row[0]] + Put(row[1..], k, c)
  }

  /** `array_merge(base, extra)` for string keys. */
  function ArrayMerge(base: Row, extra: Row): Row
    decreases |extra|
  {
    if extra == [] then base else ArrayMerge(Put(base, extra[0].0, extra[0].1), extra[1..])
  }

  lemma {:induction false} LookupPut(row: Row, k: string, c: Cell, k': string)
    ensures Lookup(Put(row, k, c), k') == if k' == k then Some(c) else Lookup(row, k')
  {
    if row != [] && row[0].0 != k {
      LookupPut(row[1..], k, c, k');
    }
  }

  lemma {:induction false} KeysPut(row: Row, k: string, c: Cell)
    ensures Keys(Put(row, k, c)) == if k in Keys(row) then Keys(row) else Keys(row) + [k]
  {
    if row != [] && row[0].0 != k {
      KeysPut(row[1..], k, c);
      assert Keys(row) == [row[0].0] + Keys(row[1..]);
      assert Keys(Put(row, k, c)) == [row[0].0] + Keys(Put(row[1..], k, c));
    }
  }

  /** Array merge keeps the base keys first, in their order, then appends the
      new keys of `extra` in `extra`'s order, each once, and nothing else; a
      key of both takes `extra`'s value, any other key keeps the value it
      had. */
  lemma MergeSemantics(base: Row, extra: Row, k: string)
    requires DistinctKeys(extra)
    ensures |ArrayMerge(base, extra)| >= |base|
    ensures Keys(ArrayMerge(base, extra))[..|base|] == Keys(base)
    ensures Keys(ArrayMerge(base, extra)) == Keys(base) + KeysNotIn(Keys(extra), Keys(base))
    ensures DistinctKeys(base) ==> DistinctKeys(ArrayMerge(base, extra))
    ensures k in Keys(ArrayMerge(base, extra)) <==> k in Keys(base) || k in Keys(extra)
    ensures Lookup(ArrayMerge(base, extra), k) == if k in Keys(extra) then Lookup(extra, k) else Lookup(base, k)
  {
    MergeKeys(base, extra);
    if DistinctKeys(base) {
      MergeKeepsDistinct(base, extra);
    }
    MergeLookup(base, extra, k);
  }

  /** The cell of each key after a merge, and which keys are present. */
  lemma {:induction false} MergeLookup(base: Row, extra: Row, k: string)
    requires DistinctKeys(extra)
    ensures k in Keys(ArrayMerge(base, extra)) <==> k in Keys(base) || k in Keys(extra)
    ensures Lookup(ArrayMerge(base, extra), k) == if k in Keys(extra) then Lookup(extra, k) else Lookup(base, k)
    decreases |extra|
  {
    if extra != [] {
      var (k0, c0) := extra[0];
      var b' := Put(base, k0, c0);
      DistinctTail(extra);
      MergeLookup(b', extra[1..], k);
      LookupPut(base, k0, c0, k);
      KeysPut(base, k0, c0);
      assert Keys(extra) == [k0] + Keys(extra[1..]);
    }
  }

  /** The elements of `ks` that are not in `excluded`, in `ks`'s order. */
  function KeysNotIn(ks: seq<string>, excluded: seq<string>): seq<string> {
    if ks == [] then []
    else (if ks[0] in excluded then [] else [ks[0]]) + KeysNotIn(ks[1..], excluded)
  }

  /** A key is kept exactly when it is in `ks` and not excluded. */
  lemma {:induction false} KeysNotInMembers(ks: seq<string>, excluded: seq<string>, x: string)
    ensures x in KeysNotIn(ks, excluded) <==> x in ks && x !in excluded
  {
    if ks != [] {
      assert ks == [ks[0]] + ks[1..];
      KeysNotInMembers(ks[1..], excluded, x);
    }
  }

  /** Excluding a key that does not occur changes nothing. */
  lemma {:induction false} KeysNotInIgnores(ks: seq<string>, excluded: seq<string>, x: string)
    requires x !in ks
    ensures KeysNotIn(ks, excluded + [x]) == KeysNotIn(ks, excluded)
  {
    if ks != [] {
      assert ks[1..] == ks[1..] && x !in ks[1..] by { assert ks == [ks[0]] + ks[1..]; }
      KeysNotInIgnores(ks[1..], excluded, x);
    }
  }

  /** Assigning a key keeps the keys distinct. */
  lemma PutKeepsDistinct(row: Row, k: string, c: Cell)
    requires DistinctKeys(row)
    ensures DistinctKeys(Put(row, k, c))
  {
    KeysPut(row, k, c);
    var r := Put(row, k, c);
    forall i, j | 0 <= i < j < |r| ensures r[i].0 != r[j].0 {
      assert r[i].0 == Keys(r)[i] && r[j].0 == Keys(r)[j];
      assert Keys(row)[i] == row[i].0;
      if j < |row| {
        assert Keys(row)[j] == row[j].0;
      }
    }
  }

  /** The tail of a row with distinct keys has distinct keys, none of them
      the head's. */
  lemma DistinctTail(row: Row)
    requires row != [] && DistinctKeys(row)
    ensures DistinctKeys(row[1..]) && row[0].0 !in Keys(row[1..])
  {
    var rest := row[1..];
    forall i, j | 0 <= i < j < |rest| ensures rest[i].0 != rest[j].0 {
      assert rest[i] == row[i + 1] && rest[j] == row[j + 1];
    }
    forall i | 0 <= i < |rest| ensures Keys(rest)[i] != row[0].0 {
      assert Keys(rest)[i] == row[i + 1].0;
    }
  }

  /** The keys of a merge: the base keys in their order, then the keys of
      `extra` that are new, in `extra`'s order; nothing else. */
  lemma {:induction false} MergeKeys(base: Row, extra: Row)
    requires DistinctKeys(extra)
    ensures Keys(ArrayMerge(base, extra)) == Keys(base) + KeysNotIn(Keys(extra), Keys(base))
    decreases |extra|
  {
    if extra == [] {
      assert Keys(extra) == [];
    } else {
      var k0 := extra[0].0;
      var b' := Put(base, k0, extra[0].1);
      var rest := extra[1..];
      DistinctTail(extra);
      MergeKeys(b', rest);
      KeysPut(base, k0, extra[0].1);
      var ks := Keys(extra);
      assert ks[0] == k0 && ks[1..] == Keys(rest);
      if k0 !in Keys(base) {
        KeysNotInIgnores(Keys(rest), Keys(base), k0);
      }
    }
  }

  /** A merge into a row with distinct keys keeps them distinct, so each key
      of the merged row occurs once. */
  lemma {:induction false} MergeKeepsDistinct(base: Row, extra: Row)
    requires DistinctKeys(base)
    ensures DistinctKeys(ArrayMerge(base, extra))
    decreases |extra|
  {
    if extra != [] {
      PutKeepsDistinct(base, extra[0].0, extra[0].1);
      MergeKeepsDistinct(Put(base, extra[0].0, extra[0].1), extra[1..]);
    }
  }

  lemma {:induction false} LookupDistinct(row: Row, i: nat)
    requires DistinctKeys(row) && i < |row|
    ensures Lookup(row, row[i].0) == Some(row[i].1)
  {
    if i > 0 {
      assert row[1..][i - 1] == row[i];
      LookupDistinct(row[1..], i - 1);
    }
  }

  /** No key of `extra` is a key of `base`. */
  predicate NewKeys(base: Row, extra: Row) {
    forall i, j :: 0 <= i < |base| && 0 <= j < |extra| ==> base[i].0 != extra[j].0
  }

  /** When `extra` brings only new keys, the merge appends it unchanged. */
  lemma {:induction false} MergeAppendsNewKeys(base: Row, extra: Row)
    requires NewKeys(base, extra)
    requires DistinctKeys(extra)
    ensures ArrayMerge(base, extra) == base + extra
    decreases |extra|
  {
    if extra != [] {
      var e := extra[0];
      var rest := extra[1..];
      PutNewKeyAppends(base, e.0, e.1);
      assert NewKeys(base + [e], rest) by {
        forall i, j | 0 <= i < |base + [e]| && 0 <= j < |rest| ensures (base + [e])[i].0 != rest[j].0 {
          assert rest[j] == extra[j + 1];
          if i < |base| {
            assert (base + [e])[i] == base[i];
          }
        }
      }
      assert DistinctKeys(rest) by {
        forall i, j | 0 <= i < j < |rest| ensures rest[i].0 != rest[j].0 {
          assert rest[i] == extra[i + 1] && rest[j] == extra[j + 1];
        }
      }
      MergeAppendsNewKeys(base + [e], rest);
      assert base + [e] + rest == base + extra;
    }
  }

  lemma {:induction false} PutNewKeyAppends(row: Row, k: string, c: Cell)
    requires forall i :: 0 <= i < |row| ==> row[i].0 != k
    ensures Put(row, k, c) == row + [(k, c)]
  {
    if row != [] {
      assert forall i :: 0 <= i < |row[1..]| ==> row[1..][i] == row[i + 1];
      PutNewKeyAppends(row[1..], k, c);
      assert row == [row[0]] + row[1..];
    }
  }

  // ---------------------------------------------------------------------
  // The renderer

  /** `getColumns`: the six base headers, then the additional columns. */
  function GetColumns(additionalColumns: seq<string>): (r: seq<string>)
    ensures |r| == 6 + |additionalColumns|
    ensures r[..6] == ["Status", "Package", "Version", "Package ID", "Checksum", "Percentage"]
    ensures r[6..] == additionalColumns
  {
    if |additionalColumns| > 0 then BaseColumns + additionalColumns else BaseColumns
  }

  /** `getPercentage`: `-` exactly for an unknown verdict, else the
      percentage with a `%` sign. */
  function GetPercentage(v: PackageVerdict): (r: string)
    ensures r == "-" <==> v.verdict == "unknown"
    ensures v.verdict != "unknown" ==> r == v.percentage + "%"
  {
    if v.verdict == "unknown" then "-"
    else
      var r := v.percentage + "%";
      assert r[|r| - 1] == '%';
      r
  }

  /** The status cell: the raw verdict in JSON mode; in table mode the glyph
      of `unknown`, `match` or `mismatch`, and null for any other verdict. */
  function Status(json: bool, verdict: string): (c: Cell)
    ensures json ==> c == Text(verdict)
    ensures !json && verdict == "unknown" ==> c == Text("<fg=white>?</>")
    ensures !json && verdict == "match" ==> c == Text("<fg=green>✓</>")
    ensures !json && verdict == "mismatch" ==> c == Text("<fg=red>⨉</>")
    ensures !json && verdict !in {"unknown", "match", "mismatch"} ==> c == Null
  {
    if json then Text(verdict)
    else if verdict in VerdictTypes then Text(VerdictTypes[verdict])
    else Null
  }

  /** The literal `$row` of the closure: six distinct keys in fixed order,
      each holding its own cell. */
  function BaseRow(json: bool, v: PackageVerdict): (r: Row)
    ensures Keys(r) == BaseKeys && DistinctKeys(r)
    ensures Lookup(r, "status") == Some(Status(json, v.verdict))
    ensures Lookup(r, "package") == Some(Text(v.name))
    ensures Lookup(r, "version") == Some(Text(v.version))
    ensures Lookup(r, "package_id") == Some(Text(v.id))
    ensures Lookup(r, "checksum") == Some(Text(v.checksum))
    ensures Lookup(r, "percentage") == Some(if json then AsFloat(v.percentage) else Text(GetPercentage(v)))
  {
    var r := [("status", Status(json, v.verdict)),
              ("package", Text(v.name)),
              ("version", Text(v.version)),
              ("package_id", Text(v.id)),
              ("checksum", Text(v.checksum)),
              ("percentage", if json then AsFloat(v.percentage) else Text(GetPercentage(v)))];
    LookupDistinct(r, 0);
    LookupDistinct(r, 1);
    LookupDistinct(r, 2);
    LookupDistinct(r, 3);
    LookupDistinct(r, 4);
    LookupDistinct(r, 5);
    r
  }

  /** The closure of `getRowsFromVerdicts`. */
  function RowFromVerdict(options: RendererOptions, v: PackageVerdict): Row {
    var row := BaseRow(options.json, v);
    match options.verdictEnricher
    case None => row
    case Some(enricher) => ArrayMerge(row, enricher(v))
  }

  /** `getRowsFromVerdicts`: one row per verdict, in order. */
  function GetRowsFromVerdicts(options: RendererOptions, verdicts: seq<PackageVerdict>): (rows: seq<Row>)
    ensures |rows| == |verdicts|
    ensures forall i :: 0 <= i < |verdicts| ==> rows[i] == RowFromVerdict(options, verdicts[i])
  {
    seq(|verdicts|, i requires 0 <= i < |verdicts| => RowFromVerdict(options, verdicts[i]))
  }

  /** Without an enricher a row is the base row: exactly the six base keys,
      in order, with name, version, id and checksum copied verbatim. */
  lemma RowWithoutEnricher(options: RendererOptions, v: PackageVerdict)
    requires options.verdictEnricher.None?
    ensures RowFromVerdict(options, v) == BaseRow(options.json, v)
    ensures Keys(RowFromVerdict(options, v)) == ["status", "package", "version", "package_id", "checksum", "percentage"]
    ensures Lookup(RowFromVerdict(options, v), "package") == Some(Text(v.name))
    ensures Lookup(RowFromVerdict(options, v), "version") == Some(Text(v.version))
    ensures Lookup(RowFromVerdict(options, v), "package_id") == Some(Text(v.id))
    ensures Lookup(RowFromVerdict(options, v), "checksum") == Some(Text(v.checksum))
  {
  }

  /** With an enricher the row's keys are the six base keys, in order,
      followed by the enricher's new keys in the enricher's order, each once;
      an enriched key overrides a base key of the same name, and every other
      base cell is unchanged. */
  lemma RowWithEnricher(options: RendererOptions, v: PackageVerdict, k: string)
    requires options.verdictEnricher.Some?
    requires DistinctKeys(options.verdictEnricher.value(v))
    ensures Keys(RowFromVerdict(options, v)) ==
      ["status", "package", "version", "package_id", "checksum", "percentage"] + KeysNotIn(Keys(options.verdictEnricher.value(v)), BaseKeys)
    ensures DistinctKeys(RowFromVerdict(options, v))
    ensures k in Keys(RowFromVerdict(options, v)) <==> k in BaseKeys || k in Keys(options.verdictEnricher.value(v))
    ensures Lookup(RowFromVerdict(options, v), k) ==
      if k in Keys(options.verdictEnricher.value(v)) then Lookup(options.verdictEnricher.value(v), k)
      else Lookup(BaseRow(options.json, v), k)
  {
    MergeSemantics(BaseRow(options.json, v), options.verdictEnricher.value(v), k);
  }
}
