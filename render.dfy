/** A printer for the text `SplunkFormatParser` reads, used to state what the
    parser recovers from well-formed input. Each text function renders a part
    together with the delimiters that follow it, so that the text of a list is
    its first element followed by the text of the rest. */
module Render {
  import opened Wrappers
  import opened Types
  import opened Scanner

  /** One `key="value"` entry; a quoted key is written as `"key"=`. */
  datatype Pair = Pair(key: string, value: string, quoted: bool)

  /** A field of a column: one entry, or a multivalue group of entries. */
  datatype FieldText = PlainField(pair: Pair) | GroupField(entries: seq<Pair>)

  /** The inverse of the escape rule of `_get_value`: `"` and the escape
      character are written behind an escape character. */
  function Escape(v: string, esc: char): (e: string)
    ensures |v| <= |e|
  {
    if v == [] then []
    else (if v[0] == '"' || v[0] == esc then [esc, v[0]] else [v[0]]) + Escape(v[1..], esc)
  }

  function KeyText(p: Pair): string {
    if p.quoted then ['"'] + p.key + ['"'] else p.key
  }

  function PairText(p: Pair, esc: char): string {
    KeyText(p) + ['=', '"'] + Escape(p.value, esc) + ['"']
  }

  /** The entries of a group from the space before the first one through the
      keyword `close` after the last, which a rendered group makes `)`:
      ` a="1" OR a="2" )`. */
  function EntriesText(es: seq<Pair>, cfg: Config, close: string): (t: string)
    requires |es| >= 1 && ValidEscape(cfg)
    ensures |t| > 0 && t[0] == ' '
  {
    [' '] + PairText(es[0], Esc(cfg)) + [' ']
      + if |es| == 1 then close else cfg.mvsep + EntriesText(es[1..], cfg, close)
  }

  function FieldBody(f: FieldText, cfg: Config): string
    requires ValidEscape(cfg)
  {
    match f
    case PlainField(p) => PairText(p, Esc(cfg))
    case GroupField(es) => if es == [] then ['(', ' ', ')'] else ['('] + EntriesText(es, cfg, ")")
  }

  /** The fields of a column from the space before the first one through the
      column end: ` a="1" AND b="2" )`. */
  function FieldsText(fs: seq<FieldText>, cfg: Config): (t: string)
    requires |fs| >= 1 && ValidEscape(cfg)
    ensures |t| > 0 && t[0] == ' '
  {
    [' '] + FieldBody(fs[0], cfg) + [' ']
      + if |fs| == 1 then cfg.columnEnd else cfg.columnSeparator + FieldsText(fs[1..], cfg)
  }

  /** The columns of a row from the space before the first one through the
      row end: ` ( a="1" ) OR ( a="2" ) )`. */
  function ColumnsText(cols: seq<seq<FieldText>>, cfg: Config): (t: string)
    requires ColumnsNonEmpty(cols) && ValidEscape(cfg)
    decreases |cols|
    ensures |t| > 0 && t[0] == ' '
  {
    [' '] + cfg.columnPrefix + FieldsText(cols[0], cfg) + [' ']
      + if |cols| == 1 then cfg.rowEnd else cfg.rowSeparator + ColumnsText(cols[1..], cfg)
  }

  /** A whole `format` result: `( ( a="1" ) OR ( a="2" ) )`. */
  function RenderRow(cols: seq<seq<FieldText>>, cfg: Config): string
    requires ColumnsNonEmpty(cols) && ValidEscape(cfg)
  {
    cfg.rowPrefix + ColumnsText(cols, cfg)
  }

  /** The delimiters can be rendered and read back: every structural literal
      is a keyword, the empty marker is not the row prefix, and each
      separator differs from the end that could stand in its place. */
  predicate Renderable(cfg: Config) {
    && ValidEscape(cfg)
    && IsKeyword(cfg.rowPrefix) && IsKeyword(cfg.columnPrefix) && IsKeyword(cfg.columnSeparator)
    && IsKeyword(cfg.columnEnd) && IsKeyword(cfg.rowSeparator) && IsKeyword(cfg.rowEnd)
    && IsKeyword(cfg.mvsep)
    && cfg.rowPrefix != cfg.emptystr
    && cfg.columnSeparator != cfg.columnEnd
    && cfg.rowSeparator != cfg.rowEnd
    && cfg.mvsep != ")"
  }

  /** A key reads back as itself: it holds no `=`, does not start or end with
      `"`, and a bare key is not empty and does not start with a space or `(`. */
  predicate WellFormedPair(p: Pair) {
    && (forall i | 0 <= i < |p.key| :: p.key[i] != '=')
    && (p.key == [] || (p.key[0] != '"' && p.key[|p.key| - 1] != '"'))
    && (!p.quoted ==> p.key != [] && p.key[0] != ' ' && p.key[0] != '(')
  }

  /** Every entry of a list reads back as itself. */
  predicate PairsWellFormed(es: seq<Pair>)
    decreases |es|
  {
    es == [] || (WellFormedPair(es[0]) && PairsWellFormed(es[1..]))
  }

  /** A field reads back as itself; a group has at least one entry, and all
      its entries have the same key. */
  predicate WellFormedField(f: FieldText) {
    match f
    case PlainField(p) => WellFormedPair(p)
    case GroupField(es) => |es| >= 1 && PairsWellFormed(es) && FirstOtherKey(es, es[0].key).None?
  }

  predicate FieldsWellFormed(fs: seq<FieldText>)
    decreases |fs|
  {
    fs == [] || (WellFormedField(fs[0]) && FieldsWellFormed(fs[1..]))
  }

  /** A row has at least one column and every column at least one field. */
  predicate ColumnsNonEmpty(cols: seq<seq<FieldText>>)
    decreases |cols|
  {
    |cols| >= 1 && |cols[0]| >= 1 && (|cols| > 1 ==> ColumnsNonEmpty(cols[1..]))
  }

  predicate ColumnsFieldsWellFormed(cols: seq<seq<FieldText>>)
    decreases |cols|
  {
    cols == [] || (FieldsWellFormed(cols[0]) && ColumnsFieldsWellFormed(cols[1..]))
  }

  predicate WellFormedColumns(cols: seq<seq<FieldText>>) {
    ColumnsNonEmpty(cols) && ColumnsFieldsWellFormed(cols)
  }

  function Values(es: seq<Pair>): (vs: seq<string>)
    ensures |vs| == |es|
  {
    if es == [] then [] else [es[0].value] + Values(es[1..])
  }

  /** The values of a group are its entries' values, in order. */
  lemma {:induction false} ValuesSpec(es: seq<Pair>)
    ensures forall i | 0 <= i < |es| :: Values(es)[i] == es[i].value
  {
    if es != [] {
      ValuesSpec(es[1..]);
      assert forall i | 1 <= i < |es| :: Values(es)[i] == Values(es[1..])[i - 1];
    }
  }

  function FieldKey(f: FieldText): string {
    match f
    case PlainField(p) => p.key
    case GroupField(es) => if es == [] then [] else es[0].key
  }

  function FieldValue(f: FieldText): FieldVal {
    match f
    case PlainField(p) => Single(p.value)
    case GroupField(es) => Multi(Values(es))
  }

  /** The fields written into a record one after the other. */
  function Assign(record: Record, fs: seq<FieldText>): Record
    decreases |fs|
  {
    if fs == [] then record else Assign(record[FieldKey(fs[0]) := FieldValue(fs[0])], fs[1..])
  }

  /** A key no field writes keeps what the record had, or stays absent. */
  lemma {:induction false} AssignUntouched(record: Record, fs: seq<FieldText>, k: string)
    requires forall i | 0 <= i < |fs| :: FieldKey(fs[i]) != k
    ensures (k in Assign(record, fs)) == (k in record)
    ensures k in record ==> Assign(record, fs)[k] == record[k]
    decreases |fs|
  {
    if fs != [] {
      assert forall i | 0 <= i < |fs| - 1 :: fs[1..][i] == fs[i + 1];
      AssignUntouched(record[FieldKey(fs[0]) := FieldValue(fs[0])], fs[1..], k);
    }
  }

  /** The last field written under a key decides its value: no later field
      has the same key, so the key holds that field's value. */
  lemma {:induction false} AssignLastWins(record: Record, fs: seq<FieldText>, j: nat)
    requires j < |fs|
    requires forall i | j < i < |fs| :: FieldKey(fs[i]) != FieldKey(fs[j])
    ensures FieldKey(fs[j]) in Assign(record, fs)
    ensures Assign(record, fs)[FieldKey(fs[j])] == FieldValue(fs[j])
    decreases |fs|
  {
    var next := record[FieldKey(fs[0]) := FieldValue(fs[0])];
    assert forall i | 0 <= i < |fs| - 1 :: fs[1..][i] == fs[i + 1];
    if j == 0 {
      AssignUntouched(next, fs[1..], FieldKey(fs[0]));
    } else {
      AssignLastWins(next, fs[1..], j - 1);
    }
  }

  /** The keys of the result are the record's keys and the key of every
      field, and nothing else. */
  lemma {:induction false} AssignKeys(record: Record, fs: seq<FieldText>, k: string)
    ensures k in Assign(record, fs) <==> k in record || exists i | 0 <= i < |fs| :: FieldKey(fs[i]) == k
    decreases |fs|
  {
    if fs != [] {
      assert forall i | 0 <= i < |fs| - 1 :: fs[1..][i] == fs[i + 1];
      AssignKeys(record[FieldKey(fs[0]) := FieldValue(fs[0])], fs[1..], k);
      if exists i | 0 <= i < |fs| :: FieldKey(fs[i]) == k {
        var i :| 0 <= i < |fs| && FieldKey(fs[i]) == k;
        if i > 0 {
          assert FieldKey(fs[1..][i - 1]) == k;
        }
      }
    }
  }

  function Records(cols: seq<seq<FieldText>>): (rs: seq<Record>)
    ensures |rs| == |cols|
  {
    if cols == [] then [] else [Assign(map[], cols[0])] + Records(cols[1..])
  }

  /** The key of the first entry whose key differs from `key`, if any. */
  function FirstOtherKey(es: seq<Pair>, key: string): Option<string>
  {
    if es == [] then None
    else if es[0].key != key then Some(es[0].key)
    else FirstOtherKey(es[1..], key)
  }

  /** No key differs exactly when every entry has `key`; a key found differs
      from `key` and is the key of the first entry that differs. */
  lemma {:induction false} FirstOtherKeySpec(es: seq<Pair>, key: string)
    ensures var r := FirstOtherKey(es, key);
      && (r.None? <==> forall i | 0 <= i < |es| :: es[i].key == key)
      && (r.Some? ==> exists j | 0 <= j < |es| ::
            es[j].key == r.value && r.value != key && forall i | 0 <= i < j :: es[i].key == key)
  {
    if es != [] && es[0].key == key {
      FirstOtherKeySpec(es[1..], key);
      var r := FirstOtherKey(es, key);
      if r.Some? {
        var j :| 0 <= j < |es[1..]| && es[1..][j].key == r.value && r.value != key
          && forall i | 0 <= i < j :: es[1..][i].key == key;
        assert es[j + 1].key == r.value;
        assert forall i | 0 <= i < j + 1 :: es[i].key == key by {
          forall i | 0 <= i < j + 1 ensures es[i].key == key {
            if i > 0 { assert es[i] == es[1..][i - 1]; }
          }
        }
      }
      assert (forall i | 0 <= i < |es[1..]| :: es[1..][i].key == key) <==> (forall i | 0 <= i < |es| :: es[i].key == key) by {
        if forall i | 0 <= i < |es[1..]| :: es[1..][i].key == key {
          forall i | 0 <= i < |es| ensures es[i].key == key {
            if i > 0 { assert es[i] == es[1..][i - 1]; }
          }
        }
      }
    } else if es != [] {
      assert es[0].key == FirstOtherKey(es, key).value;
    }
  }
}
