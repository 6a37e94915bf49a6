/** `_get_key_multivalue` returns the variable `key`, which only its loop over
    the second and later entries assigns; the first entry's key is held in
    `main_key`. A group of one entry never runs that loop, so once its `)` has
    been matched the `return` fails on a name that was never bound. Every
    other outcome is the same as returning `main_key`, which is what the rest
    of this model does (`Grammar.Group`). */
module Findings {
  import opened Wrappers
  import opened Types
  import opened Scanner
  import opened Grammar
  import opened Render
  import opened Positions
  import opened RoundTrip

  /** The loop of `_get_key_multivalue` as written: `key` starts unbound
      and each entry read after an `mvsep` keyword binds it, before the check
      against `mainKey`. */
  function MultivalueLoopAsWritten(s: string, cfg: Config, p: nat, kw: Option<string>, mainKey: string,
                                   key: Option<string>, values: seq<string>)
    : (r: Result<Step<(Option<string>, seq<string>)>, ParseError>)
    requires p <= |s| && ValidEscape(cfg)
    ensures r.Ok? ==> r.value.keyword != Some(cfg.mvsep) && values <= r.value.val.1
    ensures r.Ok? && r.value.val.0.None? ==> key.None? && r.value.val.1 == values
    decreases |s| - p
  {
    if kw != Some(cfg.mvsep) then Ok(Step((key, values), p, kw))
    else
      var entry :- KeyValue(s, p, Esc(cfg));
      var k := entry.val.0;
      if k != mainKey then Err(MultivalueKeyMismatch(mainKey, k))
      else
        var next := ScanKeyword(s, entry.pos);
        MultivalueLoopAsWritten(s, cfg, next.pos, next.val, mainKey, Some(k), values + [entry.val.1])
  }

  /** `_get_key_multivalue` as written: the first entry goes to `main_key`,
      the loop binds `key`, and after the `)` the unbound `key` of a group
      whose loop never ran is an error. */
  function GroupAsWritten(s: string, cfg: Config, p: nat): (r: Result<Step<(string, seq<string>)>, ParseError>)
    requires p <= |s| && ValidEscape(cfg)
    ensures r.Ok? ==> |r.value.val.1| >= 2
  {
    if TokenAt(s, p) != Some('(') then Err(UnexpectedToken(Some('('), TokenAt(s, p)))
    else
      var first :- KeyValue(s, p + 1, Esc(cfg));
      var next := ScanKeyword(s, first.pos);
      var l :- MultivalueLoopAsWritten(s, cfg, next.pos, next.val, first.val.0, None, [first.val.1]);
      if l.keyword != Some(")") then Err(UnexpectedKeyword(")", l.keyword))
      else if l.val.0.None? then Err(MultivalueKeyUnbound)
      else Ok(Step((l.val.0.value, l.val.1), l.pos, l.keyword))
  }

  /** The loop as written and `Grammar.MultivalueLoop` read the same entries
      and stop at the same place; `key` is what it was if no entry was read,
      and the main key otherwise. */
  lemma {:induction false} AsWrittenLoop(s: string, cfg: Config, p: nat, kw: Option<string>, mainKey: string,
                                         key: Option<string>, values: seq<string>)
    requires p <= |s| && ValidEscape(cfg)
    ensures var m := MultivalueLoop(s, cfg, p, kw, mainKey, values);
      m.Err? ==> MultivalueLoopAsWritten(s, cfg, p, kw, mainKey, key, values) == Err(m.error)
    ensures var m := MultivalueLoop(s, cfg, p, kw, mainKey, values);
      m.Ok? ==> var bound := if |m.value.val| == |values| then key else Some(mainKey);
        MultivalueLoopAsWritten(s, cfg, p, kw, mainKey, key, values) == Ok(Step((bound, m.value.val), m.value.pos, m.value.keyword))
    decreases |s| - p
  {
    if kw == Some(cfg.mvsep) {
      var entry := KeyValue(s, p, Esc(cfg));
      if entry.Ok? && entry.value.val.0 == mainKey {
        var next := ScanKeyword(s, entry.value.pos);
        AsWrittenLoop(s, cfg, next.pos, next.val, mainKey, Some(mainKey), values + [entry.value.val.1]);
      }
    }
  }

  /** Apart from the single-entry group, the code as written and the
      corrected reader agree: the same group, or the same error. */
  lemma AsWrittenAgrees(s: string, cfg: Config, p: nat)
    requires p <= |s| && ValidEscape(cfg)
    ensures Group(s, cfg, p).Err? ==> GroupAsWritten(s, cfg, p) == Group(s, cfg, p)
    ensures Group(s, cfg, p).Ok? && |Group(s, cfg, p).value.val.1| >= 2 ==>
      GroupAsWritten(s, cfg, p) == Group(s, cfg, p)
    ensures Group(s, cfg, p).Ok? && |Group(s, cfg, p).value.val.1| == 1 ==>
      GroupAsWritten(s, cfg, p) == Err(MultivalueKeyUnbound)
  {
    if TokenAt(s, p) == Some('(') {
      var first := KeyValue(s, p + 1, Esc(cfg));
      if first.Ok? {
        var next := ScanKeyword(s, first.value.pos);
        AsWrittenLoop(s, cfg, next.pos, next.val, first.value.val.0, None, [first.value.val.1]);
      }
    }
  }

  /** The row of one column whose only field is a one-entry group. */
  const OneEntryRow: string := "( ( ( source=\"a\" ) ) )"

  const OneEntryPair := Pair("source", "a", false)

  const OneEntryColumns := [[GroupField([OneEntryPair])]]

  /** The default delimiters can be rendered and read back. */
  lemma DefaultRenderable()
    ensures Renderable(DefaultConfig)
  {
    assert IsKeyword("AND") && IsKeyword("OR") && IsKeyword("(") && IsKeyword(")");
  }

  lemma OneEntryWellFormed()
    ensures WellFormedColumns(OneEntryColumns)
  {
    assert WellFormedPair(OneEntryPair) by {
      assert forall i | 0 <= i < 6 :: "source"[i] != '=';
    }
    assert [OneEntryPair][1..] == [];
    assert PairsWellFormed([OneEntryPair]);
    assert FirstOtherKey([OneEntryPair], "source") == None;
    assert [GroupField([OneEntryPair])][1..] == [];
    assert FieldsWellFormed([GroupField([OneEntryPair])]);
    assert OneEntryColumns[1..] == [];
  }

  lemma OneEntryPairText()
    ensures PairText(OneEntryPair, '\\') == "source=\"a\""
  {
    assert Escape("a", '\\') == "a" by {
      assert "a"[1..] == [];
    }
    assert KeyText(OneEntryPair) == "source";
  }

  lemma OneEntryEntriesText()
    ensures EntriesText([OneEntryPair], DefaultConfig, ")") == " source=\"a\" )"
  {
    OneEntryPairText();
  }

  lemma OneFieldText(fs: seq<FieldText>, cfg: Config)
    requires |fs| == 1 && ValidEscape(cfg)
    ensures FieldsText(fs, cfg) == [' '] + FieldBody(fs[0], cfg) + [' '] + cfg.columnEnd
  {
  }

  lemma OneColumnText(cols: seq<seq<FieldText>>, cfg: Config)
    requires |cols| == 1 && cols[0] != [] && ValidEscape(cfg)
    ensures ColumnsText(cols, cfg) == [' '] + cfg.columnPrefix + FieldsText(cols[0], cfg) + [' '] + cfg.rowEnd
  {
  }

  lemma OneEntryFieldsText()
    ensures FieldsText(OneEntryColumns[0], DefaultConfig) == " ( source=\"a\" ) )"
  {
    assert FieldBody(OneEntryColumns[0][0], DefaultConfig) == "( source=\"a\" )" by {
      OneEntryEntriesText();
    }
    OneFieldText(OneEntryColumns[0], DefaultConfig);
  }

  lemma OneEntryColumnsText()
    ensures ColumnsText(OneEntryColumns, DefaultConfig) == " ( ( source=\"a\" ) ) )"
  {
    OneEntryFieldsText();
    OneColumnText(OneEntryColumns, DefaultConfig);
  }

  /** A rendered row read back, with the row's text given piece by piece. */
  lemma ParseRenderedText(cols: seq<seq<FieldText>>, cfg: Config, body: string, s: string)
    requires Renderable(cfg) && WellFormedColumns(cols)
    requires ColumnsText(cols, cfg) == body && s == cfg.rowPrefix + body
    ensures ParseResult(s, cfg) == Ok(Records(cols))
  {
    ParseRendered(cols, cfg, []);
    assert RenderRow(cols, cfg) + [] == s;
  }

  /** The group at index 4 of `OneEntryRow`: the corrected reader returns its
      key and its one value, the code as written fails. */
  lemma OneEntryGroupUnbound()
    ensures Group(OneEntryRow, DefaultConfig, 4) == Ok(Step(("source", ["a"]), 18, Some(")")))
    ensures GroupAsWritten(OneEntryRow, DefaultConfig, 4) == Err(MultivalueKeyUnbound)
  {
    var s := OneEntryRow;
    var es := [OneEntryPair];
    DefaultRenderable();
    OneEntryWellFormed();
    OneEntryEntriesText();
    assert s[4..18] == ['('] + EntriesText(es, DefaultConfig, ")");
    AtSlice(s, 4, ['('] + EntriesText(es, DefaultConfig, ")"));
    assert Values(es) == ["a"];
    GroupAt(s, DefaultConfig, 4, es, ")", 18);
    AsWrittenAgrees(s, DefaultConfig, 4);
  }



  lemma OneFieldRecord(fs: seq<FieldText>)
    requires |fs| == 1
    ensures Assign(map[], fs) == map[FieldKey(fs[0]) := FieldValue(fs[0])]
  {
    assert fs[1..] == [];
  }

  lemma OneColumnRecords(cols: seq<seq<FieldText>>)
    requires |cols| == 1
    ensures Records(cols) == [Assign(map[], cols[0])]
  {
    assert cols[1..] == [];
  }

  lemma OneEntryRecords()
    ensures Records(OneEntryColumns) == [map["source" := Multi(["a"])]]
  {
    OneColumnRecords(OneEntryColumns);
    OneFieldRecord(OneEntryColumns[0]);
    assert FieldValue(OneEntryColumns[0][0]) == Multi(["a"]) by {
      assert [OneEntryPair][1..] == [];
    }
  }

  /** With the corrected reader the whole row parses into one record that
      maps the group's key to its one value. */
  lemma OneEntryRowParses()
    ensures ParseResult(OneEntryRow, DefaultConfig) == Ok([map["source" := Multi(["a"])]])
  {
    var body := " ( ( source=\"a\" ) ) )";
    assert OneEntryRow == DefaultConfig.rowPrefix + body;
    assert ParseResult(OneEntryRow, DefaultConfig) == Ok(Records(OneEntryColumns)) by {
      DefaultRenderable();
      OneEntryWellFormed();
      OneEntryColumnsText();
      ParseRenderedText(OneEntryColumns, DefaultConfig, body, OneEntryRow);
    }
    OneEntryRecords();
  }
}
