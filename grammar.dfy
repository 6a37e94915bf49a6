/** The grammar of `SplunkFormatParser` as functions. Each loop of the source
    is a function with an accumulator: called with the cursor, the current
    keyword and what the loop has built so far, it returns what the loop
    returns, so that a loop invariant can say "the rest of the loop yields the
    same as the whole loop". */
module Grammar {
  import opened Wrappers
  import opened Types
  import opened Scanner

  /** `_get_key_value`: skip spaces, read a key, then a value. */
  function KeyValue(s: string, p: nat, esc: char): (r: Result<Read<(string, string)>, ParseError>)
    requires p <= |s|
    ensures r.Ok? ==> p < r.value.pos <= |s|
  {
    var key :- Key(s, SkipSpaces(s, p));
    var value :- Value(s, key.pos, esc);
    Ok(Read((key.val, value.val), value.pos))
  }

  /** The `while keyword == mvsep` loop of `_get_key_multivalue`, entered at
      cursor `p` with keyword `kw`, the group's key `mainKey` and the values
      read so far. */
  function MultivalueLoop(s: string, cfg: Config, p: nat, kw: Option<string>, mainKey: string, values: seq<string>)
    : (r: Result<Step<seq<string>>, ParseError>)
    requires p <= |s| && ValidEscape(cfg)
    ensures r.Ok? ==> p <= r.value.pos <= |s| && r.value.keyword != Some(cfg.mvsep)
    ensures r.Ok? ==> values <= r.value.val
    decreases |s| - p
  {
    if kw != Some(cfg.mvsep) then Ok(Step(values, p, kw))
    else
      var entry :- KeyValue(s, p, Esc(cfg));
      var key := entry.val.0;
      if key != mainKey then Err(MultivalueKeyMismatch(mainKey, key))
      else
        var next := ScanKeyword(s, entry.pos);
        MultivalueLoop(s, cfg, next.pos, next.val, mainKey, values + [entry.val.1])
  }

  /** `_get_key_multivalue`, at a `(`: the first entry fixes the key, every
      entry after an `mvsep` keyword must repeat it, and the group closes with
      the keyword `)` whatever the configured delimiters are. */
  function Group(s: string, cfg: Config, p: nat): (r: Result<Step<(string, seq<string>)>, ParseError>)
    requires p <= |s| && ValidEscape(cfg)
    ensures r.Ok? ==> p < r.value.pos <= |s| && r.value.keyword == Some(")") && |r.value.val.1| >= 1
  {
    if TokenAt(s, p) != Some('(') then Err(UnexpectedToken(Some('('), TokenAt(s, p)))
    else
      var first :- KeyValue(s, p + 1, Esc(cfg));
      var next := ScanKeyword(s, first.pos);
      CloseGroup(first.val.0, MultivalueLoop(s, cfg, next.pos, next.val, first.val.0, [first.val.1]))
  }

  /** The three ways `Group` can go, one step at a time. */
  lemma GroupSteps(s: string, cfg: Config, p: nat)
    requires p <= |s| && ValidEscape(cfg)
    ensures TokenAt(s, p) != Some('(') ==> Group(s, cfg, p) == Err(UnexpectedToken(Some('('), TokenAt(s, p)))
    ensures TokenAt(s, p) == Some('(') && KeyValue(s, p + 1, Esc(cfg)).Err? ==>
      Group(s, cfg, p) == Err(KeyValue(s, p + 1, Esc(cfg)).error)
    ensures TokenAt(s, p) == Some('(') && KeyValue(s, p + 1, Esc(cfg)).Ok? ==>
      var first := KeyValue(s, p + 1, Esc(cfg)).value;
      var next := ScanKeyword(s, first.pos);
      Group(s, cfg, p) == CloseGroup(first.val.0, MultivalueLoop(s, cfg, next.pos, next.val, first.val.0, [first.val.1]))
  {
  }

  /** The first entry of a group reads like a turn of the multivalue loop
      whose key is its own. */
  lemma GroupByLoop(s: string, cfg: Config, p: nat)
    requires p < |s| && ValidEscape(cfg) && TokenAt(s, p) == Some('(') && KeyValue(s, p + 1, Esc(cfg)).Ok?
    ensures var k := KeyValue(s, p + 1, Esc(cfg)).value.val.0;
      Group(s, cfg, p) == CloseGroup(k, MultivalueLoop(s, cfg, p + 1, Some(cfg.mvsep), k, []))
  {
    var first := KeyValue(s, p + 1, Esc(cfg)).value;
    assert [] + [first.val.1] == [first.val.1];
  }

  /** The end of `_get_key_multivalue`: after its loop, the keyword must be `)`. */
  function CloseGroup(mainKey: string, loop: Result<Step<seq<string>>, ParseError>)
    : (r: Result<Step<(string, seq<string>)>, ParseError>)
    ensures r.Ok? ==> loop.Ok? && r.value.keyword == Some(")") && r.value.pos == loop.value.pos
  {
    var l :- loop;
    if l.keyword != Some(")") then Err(UnexpectedKeyword(")", l.keyword))
    else Ok(Step((mainKey, l.val), l.pos, l.keyword))
  }

  /** One field inside `_parse_column`: after the spaces, a `(` starts a
      multivalue group and anything else a single key/value pair. */
  function Field(s: string, cfg: Config, p: nat): (r: Result<Read<(string, FieldVal)>, ParseError>)
    requires p <= |s| && ValidEscape(cfg)
    ensures r.Ok? ==> p < r.value.pos <= |s|
    ensures r.Ok? ==> (r.value.val.1.Multi? <==> TokenAt(s, SkipSpaces(s, p)) == Some('('))
  {
    var a := SkipSpaces(s, p);
    if TokenAt(s, a) == Some('(') then
      var group :- Group(s, cfg, a);
      Ok(Read((group.val.0, Multi(group.val.1)), group.pos))
    else
      var pair :- KeyValue(s, a, Esc(cfg));
      Ok(Read((pair.val.0, Single(pair.val.1)), pair.pos))
  }

  /** The field loop of `_parse_column`, entered at cursor `p` with keyword
      `kw` and the record built so far. Each field is written into the record
      (a later field with the same key replaces the earlier value). */
  function FieldsLoop(s: string, cfg: Config, p: nat, kw: Option<string>, record: Record)
    : (r: Result<Step<Record>, ParseError>)
    requires p <= |s| && ValidEscape(cfg)
    ensures r.Ok? ==> p <= r.value.pos <= |s|
    ensures r.Ok? ==> record.Keys <= r.value.val.Keys
    decreases |s| - p
  {
    if TokenAt(s, p).None? then Ok(Step(record, p, kw))
    else
      var field :- Field(s, cfg, p);
      var record' := record[field.val.0 := field.val.1];
      var next := ScanKeyword(s, field.pos);
      if next.val != Some(cfg.columnSeparator) then Ok(Step(record', next.pos, next.val))
      else FieldsLoop(s, cfg, next.pos, next.val, record')
  }

  /** `_parse_column`: the column prefix, the fields, the column end. */
  function Column(s: string, cfg: Config, p: nat, kw: Option<string>): (r: Result<Step<Record>, ParseError>)
    requires p <= |s| && ValidEscape(cfg)
    ensures r.Ok? ==> p <= r.value.pos <= |s|
    ensures r.Ok? ==> kw == Some(cfg.columnPrefix) && r.value.keyword == Some(cfg.columnEnd)
    ensures kw != Some(cfg.columnPrefix) ==> r == Err(UnexpectedKeyword(cfg.columnPrefix, kw))
  {
    if kw != Some(cfg.columnPrefix) then Err(UnexpectedKeyword(cfg.columnPrefix, kw))
    else
      var fields :- FieldsLoop(s, cfg, p, kw, map[]);
      if fields.keyword != Some(cfg.columnEnd) then Err(UnexpectedKeyword(cfg.columnEnd, fields.keyword))
      else Ok(fields)
  }

  /** The column loop of `_parse_row`, entered at cursor `p` with keyword `kw`
      and the records read so far. */
  function RowLoop(s: string, cfg: Config, p: nat, kw: Option<string>, rows: seq<Record>)
    : (r: Result<Step<seq<Record>>, ParseError>)
    requires p <= |s| && ValidEscape(cfg)
    ensures r.Ok? ==> p <= r.value.pos <= |s|
    ensures r.Ok? ==> rows <= r.value.val
    decreases |s| - p
  {
    if TokenAt(s, p).None? then Ok(Step(rows, p, kw))
    else
      var first := ScanKeyword(s, p);
      var column :- Column(s, cfg, first.pos, first.val);
      var next := ScanKeyword(s, column.pos);
      if next.val != Some(cfg.rowSeparator) then Ok(Step(rows + [column.val], next.pos, next.val))
      else RowLoop(s, cfg, next.pos, next.val, rows + [column.val])
  }

  /** `_parse_row`: the row prefix, the columns, the row end. */
  function Row(s: string, cfg: Config, p: nat, kw: Option<string>): (r: Result<Step<seq<Record>>, ParseError>)
    requires p <= |s| && ValidEscape(cfg)
    ensures r.Ok? ==> p <= r.value.pos <= |s|
    ensures r.Ok? ==> kw == Some(cfg.rowPrefix) && r.value.keyword == Some(cfg.rowEnd)
    ensures kw != Some(cfg.rowPrefix) ==> r == Err(UnexpectedKeyword(cfg.rowPrefix, kw))
  {
    if kw != Some(cfg.rowPrefix) then Err(UnexpectedKeyword(cfg.rowPrefix, kw))
    else
      var rows :- RowLoop(s, cfg, p, kw, []);
      if rows.keyword != Some(cfg.rowEnd) then Err(UnexpectedKeyword(cfg.rowEnd, rows.keyword))
      else Ok(rows)
  }

  /** `_parse_format`, from the first character: no keyword at all, or the
      empty marker followed directly by end of input, is the empty result;
      anything else is a row. */
  function Format(s: string, cfg: Config): (r: Result<seq<Record>, ParseError>)
    requires ValidEscape(cfg)
    ensures r.Err? ==> ScanKeyword(s, 0).val.Some?
    ensures r.Ok? && r.value != [] ==> ScanKeyword(s, 0).val == Some(cfg.rowPrefix)
  {
    var first := ScanKeyword(s, 0);
    if first.val.None? then Ok([])
    else if first.val == Some(cfg.emptystr) then
      if TokenAt(s, first.pos).None? then Ok([]) else Err(UnexpectedToken(None, TokenAt(s, first.pos)))
    else
      var rows :- Row(s, cfg, first.pos, first.val);
      Ok(rows.val)
  }

  /** `SplunkFormatParser.parse`: the escape character is checked before
      anything of the input is looked at. */
  function ParseResult(s: string, cfg: Config): (r: Result<seq<Record>, ParseError>)
    ensures r.Ok? ==> ValidEscape(cfg)
    ensures r.Ok? && r.value != [] ==> ScanKeyword(s, 0).val == Some(cfg.rowPrefix)
  {
    if !ValidEscape(cfg) then Err(InvalidEscapeChar(cfg.escapeChar)) else Format(s, cfg)
  }
}
