/** `SplunkFormatParser` as a parser object. The source keeps its cursor
    (`_token`, `_iterator`), the current keyword and the configuration on the
    class; here they are the fields of a `FormatParser` made fresh for each
    call of `Parse`. The iterator is an index `pos` into the input: the current
    token is the character at `pos`, and `pos == -1` is the state before the
    first `_next_token`. Every method is proved to agree with the function of
    module Grammar or Scanner that specifies it, started from the cursor and
    keyword the method was called with. */
module Parser {
  import opened Wrappers
  import opened Types
  import opened Scanner
  import opened Grammar

  /** A reader's result agrees with its specification: the same value and the
      same cursor on success, the same error on failure. */
  ghost predicate ReadAgrees<T>(r: Result<T, ParseError>, spec: Result<Read<T>, ParseError>, pos: int)
  {
    match spec
    case Ok(read) => r == Ok(read.val) && pos == read.pos
    case Err(e) => r == Err(e)
  }

  /** The same for a grammar reader, which also leaves a current keyword. */
  ghost predicate StepAgrees<T>(r: Result<T, ParseError>, spec: Result<Step<T>, ParseError>, pos: int, keyword: Option<string>)
  {
    match spec
    case Ok(step) => r == Ok(step.val) && pos == step.pos && keyword == step.keyword
    case Err(e) => r == Err(e)
  }

  /** Moving one character from the undecoded rest to the collected text. */
  lemma AppendOne(xs: string, c: char, ys: string)
    ensures xs + ([c] + ys) == (xs + [c]) + ys
  {
  }

  class FormatParser {
    const input: string
    const cfg: Config
    const esc: char
    var pos: int
    var token: Option<char>
    var keyword: Option<string>

    ghost predicate Valid()
      reads this
    {
      && -1 <= pos <= |input|
      && token == TokenAt(input, pos)
      && cfg.escapeChar == [esc]
    }

    /** The state `parse` sets up once the escape character is accepted:
        no token, no keyword, nothing of the input read. */
    constructor (input: string, cfg: Config)
      requires ValidEscape(cfg)
      ensures Valid()
      ensures this.input == input && this.cfg == cfg && pos == -1 && keyword == None
    {
      this.input := input;
      this.cfg := cfg;
      esc := cfg.escapeChar[0];
      pos := -1;
      token := None;
      keyword := None;
    }

    /** `_next_token`: move to the next character; at end of input the token
        stays None. */
    method NextToken()
      requires Valid()
      modifies this
      ensures Valid() && keyword == old(keyword)
      ensures pos == if old(pos) < |input| then old(pos) + 1 else old(pos)
    {
      if pos < |input| {
        pos := pos + 1;
      }
      token := if pos < |input| then Some(input[pos]) else None;
    }

    /** `_match_keyword`. */
    method MatchKeyword(expected: string) returns (r: Outcome<ParseError>)
      ensures r.Pass? <==> keyword == Some(expected)
      ensures r.Fail? ==> r.error == UnexpectedKeyword(expected, keyword)
    {
      if keyword != Some(expected) {
        return Fail(UnexpectedKeyword(expected, keyword));
      }
      return Pass;
    }

    /** `_match_token`. */
    method MatchToken(expected: Option<char>) returns (r: Outcome<ParseError>)
      ensures r.Pass? <==> token == expected
      ensures r.Fail? ==> r.error == UnexpectedToken(expected, token)
    {
      if token != expected {
        return Fail(UnexpectedToken(expected, token));
      }
      return Pass;
    }

    /** `_next_keyword`. */
    method NextKeyword()
      requires Valid() && 0 <= pos
      modifies this
      ensures Valid()
      ensures keyword == ScanKeyword(input, old(pos)).val
      ensures pos == ScanKeyword(input, old(pos)).pos
    {
      while token == Some(' ')
        invariant Valid() && old(pos) <= pos <= |input|
        invariant SkipSpaces(input, pos) == SkipSpaces(input, old(pos))
        decreases |input| - pos
      {
        NextToken();
      }
      if token.None? {
        keyword := None;
        return;
      }
      var start := pos;
      var chars := [token.value];
      NextToken();
      while token.Some? && token.value != ' '
        invariant Valid() && start < pos <= |input|
        invariant chars == input[start..pos]
        invariant RunEnd(input, pos) == RunEnd(input, start)
        decreases |input| - pos
      {
        chars := chars + [token.value];
        NextToken();
      }
      keyword := Some(chars);
    }

    /** `_get_key`. */
    method GetKey() returns (r: Result<string, ParseError>)
      requires Valid() && 0 <= pos
      modifies this
      ensures Valid() && keyword == old(keyword)
      ensures ReadAgrees(r, Key(input, old(pos)), pos)
    {
      if token.None? {
        return Err(KeyAtEndOfInput);
      }
      var start := pos;
      var chars := [token.value];
      NextToken();
      while token.Some? && token.value != '='
        invariant Valid() && start < pos <= |input| && keyword == old(keyword)
        invariant chars == input[start..pos]
        invariant KeyEnd(input, pos) == KeyEnd(input, start + 1)
        decreases |input| - pos
      {
        chars := chars + [token.value];
        NextToken();
      }
      NextToken();
      r := Ok(StripQuotes(chars));
    }

    /** `_get_value`. */
    method GetValue() returns (r: Result<string, ParseError>)
      requires Valid() && 0 <= pos
      modifies this
      ensures Valid() && keyword == old(keyword)
      ensures ReadAgrees(r, Value(input, old(pos), esc), pos)
    {
      var opening := MatchToken(Some('"'));
      if opening.Fail? {
        return Err(opening.error);
      }
      NextToken();
      ghost var start := pos;
      var chars: string := [];
      assert chars + Decode(input, pos, esc).val == Decode(input, pos, esc).val;
      while token.Some?
        invariant Valid() && start <= pos <= |input| && keyword == old(keyword)
        invariant Decode(input, start, esc).val == chars + Decode(input, pos, esc).val
        invariant Decode(input, start, esc).pos == Decode(input, pos, esc).pos
        decreases |input| - pos
      {
        ghost var p := pos;
        var current := token.value;
        NextToken();
        if current == esc && (token == Some('"') || token == Some(esc)) {
          var next := token.value;
          NextToken();
          assert Decode(input, p, esc).val == [next] + Decode(input, pos, esc).val;
          AppendOne(chars, next, Decode(input, pos, esc).val);
          chars := chars + [next];
          continue;
        }
        if current == '"' {
          assert Decode(input, p, esc) == Read([], pos);
          assert chars + [] == chars;
          break;
        }
        assert Decode(input, p, esc).val == [current] + Decode(input, pos, esc).val;
        AppendOne(chars, current, Decode(input, pos, esc).val);
        chars := chars + [current];
      }
      assert pos == |input| ==> chars + Decode(input, pos, esc).val == chars;
      assert Decode(input, start, esc) == Read(chars, pos);
      r := Ok(chars);
    }

    /** `_get_key_value`. */
    method GetKeyValue() returns (r: Result<(string, string), ParseError>)
      requires Valid() && 0 <= pos
      modifies this
      ensures Valid() && keyword == old(keyword)
      ensures ReadAgrees(r, KeyValue(input, old(pos), esc), pos)
    {
      while token == Some(' ')
        invariant Valid() && old(pos) <= pos <= |input| && keyword == old(keyword)
        invariant SkipSpaces(input, pos) == SkipSpaces(input, old(pos))
        decreases |input| - pos
      {
        NextToken();
      }
      var key :- GetKey();
      var value :- GetValue();
      r := Ok((key, value));
    }

    /** `_get_key_multivalue`. The source returns the key of the last entry
        read inside its loop, which equals the first entry's key; this model
        returns the first entry's key, so that a group of one entry is
        accepted (see module Findings). */
    method GetKeyMultivalue() returns (r: Result<(string, seq<string>), ParseError>)
      requires Valid() && 0 <= pos
      modifies this
      ensures Valid()
      ensures StepAgrees(r, Group(input, cfg, old(pos)), pos, keyword)
    {
      ghost var start := pos;
      var paren := MatchToken(Some('('));
      if paren.Fail? {
        assert Group(input, cfg, start) == Err(paren.error) by { GroupSteps(input, cfg, start); }
        return Err(paren.error);
      }
      NextToken();
      var firstRead := GetKeyValue();
      if firstRead.Err? {
        assert Group(input, cfg, start) == Err(firstRead.error) by { GroupSteps(input, cfg, start); }
        return Err(firstRead.error);
      }
      var first := firstRead.value;
      ghost var afterFirst := pos;
      var mainKey := first.0;
      var values := [first.1];
      NextKeyword();
      ghost var spec := MultivalueLoop(input, cfg, pos, keyword, mainKey, values);
      assert Group(input, cfg, start) == CloseGroup(mainKey, spec) by {
        assert Esc(cfg) == esc;
        assert KeyValue(input, start + 1, Esc(cfg)) == Ok(Read(first, afterFirst));
        assert ScanKeyword(input, afterFirst) == Read(keyword, pos);
        GroupSteps(input, cfg, start);
      }
      while keyword == Some(cfg.mvsep)
        invariant Valid() && 0 <= pos
        invariant spec == MultivalueLoop(input, cfg, pos, keyword, mainKey, values)
        decreases |input| - pos
      {
        var entry :- GetKeyValue();
        if entry.0 != mainKey {
          return Err(MultivalueKeyMismatch(mainKey, entry.0));
        }
        values := values + [entry.1];
        NextKeyword();
      }
      :- MatchKeyword(")");
      r := Ok((mainKey, values));
    }

    /** `_parse_column`. */
    method ParseColumn() returns (r: Result<Record, ParseError>)
      requires Valid() && 0 <= pos
      modifies this
      ensures Valid()
      ensures StepAgrees(r, Column(input, cfg, old(pos), old(keyword)), pos, keyword)
    {
      var prefix := MatchKeyword(cfg.columnPrefix);
      if prefix.Fail? {
        return Err(prefix.error);
      }
      var record: Record := map[];
      ghost var p0, kw0 := pos, keyword;
      while token.Some?
        invariant Valid() && 0 <= pos
        invariant FieldsLoop(input, cfg, p0, kw0, map[]) == FieldsLoop(input, cfg, pos, keyword, record)
        decreases |input| - pos
      {
        ghost var before := pos;
        while token == Some(' ')
          invariant Valid() && before <= pos <= |input|
          invariant SkipSpaces(input, pos) == SkipSpaces(input, before)
          decreases |input| - pos
        {
          NextToken();
        }
        var key, value;
        if token == Some('(') {
          var group :- GetKeyMultivalue();
          key, value := group.0, Multi(group.1);
        } else {
          var pair :- GetKeyValue();
          key, value := pair.0, Single(pair.1);
        }
        record := record[key := value];
        NextKeyword();
        if keyword != Some(cfg.columnSeparator) {
          break;
        }
      }
      :- MatchKeyword(cfg.columnEnd);
      r := Ok(record);
    }

    /** `_parse_row`. */
    method ParseRow() returns (r: Result<seq<Record>, ParseError>)
      requires Valid() && 0 <= pos
      modifies this
      ensures Valid()
      ensures StepAgrees(r, Row(input, cfg, old(pos), old(keyword)), pos, keyword)
    {
      var prefix := MatchKeyword(cfg.rowPrefix);
      if prefix.Fail? {
        return Err(prefix.error);
      }
      var rows: seq<Record> := [];
      ghost var p0, kw0 := pos, keyword;
      while token.Some?
        invariant Valid() && 0 <= pos
        invariant RowLoop(input, cfg, p0, kw0, []) == RowLoop(input, cfg, pos, keyword, rows)
        decreases |input| - pos
      {
        NextKeyword();
        var column :- ParseColumn();
        rows := rows + [column];
        NextKeyword();
        if keyword != Some(cfg.rowSeparator) {
          break;
        }
      }
      :- MatchKeyword(cfg.rowEnd);
      r := Ok(rows);
    }

    /** `_parse_format`. */
    method ParseFormat() returns (r: Result<seq<Record>, ParseError>)
      requires Valid() && pos == -1
      modifies this
      ensures Valid()
      ensures r == Format(input, cfg)
    {
      NextToken();
      NextKeyword();
      if keyword.None? {
        return Ok([]);
      }
      if keyword == Some(cfg.emptystr) {
        :- MatchToken(None);
        return Ok([]);
      }
      r := ParseRow();
    }
  }

  /** `SplunkFormatParser.parse`: reject an escape character that is not one
      character long, then parse with a parser of its own. */
  method Parse(input: string, cfg: Config) returns (r: Result<seq<Record>, ParseError>)
    ensures r == ParseResult(input, cfg)
  {
    if |cfg.escapeChar| != 1 {
      return Err(InvalidEscapeChar(cfg.escapeChar));
    }
    var parser := new FormatParser(input, cfg);
    r := parser.ParseFormat();
  }
}
