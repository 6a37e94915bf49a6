/** Properties of the readers and of the whole parse that hold for every
    input: the escape check, blank input, the empty marker, the quote
    stripping of keys and the escape rule of values. */
module Properties {
  import opened Wrappers
  import opened Types
  import opened Scanner
  import opened Grammar
  import opened Positions

  /** The escape character is checked before the input is looked at. */
  lemma EscapeCheckedFirst(s: string, cfg: Config)
    requires |cfg.escapeChar| != 1
    ensures ParseResult(s, cfg) == Err(InvalidEscapeChar(cfg.escapeChar))
  {
  }

  /** Input with no keyword at all, such as the empty string, is no records. */
  lemma BlankInputIsEmpty(n: nat, cfg: Config)
    requires ValidEscape(cfg)
    ensures ParseResult(Repeat(' ', n), cfg) == Ok([])
  {
    SkipSpacesTo(Repeat(' ', n), 0, n);
  }

  /** The empty marker as the only keyword, directly followed by end of
      input, is no records. */
  lemma EmptyMarkerAlone(n: nat, cfg: Config)
    requires ValidEscape(cfg) && IsKeyword(cfg.emptystr)
    ensures ParseResult(Repeat(' ', n) + cfg.emptystr, cfg) == Ok([])
  {
    var s := Repeat(' ', n) + cfg.emptystr;
    assert s[n..n + |cfg.emptystr|] == cfg.emptystr;
    AtSlice(s, n, cfg.emptystr);
    AtIndex(s, n, cfg.emptystr, 0);
    SkipSpacesTo(s, 0, n);
    ScanAt(s, 0, n, cfg.emptystr, n + |cfg.emptystr|);
  }

  /** Anything after the empty marker, even one space, is an error: the
      parser expected end of input and found the next character. */
  lemma EmptyMarkerNotLast(n: nat, cfg: Config, rest: string)
    requires ValidEscape(cfg) && IsKeyword(cfg.emptystr)
    ensures ParseResult(Repeat(' ', n) + cfg.emptystr + [' '] + rest, cfg) == Err(UnexpectedToken(None, Some(' ')))
  {
    var s := Repeat(' ', n) + cfg.emptystr + [' '] + rest;
    assert s[n..n + |cfg.emptystr|] == cfg.emptystr;
    AtSlice(s, n, cfg.emptystr);
    AtIndex(s, n, cfg.emptystr, 0);
    assert s[n + |cfg.emptystr|] == ' ';
    SkipSpacesTo(s, 0, n);
    ScanAt(s, 0, n, cfg.emptystr, n + |cfg.emptystr|);
  }

  /** A first keyword that is neither the empty marker nor the row prefix is
      reported as a row prefix mismatch naming what was found. */
  lemma RowPrefixExpected(s: string, cfg: Config)
    requires ValidEscape(cfg)
    requires ScanKeyword(s, 0).val.Some?
    requires ScanKeyword(s, 0).val.value != cfg.emptystr && ScanKeyword(s, 0).val.value != cfg.rowPrefix
    ensures ParseResult(s, cfg) == Err(UnexpectedKeyword(cfg.rowPrefix, ScanKeyword(s, 0).val))
  {
  }

  lemma {:induction false} StripLeadingQuotes(n: nat, t: string)
    requires t == [] || t[0] != '"'
    ensures StripLeading(Repeat('"', n) + t) == t
    decreases n
  {
    if n == 0 {
      assert Repeat('"', 0) + t == t;
    } else {
      assert (Repeat('"', n) + t)[1..] == Repeat('"', n - 1) + t;
      StripLeadingQuotes(n - 1, t);
    }
  }

  lemma {:induction false} StripTrailingQuotes(t: string, n: nat)
    requires t == [] || t[|t| - 1] != '"'
    ensures StripTrailing(t + Repeat('"', n)) == t
    decreases n
  {
    if n == 0 {
      assert t + Repeat('"', 0) == t;
    } else {
      assert (t + Repeat('"', n))[..|t| + n - 1] == t + Repeat('"', n - 1);
      StripTrailingQuotes(t, n - 1);
    }
  }

  /** `strip('"')` removes any number of quotes on either side of a key that
      neither starts nor ends with a quote, and nothing else. */
  lemma StripQuotesPadded(a: nat, k: string, b: nat)
    requires k == [] || (k[0] != '"' && k[|k| - 1] != '"')
    ensures StripQuotes(Repeat('"', a) + k + Repeat('"', b)) == k
  {
    if k == [] {
      assert Repeat('"', a) + k + Repeat('"', b) == Repeat('"', a + b) + [];
      StripLeadingQuotes(a + b, []);
    } else {
      assert Repeat('"', a) + k + Repeat('"', b) == Repeat('"', a) + (k + Repeat('"', b));
      StripLeadingQuotes(a, k + Repeat('"', b));
      StripTrailingQuotes(k, b);
    }
  }

  /** The escape character before `"` or before itself stands for that
      second character, and both are consumed. */
  lemma EscapedCharacter(s: string, p: nat, esc: char)
    requires p + 1 < |s| && s[p] == esc && (s[p + 1] == '"' || s[p + 1] == esc)
    ensures Decode(s, p, esc).val == [s[p + 1]] + Decode(s, p + 2, esc).val
    ensures Decode(s, p, esc).pos == Decode(s, p + 2, esc).pos
  {
  }

  /** The escape character before anything else is an ordinary character. */
  lemma LoneEscapeIsLiteral(s: string, p: nat, esc: char)
    requires p < |s| && s[p] == esc && esc != '"'
    requires p + 1 == |s| || (s[p + 1] != '"' && s[p + 1] != esc)
    ensures Decode(s, p, esc).val == [esc] + Decode(s, p + 1, esc).val
    ensures Decode(s, p, esc).pos == Decode(s, p + 1, esc).pos
  {
  }

  /** A value holding neither `"` nor the escape character is read verbatim,
      up to the quote that closes it; any other character, NUL included, is
      copied. With `"` as the escape character, the closing quote must not
      be followed by another `"`, since `""` is then an escaped quote. */
  lemma {:induction false} DecodeVerbatim(s: string, p: nat, esc: char, n: nat)
    requires p + n < |s| && s[p + n] == '"'
    requires esc != '"' || p + n + 1 == |s| || s[p + n + 1] != '"'
    requires forall i | p <= i < p + n :: s[i] != '"' && s[i] != esc
    ensures Decode(s, p, esc) == Read(s[p..p + n], p + n + 1)
    decreases n
  {
    if n > 0 {
      DecodeVerbatim(s, p + 1, esc, n - 1);
      assert s[p..p + n] == [s[p]] + s[p + 1..p + n];
    }
  }
}
