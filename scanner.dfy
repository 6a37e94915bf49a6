/** The character-level readers of `SplunkFormatParser`, as functions of the
    input and a cursor index. A cursor index `p` stands for the parser state in
    which the current token is `TokenAt(s, p)`: the character at `p`, or None
    once the input is exhausted. */
module Scanner {
  import opened Wrappers
  import opened Types

  function TokenAt(s: string, p: int): Option<char> {
    if 0 <= p < |s| then Some(s[p]) else None
  }

  /** A keyword is a non-empty run of characters without an ASCII space. */
  predicate IsKeyword(k: string) {
    k != [] && forall i | 0 <= i < |k| :: k[i] != ' '
  }

  /** Where `while token == ' ': next_token()` stops. */
  function SkipSpaces(s: string, p: nat): (q: nat)
    requires p <= |s|
    ensures p <= q <= |s|
    decreases |s| - p
  {
    if p < |s| && s[p] == ' ' then SkipSpaces(s, p + 1) else p
  }

  /** The skip passes spaces only, and stops at the first non-space. */
  lemma {:induction false} SkipSpacesSpec(s: string, p: nat)
    requires p <= |s|
    ensures var q := SkipSpaces(s, p);
      && (forall i | p <= i < q :: s[i] == ' ')
      && (q == |s| || s[q] != ' ')
    decreases |s| - p
  {
    if p < |s| && s[p] == ' ' {
      SkipSpacesSpec(s, p + 1);
    }
  }

  /** The skip stops exactly at the first non-space. */
  lemma SkipSpacesTo(s: string, p: nat, a: nat)
    requires p <= a <= |s| && (forall i | p <= i < a :: s[i] == ' ') && (a == |s| || s[a] != ' ')
    ensures SkipSpaces(s, p) == a
  {
    SkipSpacesSpec(s, p);
  }

  /** Where a run of non-space characters starting at `p` ends. */
  function RunEnd(s: string, p: nat): (q: nat)
    requires p <= |s|
    ensures p <= q <= |s|
    decreases |s| - p
  {
    if p < |s| && s[p] != ' ' then RunEnd(s, p + 1) else p
  }

  lemma {:induction false} RunEndSpec(s: string, p: nat)
    requires p <= |s|
    ensures var q := RunEnd(s, p);
      && (forall i | p <= i < q :: s[i] != ' ')
      && (q == |s| || s[q] == ' ')
    decreases |s| - p
  {
    if p < |s| && s[p] != ' ' {
      RunEndSpec(s, p + 1);
    }
  }

  /** `_next_keyword`: skip spaces; at end of input there is no keyword;
      otherwise the keyword is the maximal run of non-space characters, and the
      cursor is left on the space after it (or at end of input). */
  function ScanKeyword(s: string, p: nat): (r: Read<Option<string>>)
    requires p <= |s|
    ensures p <= r.pos <= |s|
    ensures p < |s| ==> p < r.pos
  {
    var a := SkipSpaces(s, p);
    if a == |s| then Read(None, a)
    else
      SkipSpacesSpec(s, p);
      var b := RunEnd(s, a);
      Read(Some(s[a..b]), b)
  }

  /** There is no keyword exactly when only spaces are left, and then the
      cursor is at end of input. Otherwise the keyword is a non-empty,
      space-free run that follows the skipped spaces and ends at the cursor,
      which is on a space or at end of input. */
  lemma ScanKeywordSpec(s: string, p: nat)
    requires p <= |s|
    ensures var r := ScanKeyword(s, p);
      && (r.val.None? <==> forall i | p <= i < |s| :: s[i] == ' ')
      && (r.val.None? ==> r.pos == |s|)
      && (r.val.Some? ==>
            var k := r.val.value;
            && IsKeyword(k)
            && |k| <= r.pos - p
            && k == s[r.pos - |k|..r.pos]
            && (forall i | p <= i < r.pos - |k| :: s[i] == ' ')
            && (r.pos == |s| || s[r.pos] == ' '))
  {
    var a := SkipSpaces(s, p);
    SkipSpacesSpec(s, p);
    if a < |s| {
      RunEndSpec(s, a);
    }
  }

  /** The first index at or after `p` that holds `=`, or the end of input. */
  function KeyEnd(s: string, p: nat): (q: nat)
    requires p <= |s|
    ensures p <= q <= |s|
    decreases |s| - p
  {
    if p < |s| && s[p] != '=' then KeyEnd(s, p + 1) else p
  }

  lemma {:induction false} KeyEndSpec(s: string, p: nat)
    requires p <= |s|
    ensures var q := KeyEnd(s, p);
      && (forall i | p <= i < q :: s[i] != '=')
      && (q == |s| || s[q] == '=')
    decreases |s| - p
  {
    if p < |s| && s[p] != '=' {
      KeyEndSpec(s, p + 1);
    }
  }

  /** `n` copies of `c`: a run of quotes around a key, of blanks before a row. */
  function Repeat(c: char, n: nat): (q: string)
    ensures |q| == n && forall i | 0 <= i < n :: q[i] == c
  {
    seq(n, _ => c)
  }

  function StripLeading(t: string): (r: string)
    ensures |r| <= |t|
    decreases |t|
  {
    if t != [] && t[0] == '"' then StripLeading(t[1..]) else t
  }

  /** `StripLeading` removes a run of quotes, all of them. */
  lemma {:induction false} StripLeadingSpec(t: string)
    ensures var r := StripLeading(t);
      && t == Repeat('"', |t| - |r|) + r
      && (r == [] || r[0] != '"')
    decreases |t|
  {
    if t != [] && t[0] == '"' {
      var r := StripLeading(t[1..]);
      StripLeadingSpec(t[1..]);
      assert t == [t[0]] + t[1..];
      assert [t[0]] + Repeat('"', |t| - 1 - |r|) == Repeat('"', |t| - |r|);
    }
  }

  function StripTrailing(t: string): (r: string)
    ensures |r| <= |t|
    decreases |t|
  {
    if t != [] && t[|t| - 1] == '"' then StripTrailing(t[..|t| - 1]) else t
  }

  /** `StripTrailing` removes a run of quotes, all of them. */
  lemma {:induction false} StripTrailingSpec(t: string)
    ensures var r := StripTrailing(t);
      && t == r + Repeat('"', |t| - |r|)
      && (r == [] || r[|r| - 1] != '"')
    decreases |t|
  {
    if t != [] && t[|t| - 1] == '"' {
      var r := StripTrailing(t[..|t| - 1]);
      StripTrailingSpec(t[..|t| - 1]);
      assert t == t[..|t| - 1] + [t[|t| - 1]];
      assert Repeat('"', |t| - 1 - |r|) + [t[|t| - 1]] == Repeat('"', |t| - |r|);
    }
  }

  /** Python's `str.strip('"')`: every leading and every trailing `"` removed. */
  function StripQuotes(t: string): (r: string)
    ensures |r| <= |t|
  {
    StripTrailing(StripLeading(t))
  }

  /** The stripped text is the original without some quotes in front and some
      behind, and it neither starts nor ends with a quote. */
  lemma StripQuotesSpec(t: string)
    ensures var r := StripQuotes(t);
      && (exists a: nat, b: nat :: t == Repeat('"', a) + r + Repeat('"', b))
      && (r == [] || (r[0] != '"' && r[|r| - 1] != '"'))
  {
    var l := StripLeading(t);
    var r := StripTrailing(l);
    StripLeadingSpec(t);
    StripTrailingSpec(l);
    var a, b := |t| - |l|, |l| - |r|;
    assert t == Repeat('"', a) + r + Repeat('"', b);
  }

  /** `_get_key`: the current character is always taken, then everything up to
      the first `=`; the `=` is consumed and dropped, and the quotes around the
      raw text are stripped. A field that starts at end of input fails. */
  function Key(s: string, p: nat): (r: Result<Read<string>, ParseError>)
    requires p <= |s|
    ensures r.Err? <==> p == |s|
    ensures r.Err? ==> r.error == KeyAtEndOfInput
    ensures r.Ok? ==> p < r.value.pos <= |s|
  {
    if p == |s| then Err(KeyAtEndOfInput)
    else
      var e := KeyEnd(s, p + 1);
      Ok(Read(StripQuotes(s[p..e]), if e < |s| then e + 1 else e))
  }

  /** A key read by `_get_key` stops at the first `=` after its first
      character and consumes it; it is the raw text up to that `=` with the
      quotes around it removed, and it neither starts nor ends with `"`. */
  lemma KeySpec(s: string, p: nat)
    requires p < |s|
    ensures var r := Key(s, p).value;
      && (forall i | p < i < r.pos - 1 :: s[i] != '=')
      && (r.pos == |s| || s[r.pos - 1] == '=')
      && (r.val == [] || (r.val[0] != '"' && r.val[|r.val| - 1] != '"'))
    ensures exists a: nat, b: nat ::
      s[p..KeyEnd(s, p + 1)] == Repeat('"', a) + Key(s, p).value.val + Repeat('"', b)
  {
    KeyEndSpec(s, p + 1);
    StripQuotesSpec(s[p..KeyEnd(s, p + 1)]);
  }

  /** The characters of a value after its opening quote, under the escape rule
      of `_get_value`: the escape character followed by `"` or by itself stands
      for that second character; an unescaped `"` ends the value; every other
      character is copied. Running out of input also ends the value. */
  function Decode(s: string, p: nat, esc: char): (r: Read<string>)
    requires p <= |s|
    ensures p <= r.pos <= |s|
    decreases |s| - p
  {
    if p == |s| then Read([], p)
    else if s[p] == esc && p + 1 < |s| && (s[p + 1] == '"' || s[p + 1] == esc) then
      var rest := Decode(s, p + 2, esc);
      Read([s[p + 1]] + rest.val, rest.pos)
    else if s[p] == '"' then Read([], p + 1)
    else
      var rest := Decode(s, p + 1, esc);
      Read([s[p]] + rest.val, rest.pos)
  }

  /** A value is never longer than the text it was read from, and unless
      the input ran out, the last character consumed is its closing quote. */
  lemma {:induction false} DecodeSpec(s: string, p: nat, esc: char)
    requires p <= |s|
    ensures var r := Decode(s, p, esc);
      && |r.val| <= r.pos - p
      && (r.pos == |s| || (p < r.pos && s[r.pos - 1] == '"'))
    decreases |s| - p
  {
    if p == |s| {
    } else if s[p] == esc && p + 1 < |s| && (s[p + 1] == '"' || s[p + 1] == esc) {
      DecodeSpec(s, p + 2, esc);
    } else if s[p] == '"' {
    } else {
      DecodeSpec(s, p + 1, esc);
    }
  }

  /** `_get_value`: a value must open with `"`. */
  function Value(s: string, p: nat, esc: char): (r: Result<Read<string>, ParseError>)
    requires p <= |s|
    ensures r.Err? <==> TokenAt(s, p) != Some('"')
    ensures r.Err? ==> r.error == UnexpectedToken(Some('"'), TokenAt(s, p))
    ensures r.Ok? ==> p < r.value.pos <= |s|
  {
    if TokenAt(s, p) != Some('"') then Err(UnexpectedToken(Some('"'), TokenAt(s, p)))
    else Ok(Decode(s, p + 1, esc))
  }
}
