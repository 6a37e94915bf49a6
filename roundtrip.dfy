/** What the parser recovers from well-formed text: every reader, run on the
    rendering of a part, returns that part and stops right after it. Put
    together, parsing a rendered row yields one record per column, built by
    writing the column's fields into an empty record in order. */
module RoundTrip {
  import opened Wrappers
  import opened Types
  import opened Scanner
  import opened Grammar
  import opened Render
  import opened Positions
  import opened Properties

  /** `_get_value` inverts `Escape`: the escaped text and its closing quote,
      followed by a space or end of input, decode to the original value. */
  lemma {:induction false} DecodeEscaped(s: string, p: nat, v: string, esc: char)
    requires At(s, p, Escape(v, esc) + ['"']) && Boundary(s, p + |Escape(v, esc)| + 1)
    ensures Decode(s, p, esc) == Read(v, p + |Escape(v, esc)| + 1)
    decreases |v|
  {
    var e := Escape(v, esc);
    if v == [] {
      AtIndex(s, p, e + ['"'], 0);
    } else {
      var head := if v[0] == '"' || v[0] == esc then [esc, v[0]] else [v[0]];
      var rest := Escape(v[1..], esc);
      assert e + ['"'] == head + (rest + ['"']);
      AtSplit(s, p, head, rest + ['"'], p + |head|);
      AtIndex(s, p, head, 0);
      if |head| == 2 {
        AtIndex(s, p, head, 1);
      } else {
        AtIndex(s, p + 1, rest + ['"'], 0);
      }
      DecodeEscaped(s, p + |head|, v[1..], esc);
      assert v == [v[0]] + v[1..];
    }
  }

  /** `strip('"')` undoes the quotes around a quoted key and leaves a bare
      key alone. */
  lemma KeyTextStripped(pair: Pair)
    requires WellFormedPair(pair)
    ensures StripQuotes(KeyText(pair)) == pair.key
  {
    if pair.quoted {
      assert KeyText(pair) == Repeat('"', 1) + pair.key + Repeat('"', 1);
      StripQuotesPadded(1, pair.key, 1);
    } else {
      assert KeyText(pair) == Repeat('"', 0) + pair.key + Repeat('"', 0);
      StripQuotesPadded(0, pair.key, 0);
    }
  }

  /** The first `=` after the first character of a rendered key is the one
      that follows the key. */
  lemma KeyEndAt(s: string, p: nat, pair: Pair)
    requires WellFormedPair(pair) && At(s, p, KeyText(pair) + ['='])
    ensures KeyEnd(s, p + 1) == p + |KeyText(pair)|
  {
    var t := KeyText(pair);
    AtSplit(s, p, t, ['='], p + |t|);
    AtIndex(s, p, t + ['='], |t|);
    assert forall i | 0 <= i < |t| :: t[i] != '=';
    var e := KeyEnd(s, p + 1);
    KeyEndSpec(s, p + 1);
    if e < p + |t| {
      AtIndex(s, p, t, e - p);
    }
  }

  /** `_get_key` on a rendered key: the key comes back without its quotes,
      and the `=` after it is consumed. */
  lemma KeyAt(s: string, p: nat, pair: Pair)
    requires WellFormedPair(pair) && At(s, p, KeyText(pair) + ['='])
    ensures Key(s, p) == Ok(Read(pair.key, p + |KeyText(pair)| + 1))
  {
    KeyEndAt(s, p, pair);
    KeyTextStripped(pair);
    AtSplit(s, p, KeyText(pair), ['='], p + |KeyText(pair)|);
    SliceAt(s, p, KeyText(pair));
  }

  /** `_get_key_value` when the key and the value are known to read. */
  lemma KeyValueSteps(s: string, p0: nat, esc: char, a: nat, k: string, v: string, b: nat, c: nat)
    requires p0 <= |s| && b <= |s| && SkipSpaces(s, p0) == a
    requires Key(s, a) == Ok(Read(k, b)) && Value(s, b, esc) == Ok(Read(v, c))
    ensures KeyValue(s, p0, esc) == Ok(Read((k, v), c))
  {
  }

  /** `_get_value` on a rendered value: its opening quote, the escaped text
      and the closing quote. */
  lemma ValueAt(s: string, p: nat, v: string, esc: char)
    requires At(s, p, ['"'] + (Escape(v, esc) + ['"'])) && Boundary(s, p + |Escape(v, esc)| + 2)
    ensures Value(s, p, esc) == Ok(Read(v, p + |Escape(v, esc)| + 2))
  {
    AtSplit(s, p, ['"'], Escape(v, esc) + ['"'], p + 1);
    AtIndex(s, p, ['"'], 0);
    DecodeEscaped(s, p + 1, v, esc);
  }

  /** `_get_key_value` on a rendered entry, after any number of spaces; the
      entry ends at `e`. */
  lemma PairAt(s: string, p0: nat, p: nat, pair: Pair, esc: char, e: nat)
    requires e == p + |PairText(pair, esc)|
    requires WellFormedPair(pair) && At(s, p, PairText(pair, esc)) && Boundary(s, e)
    requires p0 <= p && SkipSpaces(s, p0) == p
    ensures KeyValue(s, p0, esc) == Ok(Read((pair.key, pair.value), e))
  {
    var t := KeyText(pair);
    var v := Escape(pair.value, esc);
    var b := p + |t| + 1;
    var rest := ['"'] + (v + ['"']);
    assert At(s, p, t + ['=']) && At(s, b, rest) by {
      assert PairText(pair, esc) == (t + ['=']) + rest;
      AtSplit(s, p, t + ['='], rest, b);
    }
    assert Key(s, p) == Ok(Read(pair.key, b)) by {
      KeyAt(s, p, pair);
    }
    assert Value(s, b, esc) == Ok(Read(pair.value, e)) by {
      ValueAt(s, b, pair.value, esc);
    }
    KeyValueSteps(s, p0, esc, p, pair.key, pair.value, b, e);
  }

  /** One turn of the multivalue loop, once its entry and the keyword after
      it are known. */
  lemma MultivalueStep(s: string, cfg: Config, q: nat, mainKey: string, values: seq<string>,
                       k: string, v: string, r: nat, next: Read<Option<string>>)
    requires q <= |s| && r <= |s| && ValidEscape(cfg)
    requires KeyValue(s, q, Esc(cfg)) == Ok(Read((k, v), r)) && ScanKeyword(s, r) == next
    ensures MultivalueLoop(s, cfg, q, Some(cfg.mvsep), mainKey, values)
      == if k != mainKey then Err(MultivalueKeyMismatch(mainKey, k))
         else MultivalueLoop(s, cfg, next.pos, next.val, mainKey, values + [v])
  {
  }

  /** A rendered entry between two spaces, the second at `r`, then a keyword
      ending at `n` and more text: `_get_key_value` reads the entry and
      `_next_keyword` the keyword. */
  lemma EntryThen(s: string, esc: char, q: nat, pair: Pair, kw: string, tail: string, r: nat, n: nat)
    requires WellFormedPair(pair) && IsKeyword(kw)
    requires r == q + 1 + |PairText(pair, esc)| && n == r + 1 + |kw|
    requires At(s, q, [' '] + PairText(pair, esc) + [' '] + (kw + tail)) && Boundary(s, n)
    ensures KeyValue(s, q, esc) == Ok(Read((pair.key, pair.value), r))
    ensures ScanKeyword(s, r) == Read(Some(kw), n)
    ensures At(s, n, tail)
  {
    var pt := PairText(pair, esc);
    Spaced(s, q, pt, kw + tail, r);
    assert pt[0] == KeyText(pair)[0];
    AtIndex(s, q + 1, pt, 0);
    SkipOne(s, q);
    PairAt(s, q, q + 1, pair, esc, r);
    KeywordAfter(s, r, kw, tail, n);
  }

  /** The last entry of a group, and the keyword `close` after it. */
  lemma EntryLast(s: string, cfg: Config, q: nat, es: seq<Pair>, close: string, r: nat, e: nat)
    requires Renderable(cfg) && |es| == 1 && WellFormedPair(es[0]) && IsKeyword(close)
    requires r == q + 1 + |PairText(es[0], Esc(cfg))| && e == q + |EntriesText(es, cfg, close)|
    requires At(s, q, EntriesText(es, cfg, close)) && Boundary(s, e)
    ensures e == r + 1 + |close|
    ensures KeyValue(s, q, Esc(cfg)) == Ok(Read((es[0].key, es[0].value), r))
    ensures ScanKeyword(s, r) == Read(Some(close), e)
  {
    assert EntriesText(es, cfg, close) == [' '] + PairText(es[0], Esc(cfg)) + [' '] + (close + []);
    EntryThen(s, Esc(cfg), q, es[0], close, [], r, e);
  }

  /** An entry that the multivalue separator, ending at `n`, and more entries
      follow. */
  lemma EntryInner(s: string, cfg: Config, q: nat, es: seq<Pair>, close: string, r: nat, n: nat)
    requires Renderable(cfg) && |es| > 1 && WellFormedPair(es[0])
    requires r == q + 1 + |PairText(es[0], Esc(cfg))| && n == r + 1 + |cfg.mvsep|
    requires At(s, q, EntriesText(es, cfg, close))
    ensures n + |EntriesText(es[1..], cfg, close)| == q + |EntriesText(es, cfg, close)|
    ensures KeyValue(s, q, Esc(cfg)) == Ok(Read((es[0].key, es[0].value), r))
    ensures ScanKeyword(s, r) == Read(Some(cfg.mvsep), n)
    ensures At(s, n, EntriesText(es[1..], cfg, close))
  {
    var pt := PairText(es[0], Esc(cfg));
    var rest := EntriesText(es[1..], cfg, close);
    var head := [' '] + pt + [' '] + cfg.mvsep;
    assert EntriesText(es, cfg, close) == head + rest;
    assert EntriesText(es, cfg, close) == [' '] + pt + [' '] + (cfg.mvsep + rest);
    AtSplit(s, q, head, rest, n);
    AtIndex(s, n, rest, 0);
    EntryThen(s, Esc(cfg), q, es[0], cfg.mvsep, rest, r, n);
  }

  /** The first entry of several decides the first turn of the multivalue
      loop: a key other than the group's stops it, the group's key carries on
      after the separator at `n`. */
  lemma EntriesHead(s: string, cfg: Config, q: nat, es: seq<Pair>, close: string, e: nat, mainKey: string,
                    values: seq<string>, r: nat, n: nat)
    requires Renderable(cfg) && |es| > 1 && PairsWellFormed(es)
    requires r == q + 1 + |PairText(es[0], Esc(cfg))| && n == r + 1 + |cfg.mvsep|
    requires e == q + |EntriesText(es, cfg, close)| && At(s, q, EntriesText(es, cfg, close)) && Boundary(s, e)
    ensures e == n + |EntriesText(es[1..], cfg, close)| && At(s, n, EntriesText(es[1..], cfg, close)) && PairsWellFormed(es[1..])
    ensures MultivalueLoop(s, cfg, q, Some(cfg.mvsep), mainKey, values)
      == if es[0].key != mainKey then Err(MultivalueKeyMismatch(mainKey, es[0].key))
         else MultivalueLoop(s, cfg, n, Some(cfg.mvsep), mainKey, values + [es[0].value])
  {
    EntryInner(s, cfg, q, es, close, r, n);
    MultivalueStep(s, cfg, q, mainKey, values, es[0].key, es[0].value, r, Read(Some(cfg.mvsep), n));
  }

  /** The multivalue loop over the single entry of a group. */
  lemma EntriesOne(s: string, cfg: Config, q: nat, es: seq<Pair>, close: string, e: nat, mainKey: string,
                   values: seq<string>)
    requires Renderable(cfg) && |es| == 1 && PairsWellFormed(es) && IsKeyword(close) && close != cfg.mvsep
    requires e == q + |EntriesText(es, cfg, close)| && At(s, q, EntriesText(es, cfg, close)) && Boundary(s, e)
    ensures FirstOtherKey(es, mainKey).None? ==>
      MultivalueLoop(s, cfg, q, Some(cfg.mvsep), mainKey, values) == Ok(Step(values + Values(es), e, Some(close)))
    ensures FirstOtherKey(es, mainKey).Some? ==>
      MultivalueLoop(s, cfg, q, Some(cfg.mvsep), mainKey, values)
        == Err(MultivalueKeyMismatch(mainKey, FirstOtherKey(es, mainKey).value))
  {
    var r := q + 1 + |PairText(es[0], Esc(cfg))|;
    EntryLast(s, cfg, q, es, close, r, e);
    MultivalueStep(s, cfg, q, mainKey, values, es[0].key, es[0].value, r, Read(Some(close), e));
    assert Values(es) == [es[0].value];
  }

  /** What the loop gives after the group's key, in terms of the remaining
      entries, is what it gives for all of them. */
  lemma EntriesCons(es: seq<Pair>, close: string, mainKey: string, values: seq<string>, e: nat,
                    loop: Result<Step<seq<string>>, ParseError>)
    requires |es| > 1 && es[0].key == mainKey
    requires FirstOtherKey(es[1..], mainKey).None? ==>
      loop == Ok(Step(values + [es[0].value] + Values(es[1..]), e, Some(close)))
    requires FirstOtherKey(es[1..], mainKey).Some? ==>
      loop == Err(MultivalueKeyMismatch(mainKey, FirstOtherKey(es[1..], mainKey).value))
    ensures FirstOtherKey(es, mainKey).None? ==> loop == Ok(Step(values + Values(es), e, Some(close)))
    ensures FirstOtherKey(es, mainKey).Some? ==>
      loop == Err(MultivalueKeyMismatch(mainKey, FirstOtherKey(es, mainKey).value))
  {
    assert Values(es) == [es[0].value] + Values(es[1..]);
    assert values + Values(es) == values + [es[0].value] + Values(es[1..]);
  }

  /** The multivalue loop over rendered entries ending at `e` collects their
      values in order, or stops at the first entry whose key differs from
      the group's. */
  lemma {:induction false} EntriesAt(s: string, cfg: Config, q: nat, es: seq<Pair>, close: string, e: nat,
                                     mainKey: string, values: seq<string>)
    requires Renderable(cfg) && |es| >= 1 && PairsWellFormed(es) && IsKeyword(close) && close != cfg.mvsep
    requires e == q + |EntriesText(es, cfg, close)| && At(s, q, EntriesText(es, cfg, close)) && Boundary(s, e)
    ensures FirstOtherKey(es, mainKey).None? ==>
      MultivalueLoop(s, cfg, q, Some(cfg.mvsep), mainKey, values) == Ok(Step(values + Values(es), e, Some(close)))
    ensures FirstOtherKey(es, mainKey).Some? ==>
      MultivalueLoop(s, cfg, q, Some(cfg.mvsep), mainKey, values)
        == Err(MultivalueKeyMismatch(mainKey, FirstOtherKey(es, mainKey).value))
    decreases |es|
  {
    if |es| == 1 {
      EntriesOne(s, cfg, q, es, close, e, mainKey, values);
    } else {
      var r := q + 1 + |PairText(es[0], Esc(cfg))|;
      var n := r + 1 + |cfg.mvsep|;
      EntriesHead(s, cfg, q, es, close, e, mainKey, values, r, n);
      if es[0].key == mainKey {
        EntriesAt(s, cfg, n, es[1..], close, e, mainKey, values + [es[0].value]);
        EntriesCons(es, close, mainKey, values, e, MultivalueLoop(s, cfg, q, Some(cfg.mvsep), mainKey, values));
      }
    }
  }

  /** `_get_key_multivalue` on a rendered group ending at `e`: the first
      entry's key and every value in source order when the group is closed by
      `)`, the unexpected keyword when it is closed by another, or the
      mismatch error for the first entry whose key differs. */
  lemma GroupAt(s: string, cfg: Config, a: nat, es: seq<Pair>, close: string, e: nat)
    requires Renderable(cfg) && |es| >= 1 && PairsWellFormed(es) && IsKeyword(close) && close != cfg.mvsep
    requires e == a + 1 + |EntriesText(es, cfg, close)|
    requires At(s, a, ['('] + EntriesText(es, cfg, close)) && Boundary(s, e)
    ensures FirstOtherKey(es, es[0].key).None? && close == ")" ==>
      Group(s, cfg, a) == Ok(Step((es[0].key, Values(es)), e, Some(")")))
    ensures FirstOtherKey(es, es[0].key).None? && close != ")" ==>
      Group(s, cfg, a) == Err(UnexpectedKeyword(")", Some(close)))
    ensures FirstOtherKey(es, es[0].key).Some? ==>
      Group(s, cfg, a) == Err(MultivalueKeyMismatch(es[0].key, FirstOtherKey(es, es[0].key).value))
  {
    AtSplit(s, a, ['('], EntriesText(es, cfg, close), a + 1);
    AtIndex(s, a, ['('], 0);
    var r := a + 2 + |PairText(es[0], Esc(cfg))|;
    if |es| == 1 {
      EntryLast(s, cfg, a + 1, es, close, r, e);
    } else {
      EntryInner(s, cfg, a + 1, es, close, r, r + 1 + |cfg.mvsep|);
    }
    GroupByLoop(s, cfg, a);
    EntriesAt(s, cfg, a + 1, es, close, e, es[0].key, []);
    assert [] + Values(es) == Values(es);
  }

  lemma FieldPlain(s: string, cfg: Config, q: nat, a: nat, k: string, v: string, r: nat)
    requires q <= |s| && ValidEscape(cfg) && SkipSpaces(s, q) == a && TokenAt(s, a) != Some('(')
    requires KeyValue(s, a, Esc(cfg)) == Ok(Read((k, v), r))
    ensures Field(s, cfg, q) == Ok(Read((k, Single(v)), r))
  {
  }

  lemma FieldGroup(s: string, cfg: Config, q: nat, a: nat, k: string, vs: seq<string>, r: nat)
    requires q <= |s| && ValidEscape(cfg) && SkipSpaces(s, q) == a && TokenAt(s, a) == Some('(')
    requires Group(s, cfg, a) == Ok(Step((k, vs), r, Some(")")))
    ensures Field(s, cfg, q) == Ok(Read((k, Multi(vs)), r))
  {
  }

  /** A plain rendered field after a space and before the space at `r`. */
  lemma PlainFieldAt(s: string, cfg: Config, q: nat, p: Pair, r: nat)
    requires ValidEscape(cfg) && WellFormedPair(p) && r == q + 1 + |PairText(p, Esc(cfg))|
    requires r < |s| && s[q] == ' ' && At(s, q + 1, PairText(p, Esc(cfg))) && s[r] == ' '
    ensures Field(s, cfg, q) == Ok(Read((p.key, Single(p.value)), r))
  {
    var pt := PairText(p, Esc(cfg));
    assert pt[0] == KeyText(p)[0];
    AtIndex(s, q + 1, pt, 0);
    SkipOne(s, q);
    assert SkipSpaces(s, q + 1) == q + 1;
    PairAt(s, q + 1, q + 1, p, Esc(cfg), r);
    FieldPlain(s, cfg, q, q + 1, p.key, p.value, r);
  }

  /** A rendered group after a space and before the space at `r`. */
  lemma GroupFieldAt(s: string, cfg: Config, q: nat, es: seq<Pair>, r: nat)
    requires Renderable(cfg) && WellFormedField(GroupField(es)) && r == q + 2 + |EntriesText(es, cfg, ")")|
    requires r < |s| && s[q] == ' ' && At(s, q + 1, ['('] + EntriesText(es, cfg, ")")) && s[r] == ' '
    ensures Field(s, cfg, q) == Ok(Read((es[0].key, Multi(Values(es))), r))
  {
    var a := q + 1;
    assert SkipSpaces(s, q) == a && TokenAt(s, a) == Some('(') by {
      AtIndex(s, a, ['('] + EntriesText(es, cfg, ")"), 0);
      SkipOne(s, q);
    }
    assert Group(s, cfg, a) == Ok(Step((es[0].key, Values(es)), r, Some(")"))) by {
      GroupAt(s, cfg, a, es, ")", r);
    }
    FieldGroup(s, cfg, q, a, es[0].key, Values(es), r);
  }

  /** One rendered field after a space and before the space at `r`. */
  lemma FieldAt(s: string, cfg: Config, q: nat, f: FieldText, r: nat)
    requires Renderable(cfg) && WellFormedField(f) && r == q + 1 + |FieldBody(f, cfg)|
    requires r < |s| && s[q] == ' ' && At(s, q + 1, FieldBody(f, cfg)) && s[r] == ' '
    ensures Field(s, cfg, q) == Ok(Read((FieldKey(f), FieldValue(f)), r))
  {
    match f
    case PlainField(p) =>
      PlainFieldAt(s, cfg, q, p, r);
    case GroupField(es) =>
      GroupFieldAt(s, cfg, q, es, r);
  }

  /** A rendered field between two spaces, the second at `r`, then a keyword
      ending at `n` and more text: `Field` reads the field and
      `_next_keyword` the keyword. */
  lemma FieldThen(s: string, cfg: Config, q: nat, f: FieldText, kw: string, tail: string, r: nat, n: nat)
    requires Renderable(cfg) && WellFormedField(f) && IsKeyword(kw)
    requires r == q + 1 + |FieldBody(f, cfg)| && n == r + 1 + |kw|
    requires At(s, q, [' '] + FieldBody(f, cfg) + [' '] + (kw + tail)) && Boundary(s, n)
    ensures Field(s, cfg, q) == Ok(Read((FieldKey(f), FieldValue(f)), r))
    ensures ScanKeyword(s, r) == Read(Some(kw), n)
    ensures At(s, n, tail)
  {
    Spaced(s, q, FieldBody(f, cfg), kw + tail, r);
    FieldAt(s, cfg, q, f, r);
    KeywordAfter(s, r, kw, tail, n);
  }

  /** The last field of a column, and the column end after it. */
  lemma FieldLast(s: string, cfg: Config, q: nat, fs: seq<FieldText>, r: nat, e: nat)
    requires Renderable(cfg) && |fs| == 1 && WellFormedField(fs[0])
    requires r == q + 1 + |FieldBody(fs[0], cfg)| && e == q + |FieldsText(fs, cfg)|
    requires At(s, q, FieldsText(fs, cfg)) && Boundary(s, e)
    ensures e == r + 1 + |cfg.columnEnd|
    ensures Field(s, cfg, q) == Ok(Read((FieldKey(fs[0]), FieldValue(fs[0])), r))
    ensures ScanKeyword(s, r) == Read(Some(cfg.columnEnd), e)
  {
    assert FieldsText(fs, cfg) == [' '] + FieldBody(fs[0], cfg) + [' '] + (cfg.columnEnd + []);
    FieldThen(s, cfg, q, fs[0], cfg.columnEnd, [], r, e);
  }

  /** A field that the column separator, ending at `n`, and more fields
      follow. */
  lemma FieldInner(s: string, cfg: Config, q: nat, fs: seq<FieldText>, r: nat, n: nat)
    requires Renderable(cfg) && |fs| > 1 && WellFormedField(fs[0])
    requires r == q + 1 + |FieldBody(fs[0], cfg)| && n == r + 1 + |cfg.columnSeparator|
    requires At(s, q, FieldsText(fs, cfg))
    ensures n + |FieldsText(fs[1..], cfg)| == q + |FieldsText(fs, cfg)|
    ensures Field(s, cfg, q) == Ok(Read((FieldKey(fs[0]), FieldValue(fs[0])), r))
    ensures ScanKeyword(s, r) == Read(Some(cfg.columnSeparator), n)
    ensures At(s, n, FieldsText(fs[1..], cfg))
  {
    var body := FieldBody(fs[0], cfg);
    var rest := FieldsText(fs[1..], cfg);
    var head := [' '] + body + [' '] + cfg.columnSeparator;
    assert FieldsText(fs, cfg) == head + rest;
    assert FieldsText(fs, cfg) == [' '] + body + [' '] + (cfg.columnSeparator + rest);
    AtSplit(s, q, head, rest, n);
    AtIndex(s, n, rest, 0);
    FieldThen(s, cfg, q, fs[0], cfg.columnSeparator, rest, r, n);
  }

  /** One turn of the field loop, once its field and the keyword after it are
      known. */
  lemma FieldsStep(s: string, cfg: Config, q: nat, kw: Option<string>, record: Record,
                   k: string, v: FieldVal, r: nat, next: Read<Option<string>>)
    requires ValidEscape(cfg) && q < |s| && r <= |s|
    requires Field(s, cfg, q) == Ok(Read((k, v), r)) && ScanKeyword(s, r) == next
    ensures FieldsLoop(s, cfg, q, kw, record)
      == if next.val != Some(cfg.columnSeparator) then Ok(Step(record[k := v], next.pos, next.val))
         else FieldsLoop(s, cfg, next.pos, next.val, record[k := v])
  {
  }

  /** The field loop of `_parse_column` over rendered fields ending at `e`
      writes every field into the record in order and stops at the column
      end. */
  lemma {:induction false} FieldsAt(s: string, cfg: Config, q: nat, fs: seq<FieldText>, e: nat,
                                    kw: Option<string>, record: Record)
    requires Renderable(cfg) && |fs| >= 1 && FieldsWellFormed(fs)
    requires e == q + |FieldsText(fs, cfg)| && At(s, q, FieldsText(fs, cfg)) && Boundary(s, e)
    ensures FieldsLoop(s, cfg, q, kw, record) == Ok(Step(Assign(record, fs), e, Some(cfg.columnEnd)))
    decreases |fs|
  {
    var r := q + 1 + |FieldBody(fs[0], cfg)|;
    var record' := record[FieldKey(fs[0]) := FieldValue(fs[0])];
    AtIndex(s, q, FieldsText(fs, cfg), 0);
    if |fs| == 1 {
      FieldLast(s, cfg, q, fs, r, e);
      FieldsStep(s, cfg, q, kw, record, FieldKey(fs[0]), FieldValue(fs[0]), r, Read(Some(cfg.columnEnd), e));
      assert Assign(record, fs) == Assign(record', []);
    } else {
      var n := r + 1 + |cfg.columnSeparator|;
      FieldInner(s, cfg, q, fs, r, n);
      FieldsStep(s, cfg, q, kw, record, FieldKey(fs[0]), FieldValue(fs[0]), r, Read(Some(cfg.columnSeparator), n));
      FieldsAt(s, cfg, n, fs[1..], e, Some(cfg.columnSeparator), record');
    }
  }

  /** `_parse_column` on rendered fields ending at `e`, after the column
      prefix. */
  lemma ColumnAt(s: string, cfg: Config, c: nat, fs: seq<FieldText>, e: nat)
    requires Renderable(cfg) && |fs| >= 1 && FieldsWellFormed(fs)
    requires e == c + |FieldsText(fs, cfg)| && At(s, c, FieldsText(fs, cfg)) && Boundary(s, e)
    ensures Column(s, cfg, c, Some(cfg.columnPrefix)) == Ok(Step(Assign(map[], fs), e, Some(cfg.columnEnd)))
  {
    FieldsAt(s, cfg, c, fs, e, Some(cfg.columnPrefix), map[]);
  }

  /** A rendered column after a space, then a keyword and more text:
      `_next_keyword` finds the column prefix, which ends at `c`, the fields
      follow up to `e`, and `_next_keyword` finds the keyword after them,
      which ends at `n`. */
  lemma ColumnThen(s: string, cfg: Config, q: nat, fs: seq<FieldText>, kw: string, tail: string,
                   c: nat, e: nat, n: nat)
    requires Renderable(cfg) && |fs| >= 1 && FieldsWellFormed(fs) && IsKeyword(kw)
    requires c == q + 1 + |cfg.columnPrefix| && e == c + |FieldsText(fs, cfg)| && n == e + 1 + |kw|
    requires At(s, q, [' '] + cfg.columnPrefix + FieldsText(fs, cfg) + [' '] + (kw + tail)) && Boundary(s, n)
    ensures ScanKeyword(s, q) == Read(Some(cfg.columnPrefix), c)
    ensures At(s, c, FieldsText(fs, cfg)) && Boundary(s, e)
    ensures ScanKeyword(s, e) == Read(Some(kw), n)
    ensures At(s, n, tail)
  {
    Spaced2(s, q, cfg.columnPrefix, FieldsText(fs, cfg), kw + tail, c, e);
    AtIndex(s, c, FieldsText(fs, cfg), 0);
    KeywordAt(s, q, cfg.columnPrefix, c);
    KeywordAfter(s, e, kw, tail, n);
  }

  /** The last column of a row, and the row end after it, which ends at
      `z`. */
  lemma ColumnLast(s: string, cfg: Config, q: nat, cols: seq<seq<FieldText>>, c: nat, e: nat, z: nat)
    requires Renderable(cfg) && |cols| == 1 && WellFormedColumns(cols)
    requires c == q + 1 + |cfg.columnPrefix| && e == c + |FieldsText(cols[0], cfg)|
    requires z == q + |ColumnsText(cols, cfg)|
    requires At(s, q, ColumnsText(cols, cfg)) && Boundary(s, z)
    ensures z == e + 1 + |cfg.rowEnd|
    ensures ScanKeyword(s, q) == Read(Some(cfg.columnPrefix), c)
    ensures At(s, c, FieldsText(cols[0], cfg)) && Boundary(s, e)
    ensures ScanKeyword(s, e) == Read(Some(cfg.rowEnd), z)
  {
    var ft := FieldsText(cols[0], cfg);
    assert ColumnsText(cols, cfg) == [' '] + cfg.columnPrefix + ft + [' '] + (cfg.rowEnd + []);
    ColumnThen(s, cfg, q, cols[0], cfg.rowEnd, [], c, e, z);
  }

  /** A column that the row separator, ending at `n`, and more columns
      follow. */
  lemma ColumnInner(s: string, cfg: Config, q: nat, cols: seq<seq<FieldText>>, c: nat, e: nat, n: nat)
    requires Renderable(cfg) && |cols| > 1 && WellFormedColumns(cols)
    requires c == q + 1 + |cfg.columnPrefix| && e == c + |FieldsText(cols[0], cfg)|
    requires n == e + 1 + |cfg.rowSeparator|
    requires At(s, q, ColumnsText(cols, cfg))
    ensures n + |ColumnsText(cols[1..], cfg)| == q + |ColumnsText(cols, cfg)|
    ensures ScanKeyword(s, q) == Read(Some(cfg.columnPrefix), c)
    ensures At(s, c, FieldsText(cols[0], cfg)) && Boundary(s, e)
    ensures ScanKeyword(s, e) == Read(Some(cfg.rowSeparator), n)
    ensures At(s, n, ColumnsText(cols[1..], cfg))
  {
    var ft := FieldsText(cols[0], cfg);
    var rest := ColumnsText(cols[1..], cfg);
    var head := [' '] + cfg.columnPrefix + ft + [' '] + cfg.rowSeparator;
    assert ColumnsText(cols, cfg) == head + rest;
    assert ColumnsText(cols, cfg) == [' '] + cfg.columnPrefix + ft + [' '] + (cfg.rowSeparator + rest);
    AtSplit(s, q, head, rest, n);
    AtIndex(s, n, rest, 0);
    ColumnThen(s, cfg, q, cols[0], cfg.rowSeparator, rest, c, e, n);
  }

  /** One turn of the column loop, once the column prefix, the column and the
      keyword after it are known. */
  lemma RowStep(s: string, cfg: Config, q: nat, kw: Option<string>, rows: seq<Record>,
                first: Read<Option<string>>, column: Step<Record>, next: Read<Option<string>>)
    requires ValidEscape(cfg) && q < |s| && first.pos <= |s| && column.pos <= |s|
    requires ScanKeyword(s, q) == first && Column(s, cfg, first.pos, first.val) == Ok(column)
    requires ScanKeyword(s, column.pos) == next
    ensures RowLoop(s, cfg, q, kw, rows)
      == if next.val != Some(cfg.rowSeparator) then Ok(Step(rows + [column.val], next.pos, next.val))
         else RowLoop(s, cfg, next.pos, next.val, rows + [column.val])
  {
  }

  /** The column loop over the last column of a row. */
  lemma ColumnsOne(s: string, cfg: Config, q: nat, cols: seq<seq<FieldText>>, z: nat,
                   kw: Option<string>, rows: seq<Record>)
    requires Renderable(cfg) && |cols| == 1 && WellFormedColumns(cols)
    requires z == q + |ColumnsText(cols, cfg)| && At(s, q, ColumnsText(cols, cfg)) && Boundary(s, z)
    ensures RowLoop(s, cfg, q, kw, rows) == Ok(Step(rows + Records(cols), z, Some(cfg.rowEnd)))
  {
    var c := q + 1 + |cfg.columnPrefix|;
    var e := c + |FieldsText(cols[0], cfg)|;
    var column := Assign(map[], cols[0]);
    AtIndex(s, q, ColumnsText(cols, cfg), 0);
    ColumnLast(s, cfg, q, cols, c, e, z);
    ColumnAt(s, cfg, c, cols[0], e);
    RowStep(s, cfg, q, kw, rows, Read(Some(cfg.columnPrefix), c), Step(column, e, Some(cfg.columnEnd)),
            Read(Some(cfg.rowEnd), z));
    assert Records(cols) == [column];
  }

  /** The first column of several is one turn of the column loop, which
      carries on after the row separator at `n`. */
  lemma ColumnsHead(s: string, cfg: Config, q: nat, cols: seq<seq<FieldText>>, z: nat,
                    kw: Option<string>, rows: seq<Record>, n: nat)
    requires Renderable(cfg) && |cols| > 1 && WellFormedColumns(cols)
    requires n == q + 2 + |cfg.columnPrefix| + |FieldsText(cols[0], cfg)| + |cfg.rowSeparator|
    requires z == q + |ColumnsText(cols, cfg)| && At(s, q, ColumnsText(cols, cfg)) && Boundary(s, z)
    ensures z == n + |ColumnsText(cols[1..], cfg)| && At(s, n, ColumnsText(cols[1..], cfg))
    ensures WellFormedColumns(cols[1..])
    ensures RowLoop(s, cfg, q, kw, rows) == RowLoop(s, cfg, n, Some(cfg.rowSeparator), rows + [Assign(map[], cols[0])])
  {
    var c := q + 1 + |cfg.columnPrefix|;
    var e := c + |FieldsText(cols[0], cfg)|;
    var column := Assign(map[], cols[0]);
    AtIndex(s, q, ColumnsText(cols, cfg), 0);
    ColumnInner(s, cfg, q, cols, c, e, n);
    ColumnAt(s, cfg, c, cols[0], e);
    RowStep(s, cfg, q, kw, rows, Read(Some(cfg.columnPrefix), c), Step(column, e, Some(cfg.columnEnd)),
            Read(Some(cfg.rowSeparator), n));
  }

  /** The records of several columns: the first column's, then the rest. */
  lemma RecordsCons(rows: seq<Record>, cols: seq<seq<FieldText>>)
    requires |cols| > 1
    ensures rows + Records(cols) == rows + [Assign(map[], cols[0])] + Records(cols[1..])
  {
    assert Records(cols) == [Assign(map[], cols[0])] + Records(cols[1..]);
  }

  /** The column loop of `_parse_row` over rendered columns ending at `z`
      reads one record per column and stops at the row end. */
  lemma {:induction false} ColumnsAt(s: string, cfg: Config, q: nat, cols: seq<seq<FieldText>>, z: nat,
                                     kw: Option<string>, rows: seq<Record>)
    requires Renderable(cfg) && WellFormedColumns(cols)
    requires z == q + |ColumnsText(cols, cfg)| && At(s, q, ColumnsText(cols, cfg)) && Boundary(s, z)
    ensures RowLoop(s, cfg, q, kw, rows) == Ok(Step(rows + Records(cols), z, Some(cfg.rowEnd)))
    decreases |cols|
  {
    if |cols| == 1 {
      ColumnsOne(s, cfg, q, cols, z, kw, rows);
    } else {
      var n := q + 2 + |cfg.columnPrefix| + |FieldsText(cols[0], cfg)| + |cfg.rowSeparator|;
      ColumnsHead(s, cfg, q, cols, z, kw, rows, n);
      ColumnsAt(s, cfg, n, cols[1..], z, Some(cfg.rowSeparator), rows + [Assign(map[], cols[0])]);
      RecordsCons(rows, cols);
    }
  }

  /** `_parse_format` and `_parse_row` once the columns are known to read. */
  lemma FormatSteps(s: string, cfg: Config, a: nat, rs: seq<Record>)
    requires Renderable(cfg) && a <= |s|
    requires ScanKeyword(s, 0) == Read(Some(cfg.rowPrefix), a)
    requires RowLoop(s, cfg, a, Some(cfg.rowPrefix), []).Ok?
    requires RowLoop(s, cfg, a, Some(cfg.rowPrefix), []).value.val == rs
    requires RowLoop(s, cfg, a, Some(cfg.rowPrefix), []).value.keyword == Some(cfg.rowEnd)
    ensures ParseResult(s, cfg) == Ok(rs)
  {
  }

  /** A rendered row with text after it: `_next_keyword` finds the row
      prefix, the columns follow it and end at `z` on a boundary. */
  lemma RowStart(s: string, cols: seq<seq<FieldText>>, cfg: Config, rest: string, z: nat)
    requires Renderable(cfg) && ColumnsNonEmpty(cols) && (rest == [] || rest[0] == ' ')
    requires s == RenderRow(cols, cfg) + rest && z == |cfg.rowPrefix| + |ColumnsText(cols, cfg)|
    ensures ScanKeyword(s, 0) == Read(Some(cfg.rowPrefix), |cfg.rowPrefix|)
    ensures At(s, |cfg.rowPrefix|, ColumnsText(cols, cfg)) && Boundary(s, z)
  {
    var pre := cfg.rowPrefix;
    var ct := ColumnsText(cols, cfg);
    assert s[0..z] == pre + ct;
    AtSlice(s, 0, pre + ct);
    AtSplit(s, 0, pre, ct, |pre|);
    AtIndex(s, 0, pre, 0);
    AtIndex(s, |pre|, ct, 0);
    assert SkipSpaces(s, 0) == 0;
    ScanAt(s, 0, 0, pre, |pre|);
    if rest != [] {
      assert s[z] == rest[0];
    }
  }

  /** Parsing a rendered row gives back one record per column. Whatever
      follows the row end after a space is not looked at. */
  lemma ParseRendered(cols: seq<seq<FieldText>>, cfg: Config, rest: string)
    requires Renderable(cfg) && WellFormedColumns(cols)
    requires rest == [] || rest[0] == ' '
    ensures ParseResult(RenderRow(cols, cfg) + rest, cfg) == Ok(Records(cols))
  {
    var s := RenderRow(cols, cfg) + rest;
    var pre := cfg.rowPrefix;
    var z := |pre| + |ColumnsText(cols, cfg)|;
    RowStart(s, cols, cfg, rest, z);
    ColumnsAt(s, cfg, |pre|, cols, z, Some(pre), []);
    assert [] + Records(cols) == Records(cols);
    FormatSteps(s, cfg, |pre|, Records(cols));
  }
}
