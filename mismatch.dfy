/** What the parse reports when the keyword that should close a group, a
    column or a row is some other keyword: `_match_keyword` fails, naming the
    keyword it expected and the one it found. A rendered row with one closing
    keyword swapped is read under the configuration it was rendered with,
    which differs from the parser's in that one delimiter only, so the
    readers are first shown not to depend on the delimiters they never look
    at. */
module Mismatch {
  import opened Wrappers
  import opened Types
  import opened Scanner
  import opened Grammar
  import opened Render
  import opened Positions
  import opened RoundTrip

  /** Two configurations that read a field alike: the same multivalue
      separator and the same escape character. */
  predicate SameFieldSyntax(c1: Config, c2: Config) {
    c1.mvsep == c2.mvsep && c1.escapeChar == c2.escapeChar
  }

  /** Two configurations that read the fields of a column alike. */
  predicate SameFieldsSyntax(c1: Config, c2: Config) {
    SameFieldSyntax(c1, c2) && c1.columnSeparator == c2.columnSeparator
  }

  /** Two configurations that read the columns of a row alike. */
  predicate SameColumnsSyntax(c1: Config, c2: Config) {
    && SameFieldsSyntax(c1, c2)
    && c1.columnPrefix == c2.columnPrefix && c1.columnEnd == c2.columnEnd
    && c1.rowSeparator == c2.rowSeparator
  }

  /** The multivalue loop reads only the separator and the escape
      character. */
  lemma {:induction false} MultivalueLoopSame(s: string, c1: Config, c2: Config, p: nat, kw: Option<string>,
                                              mainKey: string, values: seq<string>)
    requires p <= |s| && ValidEscape(c1) && SameFieldSyntax(c1, c2)
    ensures ValidEscape(c2)
    ensures MultivalueLoop(s, c1, p, kw, mainKey, values) == MultivalueLoop(s, c2, p, kw, mainKey, values)
    decreases |s| - p
  {
    if kw == Some(c1.mvsep) {
      var entry := KeyValue(s, p, Esc(c1));
      if entry.Ok? && entry.value.val.0 == mainKey {
        var next := ScanKeyword(s, entry.value.pos);
        MultivalueLoopSame(s, c1, c2, next.pos, next.val, mainKey, values + [entry.value.val.1]);
      }
    }
  }

  lemma GroupSame(s: string, c1: Config, c2: Config, p: nat)
    requires p <= |s| && ValidEscape(c1) && SameFieldSyntax(c1, c2)
    ensures ValidEscape(c2) && Group(s, c1, p) == Group(s, c2, p)
  {
    assert Esc(c1) == Esc(c2);
    if TokenAt(s, p) == Some('(') {
      var first := KeyValue(s, p + 1, Esc(c1));
      if first.Ok? {
        var next := ScanKeyword(s, first.value.pos);
        MultivalueLoopSame(s, c1, c2, next.pos, next.val, first.value.val.0, [first.value.val.1]);
      }
    }
  }

  lemma FieldSame(s: string, c1: Config, c2: Config, p: nat)
    requires p <= |s| && ValidEscape(c1) && SameFieldSyntax(c1, c2)
    ensures ValidEscape(c2) && Field(s, c1, p) == Field(s, c2, p)
  {
    assert Esc(c1) == Esc(c2);
    var a := SkipSpaces(s, p);
    if TokenAt(s, a) == Some('(') {
      GroupSame(s, c1, c2, a);
    }
  }

  /** The field loop of a column reads only the column separator besides what
      a field is read with. */
  lemma {:induction false} FieldsLoopSame(s: string, c1: Config, c2: Config, p: nat, kw: Option<string>,
                                          record: Record)
    requires p <= |s| && ValidEscape(c1) && SameFieldsSyntax(c1, c2)
    ensures ValidEscape(c2)
    ensures FieldsLoop(s, c1, p, kw, record) == FieldsLoop(s, c2, p, kw, record)
    decreases |s| - p
  {
    if TokenAt(s, p).Some? {
      FieldSame(s, c1, c2, p);
      var field := Field(s, c1, p);
      if field.Ok? {
        var next := ScanKeyword(s, field.value.pos);
        if next.val == Some(c1.columnSeparator) {
          FieldsLoopSame(s, c1, c2, next.pos, next.val, record[field.value.val.0 := field.value.val.1]);
        }
      }
    }
  }

  /** The column loop of a row does not read the row prefix, the row end or
      the empty marker. */
  lemma {:induction false} RowLoopSame(s: string, c1: Config, c2: Config, p: nat, kw: Option<string>,
                                       rows: seq<Record>)
    requires p <= |s| && ValidEscape(c1) && SameColumnsSyntax(c1, c2)
    ensures ValidEscape(c2)
    ensures RowLoop(s, c1, p, kw, rows) == RowLoop(s, c2, p, kw, rows)
    decreases |s| - p
  {
    if TokenAt(s, p).Some? {
      var first := ScanKeyword(s, p);
      FieldsLoopSame(s, c1, c2, first.pos, first.val, map[]);
      assert Column(s, c1, first.pos, first.val) == Column(s, c2, first.pos, first.val);
      var column := Column(s, c1, first.pos, first.val);
      if column.Ok? {
        var next := ScanKeyword(s, column.value.pos);
        if next.val == Some(c1.rowSeparator) {
          RowLoopSame(s, c1, c2, next.pos, next.val, rows + [column.value.val]);
        }
      }
    }
  }

  /** An error in the first column of a row is the error of the whole
      parse. */
  lemma RowColumnErr(s: string, cfg: Config, q: nat, c: nat, err: ParseError)
    requires Renderable(cfg) && c <= |s|
    requires ScanKeyword(s, 0) == Read(Some(cfg.rowPrefix), q)
    requires TokenAt(s, q).Some? && ScanKeyword(s, q) == Read(Some(cfg.columnPrefix), c)
    requires Column(s, cfg, c, Some(cfg.columnPrefix)) == Err(err)
    ensures ParseResult(s, cfg) == Err(err)
  {
    assert RowLoop(s, cfg, q, Some(cfg.rowPrefix), []) == Err(err);
  }

  /** An error in the first field of a column is the column's error. */
  lemma ColumnFieldErr(s: string, cfg: Config, c: nat, err: ParseError)
    requires ValidEscape(cfg) && c <= |s| && TokenAt(s, c).Some? && Field(s, cfg, c) == Err(err)
    ensures Column(s, cfg, c, Some(cfg.columnPrefix)) == Err(err)
  {
  }

  /** The columns of a rendered row whose row end is `k` read as they were
      written, and the column loop stops at `k`. */
  lemma RowEndLoop(s: string, cols: seq<seq<FieldText>>, cfg: Config, k: string, rest: string, z: nat)
    requires Renderable(cfg) && WellFormedColumns(cols) && (rest == [] || rest[0] == ' ')
    requires IsKeyword(k) && k != cfg.rowSeparator
    requires s == RenderRow(cols, cfg.(rowEnd := k)) + rest
    requires z == |cfg.rowPrefix| + |ColumnsText(cols, cfg.(rowEnd := k))|
    ensures ScanKeyword(s, 0) == Read(Some(cfg.rowPrefix), |cfg.rowPrefix|)
    ensures RowLoop(s, cfg, |cfg.rowPrefix|, Some(cfg.rowPrefix), []) == Ok(Step(Records(cols), z, Some(k)))
  {
    var c2 := cfg.(rowEnd := k);
    var q := |cfg.rowPrefix|;
    RowStart(s, cols, c2, rest, z);
    ColumnsAt(s, c2, q, cols, z, Some(cfg.rowPrefix), []);
    assert [] + Records(cols) == Records(cols);
    RowLoopSame(s, cfg, c2, q, Some(cfg.rowPrefix), []);
  }

  /** A rendered row whose row end is another keyword `k`: every column
      reads, and then `_parse_row` reports that it expected the row end and
      found `k`. */
  lemma RowEndMismatch(cols: seq<seq<FieldText>>, cfg: Config, k: string, rest: string)
    requires Renderable(cfg) && WellFormedColumns(cols) && (rest == [] || rest[0] == ' ')
    requires IsKeyword(k) && k != cfg.rowEnd && k != cfg.rowSeparator
    ensures ParseResult(RenderRow(cols, cfg.(rowEnd := k)) + rest, cfg)
      == Err(UnexpectedKeyword(cfg.rowEnd, Some(k)))
  {
    var s := RenderRow(cols, cfg.(rowEnd := k)) + rest;
    RowEndLoop(s, cols, cfg, k, rest, |cfg.rowPrefix| + |ColumnsText(cols, cfg.(rowEnd := k))|);
  }

  /** The start of a rendered row: the row prefix ends at `q`, where the
      first column starts, its prefix ends at `c` and its fields at `e`. */
  lemma FirstColumnAt(s: string, cols: seq<seq<FieldText>>, cfg: Config, rest: string, q: nat, c: nat, e: nat)
    requires Renderable(cfg) && WellFormedColumns(cols) && (rest == [] || rest[0] == ' ')
    requires s == RenderRow(cols, cfg) + rest
    requires q == |cfg.rowPrefix| && c == q + 1 + |cfg.columnPrefix| && e == c + |FieldsText(cols[0], cfg)|
    ensures ScanKeyword(s, 0) == Read(Some(cfg.rowPrefix), q)
    ensures TokenAt(s, q).Some? && ScanKeyword(s, q) == Read(Some(cfg.columnPrefix), c)
    ensures At(s, c, FieldsText(cols[0], cfg)) && Boundary(s, e)
  {
    var z := q + |ColumnsText(cols, cfg)|;
    RowStart(s, cols, cfg, rest, z);
    AtIndex(s, q, ColumnsText(cols, cfg), 0);
    if |cols| == 1 {
      ColumnLast(s, cfg, q, cols, c, e, z);
    } else {
      ColumnInner(s, cfg, q, cols, c, e, e + 1 + |cfg.rowSeparator|);
    }
  }

  /** Rendered fields that end with `k` in place of the column end. */
  lemma ColumnEndErr(s: string, cfg: Config, k: string, c: nat, fs: seq<FieldText>, e: nat)
    requires Renderable(cfg) && Renderable(cfg.(columnEnd := k)) && k != cfg.columnEnd
    requires |fs| >= 1 && FieldsWellFormed(fs)
    requires e == c + |FieldsText(fs, cfg.(columnEnd := k))| && At(s, c, FieldsText(fs, cfg.(columnEnd := k)))
    requires Boundary(s, e)
    ensures Column(s, cfg, c, Some(cfg.columnPrefix)) == Err(UnexpectedKeyword(cfg.columnEnd, Some(k)))
  {
    var c2 := cfg.(columnEnd := k);
    FieldsAt(s, c2, c, fs, e, Some(cfg.columnPrefix), map[]);
    FieldsLoopSame(s, cfg, c2, c, Some(cfg.columnPrefix), map[]);
  }

  /** A rendered row whose first column ends with another keyword `k`: its
      fields read, and then `_parse_column` reports that it expected the
      column end and found `k`. */
  lemma ColumnEndMismatch(cols: seq<seq<FieldText>>, cfg: Config, k: string, rest: string)
    requires Renderable(cfg) && WellFormedColumns(cols) && (rest == [] || rest[0] == ' ')
    requires IsKeyword(k) && k != cfg.columnEnd && k != cfg.columnSeparator
    ensures ParseResult(RenderRow(cols, cfg.(columnEnd := k)) + rest, cfg)
      == Err(UnexpectedKeyword(cfg.columnEnd, Some(k)))
  {
    var c2 := cfg.(columnEnd := k);
    var s := RenderRow(cols, c2) + rest;
    var q := |cfg.rowPrefix|;
    var c := q + 1 + |cfg.columnPrefix|;
    var e := c + |FieldsText(cols[0], c2)|;
    FirstColumnAt(s, cols, c2, rest, q, c, e);
    ColumnEndErr(s, cfg, k, c, cols[0], e);
    RowColumnErr(s, cfg, q, c, UnexpectedKeyword(cfg.columnEnd, Some(k)));
  }

  /** Where the pieces of `pre cp w` followed by `rest` lie. */
  lemma ThreePieces(s: string, pre: string, cp: string, w: string, rest: string, q: nat, c: nat)
    requires |w| > 0 && (rest == [] || rest[0] == ' ')
    requires s == pre + [' '] + cp + [' '] + w + rest
    requires q == |pre| && c == q + 1 + |cp|
    ensures At(s, 0, pre) && s[q] == ' ' && At(s, q + 1, cp) && s[c] == ' '
    ensures c + 1 + |w| <= |s| && s[c + 1..c + 1 + |w|] == w && s[c + 1] == w[0] && Boundary(s, c + 1 + |w|)
  {
    var e := c + 1 + |w|;
    assert s[0..q] == pre && s[q + 1..c] == cp && s[c + 1..e] == w;
    assert s[q] == ' ' && s[c] == ' ' && s[c + 1] == w[0];
    assert Boundary(s, e) by {
      if rest != [] {
        assert s[e] == rest[0];
      }
    }
    AtSlice(s, 0, pre);
    AtSlice(s, q + 1, cp);
  }

  /** A row prefix, a column prefix and then a field `w`, each after the
      previous one and a space. */
  lemma FieldRowStart(s: string, cfg: Config, w: string, rest: string, q: nat, c: nat)
    requires Renderable(cfg) && |w| > 0 && w[0] != ' ' && (rest == [] || rest[0] == ' ')
    requires s == cfg.rowPrefix + [' '] + cfg.columnPrefix + [' '] + w + rest
    requires q == |cfg.rowPrefix| && c == q + 1 + |cfg.columnPrefix|
    ensures ScanKeyword(s, 0) == Read(Some(cfg.rowPrefix), q)
    ensures TokenAt(s, q).Some? && ScanKeyword(s, q) == Read(Some(cfg.columnPrefix), c)
    ensures TokenAt(s, c).Some? && SkipSpaces(s, c) == c + 1 && TokenAt(s, c + 1) == Some(w[0])
    ensures c + 1 + |w| <= |s| && s[c + 1..c + 1 + |w|] == w && Boundary(s, c + 1 + |w|)
  {
    var pre, cp := cfg.rowPrefix, cfg.columnPrefix;
    ThreePieces(s, pre, cp, w, rest, q, c);
    assert ScanKeyword(s, 0) == Read(Some(pre), q) by {
      AtIndex(s, 0, pre, 0);
      assert SkipSpaces(s, 0) == 0;
      ScanAt(s, 0, 0, pre, q);
    }
    KeywordAt(s, q, cp, c);
    SkipOne(s, c);
  }

  /** An error in a group is the error of the field it starts, and when
      that is the first field of the row, the error of the whole parse. */
  lemma FieldGroupErr(s: string, cfg: Config, q: nat, c: nat, err: ParseError)
    requires Renderable(cfg) && c < |s|
    requires ScanKeyword(s, 0) == Read(Some(cfg.rowPrefix), q)
    requires TokenAt(s, q).Some? && ScanKeyword(s, q) == Read(Some(cfg.columnPrefix), c)
    requires TokenAt(s, c).Some? && SkipSpaces(s, c) == c + 1 && TokenAt(s, c + 1) == Some('(')
    requires Group(s, cfg, c + 1) == Err(err)
    ensures ParseResult(s, cfg) == Err(err)
  {
    assert Field(s, cfg, c) == Err(err);
    ColumnFieldErr(s, cfg, c, err);
    RowColumnErr(s, cfg, q, c, err);
  }

  /** A rendered group closed by `k`: the error is the key mismatch if
      there is one, and the unexpected `k` otherwise. */
  lemma GroupClosedBy(s: string, es: seq<Pair>, cfg: Config, k: string, a: nat, err: ParseError)
    requires Renderable(cfg) && |es| >= 1 && PairsWellFormed(es) && IsKeyword(k) && k != ")" && k != cfg.mvsep
    requires a + 1 + |EntriesText(es, cfg, k)| <= |s| && s[a..a + 1 + |EntriesText(es, cfg, k)|] == ['('] + EntriesText(es, cfg, k)
    requires Boundary(s, a + 1 + |EntriesText(es, cfg, k)|)
    requires err == if FirstOtherKey(es, es[0].key).None? then UnexpectedKeyword(")", Some(k))
      else MultivalueKeyMismatch(es[0].key, FirstOtherKey(es, es[0].key).value)
    ensures Group(s, cfg, a) == Err(err)
  {
    AtSlice(s, a, ['('] + EntriesText(es, cfg, k));
    GroupAt(s, cfg, a, es, k, a + 1 + |EntriesText(es, cfg, k)|);
  }

  /** The start of a row whose first field is a group closed by `k`: the
      row and column prefixes, and the group's error. */
  lemma FirstGroupAt(s: string, es: seq<Pair>, cfg: Config, k: string, rest: string, q: nat, c: nat, err: ParseError)
    requires Renderable(cfg) && |es| >= 1 && PairsWellFormed(es) && (rest == [] || rest[0] == ' ')
    requires IsKeyword(k) && k != ")" && k != cfg.mvsep
    requires s == cfg.rowPrefix + [' '] + cfg.columnPrefix + [' '] + (['('] + EntriesText(es, cfg, k)) + rest
    requires q == |cfg.rowPrefix| && c == q + 1 + |cfg.columnPrefix|
    requires err == if FirstOtherKey(es, es[0].key).None? then UnexpectedKeyword(")", Some(k))
      else MultivalueKeyMismatch(es[0].key, FirstOtherKey(es, es[0].key).value)
    ensures ScanKeyword(s, 0) == Read(Some(cfg.rowPrefix), q)
    ensures TokenAt(s, q).Some? && ScanKeyword(s, q) == Read(Some(cfg.columnPrefix), c)
    ensures TokenAt(s, c).Some? && SkipSpaces(s, c) == c + 1 && TokenAt(s, c + 1) == Some('(')
    ensures Group(s, cfg, c + 1) == Err(err)
  {
    FieldRowStart(s, cfg, ['('] + EntriesText(es, cfg, k), rest, q, c);
    GroupClosedBy(s, es, cfg, k, c + 1, err);
  }

  /** A row whose first field is a group closed by another keyword `k`:
      `_get_key_multivalue` reports that it expected `)` and found `k`,
      unless an entry's key differs from the first one's, which is reported
      as soon as that entry is read. */
  lemma GroupCloseMismatch(s: string, es: seq<Pair>, cfg: Config, k: string, rest: string)
    requires Renderable(cfg) && |es| >= 1 && PairsWellFormed(es) && (rest == [] || rest[0] == ' ')
    requires IsKeyword(k) && k != ")" && k != cfg.mvsep
    requires s == cfg.rowPrefix + [' '] + cfg.columnPrefix + [' '] + (['('] + EntriesText(es, cfg, k)) + rest
    ensures ParseResult(s, cfg) == Err(
      if FirstOtherKey(es, es[0].key).None? then UnexpectedKeyword(")", Some(k))
      else MultivalueKeyMismatch(es[0].key, FirstOtherKey(es, es[0].key).value))
  {
    var q := |cfg.rowPrefix|;
    var c := q + 1 + |cfg.columnPrefix|;
    var err := if FirstOtherKey(es, es[0].key).None? then UnexpectedKeyword(")", Some(k))
      else MultivalueKeyMismatch(es[0].key, FirstOtherKey(es, es[0].key).value);
    FirstGroupAt(s, es, cfg, k, rest, q, c, err);
    FieldGroupErr(s, cfg, q, c, err);
  }
}
