/** Facts about text that occurs at a known index of the input, used to run
    the readers of module Scanner on text whose shape is known. */
module Positions {
  import opened Wrappers
  import opened Types
  import opened Scanner

  /** The character at index `j`; it names the characters that `At` speaks
      of, so that `At` says nothing about an index until it is asked. */
  function CharAt(s: string, j: nat): (c: char)
    requires j < |s|
    ensures c == s[j]
  {
    s[j]
  }

  /** `w` occurs in `s` at index `p`. */
  predicate At(s: string, p: nat, w: string) {
    p + |w| <= |s| && forall i | 0 <= i < |w| :: CharAt(s, p + i) == w[i]
  }

  /** A keyword may end at index `i`: a space follows, or the input ends. */
  predicate Boundary(s: string, i: nat) {
    i == |s| || (i < |s| && s[i] == ' ')
  }

  lemma AtSlice(s: string, p: nat, w: string)
    requires p + |w| <= |s| && s[p..p + |w|] == w
    ensures At(s, p, w)
  {
    forall j | p <= j < p + |w| ensures CharAt(s, j) == w[j - p] {
      assert s[p..p + |w|][j - p] == s[j];
    }
  }

  lemma SliceAt(s: string, p: nat, w: string)
    requires At(s, p, w)
    ensures p + |w| <= |s| && s[p..p + |w|] == w
  {
    forall i | 0 <= i < |w| ensures s[p..p + |w|][i] == w[i] {
      assert CharAt(s, p + i) == w[i];
    }
  }

  /** Text made of two parts occurs where its first part does, and its
      second part right after, at `m`. */
  lemma AtSplit(s: string, p: nat, a: string, b: string, m: nat)
    requires m == p + |a| && At(s, p, a + b)
    ensures At(s, p, a) && At(s, m, b)
  {
    forall i | 0 <= i < |a| ensures CharAt(s, p + i) == a[i] {
      assert (a + b)[i] == a[i];
    }
    forall i | 0 <= i < |b| ensures CharAt(s, m + i) == b[i] {
      assert (a + b)[|a| + i] == b[i];
    }
  }

  lemma AtIndex(s: string, p: nat, w: string, i: nat)
    requires At(s, p, w) && i < |w|
    ensures p + i < |s| && s[p + i] == w[i]
  {
    assert CharAt(s, p + i) == w[i];
  }

  /** A keyword at index `a` is a maximal run of non-spaces. */
  lemma KeywordRun(s: string, a: nat, k: string)
    requires IsKeyword(k) && At(s, a, k) && Boundary(s, a + |k|)
    ensures a < |s| && s[a] != ' ' && RunEnd(s, a) == a + |k| && s[a..a + |k|] == k
  {
    AtIndex(s, a, k, 0);
    var e := RunEnd(s, a);
    RunEndSpec(s, a);
    if e < a + |k| {
      AtIndex(s, a, k, e - a);
    }
    SliceAt(s, a, k);
  }

  /** `_next_keyword` on a known keyword `k` at index `a`, where the spaces
      from `p` end, followed by a space or the end of input at `e`: it
      returns `k` and leaves the cursor at `e`. */
  lemma ScanAt(s: string, p: nat, a: nat, k: string, e: nat)
    requires e == a + |k| && IsKeyword(k) && At(s, a, k) && Boundary(s, e)
    requires p <= a && SkipSpaces(s, p) == a
    ensures ScanKeyword(s, p) == Read(Some(k), e)
  {
    KeywordRun(s, a, k);
  }

  /** One space, then something else: the skip stops right after it. */
  lemma SkipOne(s: string, q: nat)
    requires q + 1 < |s| && s[q] == ' ' && s[q + 1] != ' '
    ensures SkipSpaces(s, q) == q + 1
  {
  }

  /** A space at `r`, then a keyword ending at `n` on a boundary:
      `_next_keyword` from `r` returns the keyword and leaves the cursor at
      `n`. */
  lemma KeywordAt(s: string, r: nat, kw: string, n: nat)
    requires IsKeyword(kw) && n == r + 1 + |kw|
    requires r < |s| && s[r] == ' ' && At(s, r + 1, kw) && Boundary(s, n)
    ensures ScanKeyword(s, r) == Read(Some(kw), n)
  {
    AtIndex(s, r + 1, kw, 0);
    SkipOne(s, r);
    ScanAt(s, r, r + 1, kw, n);
  }

  /** The same with more text after the keyword, which starts at `n`. */
  lemma KeywordAfter(s: string, r: nat, kw: string, tail: string, n: nat)
    requires IsKeyword(kw) && n == r + 1 + |kw|
    requires r < |s| && s[r] == ' ' && At(s, r + 1, kw + tail) && Boundary(s, n)
    ensures ScanKeyword(s, r) == Read(Some(kw), n) && At(s, n, tail)
  {
    AtSplit(s, r + 1, kw, tail, n);
    KeywordAt(s, r, kw, n);
  }

  /** A part between two spaces, the second of them at `r`, then the rest of
      the text. */
  lemma Spaced(s: string, q: nat, a: string, tail: string, r: nat)
    requires r == q + 1 + |a| && At(s, q, [' '] + a + [' '] + tail)
    ensures r < |s| && s[q] == ' ' && At(s, q + 1, a) && s[r] == ' '
    ensures At(s, r + 1, tail)
  {
    var w := [' '] + a + [' '] + tail;
    assert w[0] == ' ' && w[1 + |a|] == ' ';
    AtIndex(s, q, w, 0);
    AtIndex(s, q, w, 1 + |a|);
    forall j | q + 1 <= j < r ensures CharAt(s, j) == a[j - (q + 1)] {
      assert w[j - q] == a[j - (q + 1)];
    }
    forall j | r + 1 <= j < r + 1 + |tail| ensures CharAt(s, j) == tail[j - (r + 1)] {
      assert w[j - q] == tail[j - (r + 1)];
    }
  }

  /** Two parts between two spaces, the first part from `q + 1`, the second
      from `c` and the closing space at `e`, then the rest of the text. */
  lemma Spaced2(s: string, q: nat, a: string, b: string, tail: string, c: nat, e: nat)
    requires c == q + 1 + |a| && e == c + |b|
    requires At(s, q, [' '] + a + b + [' '] + tail)
    ensures e < |s| && s[q] == ' ' && At(s, q + 1, a) && At(s, c, b)
    ensures s[e] == ' ' && At(s, e + 1, tail)
  {
    assert [' '] + a + b + [' '] + tail == [' '] + (a + b) + [' '] + tail;
    Spaced(s, q, a + b, tail, e);
    AtSplit(s, q + 1, a, b, c);
  }

  /** A keyword followed by text that starts with a space ends on a
      boundary. */
  lemma KeywordRest(s: string, p: nat, k: string, rest: string)
    requires At(s, p, k + rest) && |rest| > 0 && rest[0] == ' '
    ensures At(s, p, k) && At(s, p + |k|, rest) && Boundary(s, p + |k|)
  {
    AtSplit(s, p, k, rest, p + |k|);
    AtIndex(s, p + |k|, rest, 0);
  }
}
