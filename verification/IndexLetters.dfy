/** Letters outside literals: their case does not count, everything else about them does. */
module IndexLetters {
  import opened IndexDDL
  import opened Text

  /** A character that stands for itself: no quote and no white space. */
  predicate Bare(c: char) {
    !QuoteMark(c) && !IsSpace(c)
  }

  /** `t` is the same up to `m` and goes on with a bare character. */
  predicate SameTo(s: string, t: string, m: nat) {
    m < |s| && m < |t| && s[..m] == t[..m] && Bare(t[m])
  }

  lemma SameTail(s: string, t: string, m: nat, n: nat)
    requires SameTo(s, t, m) && n <= m
    ensures SameTo(s[n..], t[n..], m - n) && s[..n] == t[..n]
    ensures n < m ==> s[n] == t[n]
  {
    assert s[n..][..m - n] == s[..m][n..] && t[n..][..m - n] == t[..m][n..];
    assert s[..n] == s[..m][..n] && t[..n] == t[..m][..n];
    assert n < m ==> s[n] == s[..m][n] && t[n] == t[..m][n];
  }

  lemma {:induction false} LiteralSame(s: string, t: string, m: nat, q: char)
    requires QuoteMark(q) && SameTo(s, t, m) && LiteralLen(s, q) <= m
    ensures LiteralLen(t, q) == LiteralLen(s, q)
  {
    if LiteralLen(s, q) == m {
      LiteralStop(s, t, m, q);
    } else {
      LiteralLocal(s, t, m - 1, q);
    }
  }

  lemma {:induction false} BlankSame(s: string, t: string, m: nat)
    requires SameTo(s, t, m) && BlankLen(s) <= m
    ensures BlankLen(t) == BlankLen(s)
    decreases m
  {
    if m > 0 {
      SameTail(s, t, m, 0);
      if Blank(s[0]) {
        SameTail(s, t, m, 1);
        BlankSame(s[1..], t[1..], m - 1);
      }
    }
  }

  lemma {:induction false} TokenSame(s: string, t: string, m: nat)
    requires SameTo(s, t, m) && TokenLen(s) <= m
    ensures TokenLen(t) == TokenLen(s)
  {
    SameTail(s, t, m, 0);
    if QuoteMark(s[0]) {
      SameTail(s, t, m, 1);
      LiteralSame(s[1..], t[1..], m - 1, s[0]);
    } else if Blank(s[0]) {
      BlankSame(s, t, m);
    }
  }

  lemma NotEmptyTo(s: string, t: string, m: nat)
    requires SameTo(s, t, m)
    ensures m < |s| && m < |t|
  {
  }

  lemma BoundaryStart(s: string)
    ensures Boundary(s, 0) && FoldTo(s, 0) == ""
  {
  }

  lemma BoundaryNext(s: string, k: nat)
    requires s != "" && TokenLen(s) <= k && Boundary(s[TokenLen(s)..], k - TokenLen(s))
    ensures Boundary(s, k)
    ensures FoldTo(s, k) == TokenForm(s[..TokenLen(s)]) + FoldTo(s[TokenLen(s)..], k - TokenLen(s))
  {
  }

  lemma {:induction false} BoundarySame(s: string, t: string, k: nat)
    requires Boundary(s, k) && SameTo(s, t, k)
    ensures Boundary(t, k) && FoldTo(t, k) == FoldTo(s, k)
    decreases k
  {
    hide TokenLen, TokenForm, SameTo, Boundary, FoldTo;
    if k == 0 {
      BoundaryStart(s);
      BoundaryStart(t);
    } else {
      NotEmptyTo(s, t, k);
      BoundaryTail(s, k);
      var n := TokenLen(s);
      TokenSame(s, t, k);
      SameTail(s, t, k, n);
      BoundarySame(s[n..], t[n..], k - n);
      FoldToStep(s, k);
      BoundaryNext(t, k);
    }
  }

  ghost function With(a: string, c: char, b: string): string {
    a + ([c] + b)
  }

  lemma {:induction false} NormalizeWith(a: string, c: char, b: string)
    requires Bare(c) && Boundary(With(a, c, b), |a|)
    ensures Normalize(With(a, c, b)) ==
      StripMarker(With(TrimLeft(FoldTo(With(a, c, b), |a|)), Lower(c), TrimRight(Fold(b))))
  {
    var s := With(a, c, b);
    assert s[|a|..] == [c] + b;
    FoldSplits(s, |a|);
    FoldFirst(c, b);
    LowerBare(c);
    hide Fold, FoldTo, Boundary, StripMarker, TrimSpace, TrimLeft, TrimRight, Lower, IsSpace;
    TrimAround(FoldTo(s, |a|), [Lower(c)], Fold(b));
  }

  lemma LowerBare(c: char)
    requires Bare(c)
    ensures !IsSpace(Lower(c))
  {
  }

  /** The marker is taken away from both or from one only; either way the difference stays. */
  lemma {:induction false} StripKeepsChar(x: string, p: char, q: char, y: string)
    ensures StripMarker(With(x, p, y)) == StripMarker(With(x, q, y)) <==> p == q
  {
    hide Three;
    ThreeLength();
    var s, t, m := With(x, p, y), With(x, q, y), WithMarker();
    var n := |NoMarker()|;
    assert |m| == n + 14;
    hide WithMarker, NoMarker;
    assert s[|x|] == p && t[|x|] == q;
    if m <= s && m <= t && |x| < |m| {
      assert p == m[|x|] && q == m[|x|];
    } else if m <= s && m <= t {
      assert StripMarker(s)[n + |x| - |m|] == p && StripMarker(t)[n + |x| - |m|] == q;
    }
  }

  /** Two statements that differ in one character outside literals are equivalent exactly if
      the two are one letter in upper and lower case. */
  lemma {:induction false} OnlyCaseIsIgnored(a: string, c: char, d: char, b: string)
    requires Bare(c) && Bare(d) && Boundary(With(a, c, b), |a|)
    ensures SqlEquivalent(With(a, c, b), With(a, d, b)) <==> Lower(c) == Lower(d)
  {
    var s, t := With(a, c, b), With(a, d, b);
    assert s[..|a|] == a && t[..|a|] == a && t[|a|] == d;
    BoundarySame(s, t, |a|);
    NormalizeWith(a, c, b);
    NormalizeWith(a, d, b);
    hide With, FoldTo, StripMarker, TrimLeft, TrimRight, Fold, Normalize, Boundary, Lower;
    StripKeepsChar(TrimLeft(FoldTo(s, |a|)), Lower(c), Lower(d), TrimRight(Fold(b)));
  }

  /** Lower case pairs each capital letter with its small one and nothing else. */
  lemma CasePairs(c: char, d: char)
    ensures Lower(c) == Lower(d) <==>
      c == d || ('A' <= c <= 'Z' && d as int == c as int + 32) || ('A' <= d <= 'Z' && c as int == d as int + 32)
  {
  }
}
