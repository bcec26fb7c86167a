/** Go string helpers used across the model. A string is a sequence of code points. */
module Text {
  /** unicode.IsSpace */
  predicate IsSpace(c: char) {
    || '\t' <= c <= '\r' || c == ' ' || c == '\U{85}' || c == '\U{A0}' || c == '\U{1680}'
    || '\U{2000}' <= c <= '\U{200A}' || c == '\U{2028}' || c == '\U{2029}'
    || c == '\U{202F}' || c == '\U{205F}' || c == '\U{3000}'
  }

  function TrimLeft(s: string): (t: string)
    ensures t == "" || !IsSpace(t[0])
    ensures exists i :: 0 <= i <= |s| && t == s[i..]
    ensures s != "" && !IsSpace(s[0]) ==> t == s
  {
    if s != "" && IsSpace(s[0]) then
      var t := TrimLeft(s[1..]);
      assert forall i :: 0 <= i <= |s| - 1 ==> s[1..][i..] == s[i + 1..];
      t
    else
      assert s == s[0..];
      s
  }

  function TrimRight(s: string): (t: string)
    ensures t == "" || !IsSpace(t[|t| - 1])
    ensures t <= s
    ensures s != "" && !IsSpace(s[|s| - 1]) ==> t == s
  {
    if s != "" && IsSpace(s[|s| - 1]) then TrimRight(s[..|s| - 1]) else s
  }

  /** strings.TrimSpace */
  function TrimSpace(s: string): string {
    TrimRight(TrimLeft(s))
  }

  lemma TrimmedEnds(s: string)
    ensures TrimSpace(s) != "" ==> !IsSpace(TrimSpace(s)[0]) && !IsSpace(TrimSpace(s)[|TrimSpace(s)| - 1])
  {
    var t := TrimLeft(s);
    var u := TrimRight(t);
    if u != "" {
      assert u[0] == t[0];
    }
  }

  /** Lower case for ASCII letters. */
  function Lower(c: char): char {
    if 'A' <= c <= 'Z' then (c as int - 'A' as int + 'a' as int) as char else c
  }

  function LowerAll(s: string): string {
    seq(|s|, i requires 0 <= i < |s| => Lower(s[i]))
  }

  lemma TrimsToItself(s: string)
    requires s != "" && !IsSpace(s[0]) && !IsSpace(s[|s| - 1])
    ensures TrimSpace(s) == s
  {
  }

  predicate AllSpace(s: string) {
    forall i :: 0 <= i < |s| ==> IsSpace(s[i])
  }

  lemma {:induction false} TrimLeftAll(u: string, z: string)
    requires AllSpace(u)
    ensures TrimLeft(u + z) == TrimLeft(z)
    decreases |u|
  {
    if u == "" {
      assert u + z == z;
    } else {
      assert (u + z)[1..] == u[1..] + z;
      TrimLeftAll(u[1..], z);
    }
  }

  lemma {:induction false} TrimRightAll(z: string, w: string)
    requires AllSpace(w)
    ensures TrimRight(z + w) == TrimRight(z)
    decreases |w|
  {
    if w == "" {
      assert z + w == z;
    } else {
      assert (z + w)[..|z + w| - 1] == z + w[..|w| - 1];
      TrimRightAll(z, w[..|w| - 1]);
    }
  }

  /** White space goes from both ends, and nothing else goes. */
  lemma TrimsExactly(a: string, t: string, b: string)
    requires AllSpace(a) && AllSpace(b) && (t != "" ==> !IsSpace(t[0]) && !IsSpace(t[|t| - 1]))
    ensures TrimSpace(a + (t + b)) == t
  {
    hide IsSpace;
    TrimLeftAll(a, t + b);
    if t == "" {
      assert t + b == b && b + "" == b;
      TrimLeftAll(b, "");
    } else {
      assert (t + b)[0] == t[0];
      TrimRightAll(t, b);
    }
  }
}
