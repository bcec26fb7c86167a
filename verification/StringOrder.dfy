/** Strings in byte order: Go compares UTF-8 bytes, which is code point order. */
module StringOrder {
  predicate LessEq(a: string, b: string) {
    a == "" || (b != "" && (a[0] < b[0] || (a[0] == b[0] && LessEq(a[1..], b[1..]))))
  }

  predicate Less(a: string, b: string) {
    LessEq(a, b) && a != b
  }

  /** The strings agree up to `k`, where `a` has the smaller character. */
  predicate SmallerAt(a: string, b: string, k: nat) {
    k < |a| && k < |b| && a[..k] == b[..k] && a[k] < b[k]
  }

  /** `a` is a proper prefix, or has the smaller character where the two first differ. */
  ghost predicate ComesBefore(a: string, b: string) {
    a < b || exists k: nat :: SmallerAt(a, b, k)
  }

  /** The recursive comparison is the dictionary order. */
  lemma {:induction false} LessComesBefore(a: string, b: string)
    ensures Less(a, b) <==> ComesBefore(a, b)
    decreases |a|
  {
    if a != "" && b != "" {
      if a[0] == b[0] {
        SameHead(a, b);
        LessComesBefore(a[1..], b[1..]);
      } else {
        assert a[0] < b[0] ==> SmallerAt(a, b, 0);
        forall k: nat | SmallerAt(a, b, k) ensures a[0] < b[0] {
          assert k > 0 ==> a[..k][0] == b[..k][0];
        }
      }
    }
  }

  lemma {:induction false} SameHead(a: string, b: string)
    requires a != "" && b != "" && a[0] == b[0]
    ensures a == b <==> a[1..] == b[1..]
    ensures ComesBefore(a, b) <==> ComesBefore(a[1..], b[1..])
  {
    assert a == [a[0]] + a[1..] && b == [b[0]] + b[1..];
    if k: nat :| SmallerAt(a, b, k) {
      assert k > 0 && a[1..][..k - 1] == a[..k][1..] && b[1..][..k - 1] == b[..k][1..];
      assert SmallerAt(a[1..], b[1..], k - 1);
    }
    if k: nat :| SmallerAt(a[1..], b[1..], k) {
      assert a[..k + 1] == [a[0]] + a[1..][..k] && b[..k + 1] == [b[0]] + b[1..][..k];
      assert SmallerAt(a, b, k + 1);
    }
  }

  lemma {:induction false} Total(a: string, b: string)
    ensures LessEq(a, b) || LessEq(b, a)
    decreases |a|
  {
    if a != "" && b != "" && a[0] == b[0] {
      Total(a[1..], b[1..]);
    }
  }

  lemma {:induction false} Antisymmetric(a: string, b: string)
    requires LessEq(a, b) && LessEq(b, a)
    ensures a == b
    decreases |a|
  {
    if a != "" {
      Antisymmetric(a[1..], b[1..]);
      assert a == [a[0]] + a[1..] && b == [b[0]] + b[1..];
    }
  }

  lemma {:induction false} Transitive(a: string, b: string, c: string)
    requires LessEq(a, b) && LessEq(b, c)
    ensures LessEq(a, c)
    decreases |a|
  {
    if a != "" && a[0] == b[0] && b[0] == c[0] {
      Transitive(a[1..], b[1..], c[1..]);
    }
  }

  ghost predicate Sorted(keys: seq<string>) {
    forall i, j :: 0 <= i < j < |keys| ==> Less(keys[i], keys[j])
  }

  ghost predicate IsLeast(k: string, s: set<string>) {
    k in s && forall x :: x in s ==> LessEq(k, x)
  }

  lemma {:induction false} LeastExists(s: set<string>)
    requires s != {}
    ensures exists k :: IsLeast(k, s)
    decreases |s|
  {
    hide LessEq;
    var k :| k in s;
    Total(k, k);
    if s == {k} {
      assert IsLeast(k, s);
    } else {
      var rest := s - {k};
      LeastExists(rest);
      var m :| IsLeast(m, rest);
      Total(k, m);
      if LessEq(k, m) {
        forall x | x in rest ensures LessEq(k, x) {
          Transitive(k, m, x);
        }
        assert IsLeast(k, s);
      } else {
        assert IsLeast(m, s);
      }
    }
  }

  ghost function Least(s: set<string>): (k: string)
    requires s != {}
    ensures IsLeast(k, s)
  {
    LeastExists(s);
    var k :| IsLeast(k, s);
    k
  }

  ghost function Ascending(s: set<string>): (keys: seq<string>)
    ensures |keys| == |s| && forall k :: k in keys <==> k in s
  {
    if s == {} then [] else
      var rest := Ascending(s - {Least(s)});
      [Least(s)] + rest
  }

  /** A set has one strictly ascending enumeration, whatever order it was collected in. */
  lemma {:induction false} AscendingUnique(keys: seq<string>, s: set<string>)
    requires Sorted(keys) && forall k :: k in keys <==> k in s
    ensures keys == Ascending(s)
    decreases |keys|
  {
    if keys == [] {
      assert forall k :: k !in s;
      assert s == {};
    } else {
      var first := keys[0];
      assert first in s && Least(s) in keys;
      forall x | x in keys ensures LessEq(first, x) {
        Total(x, x);
        var i :| 0 <= i < |keys| && keys[i] == x;
        assert i > 0 ==> Less(keys[0], keys[i]);
      }
      Antisymmetric(first, Least(s));
      assert forall i :: 1 <= i < |keys| ==> Less(keys[0], keys[i]);
      forall k ensures k in keys[1..] <==> k in s - {first} {
        assert k in keys <==> k == first || k in keys[1..];
      }
      AscendingUnique(keys[1..], s - {first});
    }
  }

  lemma SortedCons(first: string, rest: seq<string>)
    requires Sorted(rest) && forall x :: x in rest ==> Less(first, x)
    ensures Sorted([first] + rest)
  {
    hide Less;
  }

  lemma {:induction false} AscendingSorted(s: set<string>)
    ensures Sorted(Ascending(s))
    decreases |s|
  {
    hide LessEq;
    if s != {} {
      var first := Least(s);
      var rest := Ascending(s - {first});
      AscendingSorted(s - {first});
      assert forall x :: x in rest ==> x in s - {first};
      SortedCons(first, rest);
    }
  }

  /** sort.Strings, on keys that are all different. */
  method Sort(keys: seq<string>) returns (sorted: seq<string>)
    requires forall i, j :: 0 <= i < j < |keys| ==> keys[i] != keys[j]
    ensures Sorted(sorted) && forall k :: k in sorted <==> k in keys
    ensures forall i, j :: 0 <= i < j < |sorted| ==> ComesBefore(sorted[i], sorted[j])
  {
    hide ComesBefore;
    sorted := [];
    for i := 0 to |keys|
      invariant Sorted(sorted)
      invariant forall k :: k in sorted <==> k in keys[..i]
    {
      var at := 0;
      while at < |sorted| && LessEq(sorted[at], keys[i])
        invariant 0 <= at <= |sorted|
        invariant forall j :: 0 <= j < at ==> LessEq(sorted[j], keys[i])
      {
        at := at + 1;
      }
      forall j | at <= j < |sorted| ensures LessEq(keys[i], sorted[j]) {
        Total(keys[i], sorted[at]);
        if j > at {
          assert Less(sorted[at], sorted[j]);
          Transitive(keys[i], sorted[at], sorted[j]);
        }
      }
      forall j | 0 <= j < |sorted| ensures sorted[j] != keys[i] {
        assert sorted[j] in keys[..i];
      }
      sorted := sorted[..at] + [keys[i]] + sorted[at..];
      assert keys[..i + 1] == keys[..i] + [keys[i]];
    }
    assert keys[..|keys|] == keys;
    forall i, j | 0 <= i < j < |sorted| ensures ComesBefore(sorted[i], sorted[j]) {
      LessComesBefore(sorted[i], sorted[j]);
    }
  }
}
