/** The difficulty test of the proof of work. */
module ProofOfWork {
  import opened Arithmetic

  type Byte = b: int | 0 <= b < 256

  /** The bytes read as one big-endian number. */
  ghost function Value(data: seq<Byte>): nat {
    if data == [] then 0 else Value(data[..|data| - 1]) * 256 + data[|data| - 1]
  }

  ghost predicate Zeros(data: seq<Byte>, n: nat)
    requires n <= |data|
  {
    forall j :: 0 <= j < n ==> data[j] < Pow2(0)
  }

  lemma {:induction false} Bounded(data: seq<Byte>, k: nat)
    requires k < |data| && Zeros(data, k)
    ensures data[k] * Pow2(8 * (|data| - k - 1)) <= Value(data) < (data[k] + 1) * Pow2(8 * (|data| - k - 1))
    decreases |data|
  {
    var last := |data| - 1;
    if k == last {
      AllZero(data[..k]);
    } else {
      Bounded(data[..last], k);
      Pow2Add(8, 8 * (last - k - 1));
      assert Pow2(8) == 256;
      Shift(data[k], Pow2(8 * (last - k - 1)), Value(data[..last]), data[last]);
    }
  }

  /** One more low-order byte. */
  lemma {:induction false} Shift(b: int, p: int, v: int, c: Byte)
    requires b * p <= v < (b + 1) * p
    ensures b * (256 * p) <= v * 256 + c < (b + 1) * (256 * p)
  {
    assert b * (256 * p) == 256 * (b * p);
    assert (b + 1) * (256 * p) == 256 * ((b + 1) * p);
  }

  lemma {:induction false} AllZero(data: seq<Byte>)
    requires Zeros(data, |data|)
    ensures Value(data) == 0
    decreases |data|
  {
    if data != [] {
      AllZero(data[..|data| - 1]);
      assert data[|data| - 1] < Pow2(0);
    }
  }

  /** What it means for the hash to start with at least `d` zero bits. */
  ghost predicate MeetsDifficulty(data: seq<Byte>, d: int) {
    d <= 0 || (d <= 8 * |data| && Value(data) < Pow2(8 * |data| - d))
  }

  /** The value lies in [2^(n-1), 2^n): its top bit is the (8|data| - n)th. */
  lemma {:induction false} TopBit(data: seq<Byte>, n: nat)
    requires n <= 8 * |data| && Value(data) < Pow2(n)
    requires n > 0 ==> Value(data) >= Pow2(n - 1)
    ensures forall d :: 8 * |data| - n >= d <==> MeetsDifficulty(data, d)
  {
    forall d ensures 8 * |data| - n >= d <==> MeetsDifficulty(data, d) {
      var m := 8 * |data| - d;
      if 0 < d && 0 <= m {
        if n <= m {
          Pow2Monotone(n, m);
        } else {
          Pow2Monotone(m, n - 1);
        }
      }
    }
  }

  /** Byte `k` is the first that is not zero, and its top bit is bit `i`. */
  lemma {:induction false} Counted(data: seq<Byte>, k: nat, i: nat)
    requires k < |data| && Zeros(data, k) && i < 8
    requires Pow2(i) <= data[k] < Pow2(i + 1)
    ensures forall d :: 8 * k + 7 - i >= d <==> MeetsDifficulty(data, d)
  {
    var rest := 8 * (|data| - k - 1);
    Bounded(data, k);
    Pow2Add(i, rest);
    Pow2Add(i + 1, rest);
    MulMonotone(Pow2(i), data[k], Pow2(rest));
    var b: int := data[k];
    MulMonotone(b + 1, Pow2(i + 1), Pow2(rest));
    TopBit(data, i + 1 + rest);
  }

  lemma {:induction false} BitTest(b: Byte, i: nat)
    requires b < Pow2(i + 1)
    ensures b / Pow2(i) % 2 == 0 <==> b < Pow2(i)
  {
    var p := Pow2(i);
    if b < p {
      assert b / p == 0;
    } else {
      assert b == 1 * p + (b - p);
      Quotient(b, p);
    }
  }

  lemma Quotient(b: nat, p: nat)
    requires 0 < p <= b < 2 * p
    ensures b / p == 1
  {
    assert b / p * p + b % p == b;
    if b / p >= 2 {
      MulMonotone(2, b / p, p);
    }
  }

  /** The count reaches a difficulty exactly when the value is below that power of two. */
  method CountLeadingZeroBits(data: seq<Byte>) returns (count: int)
    ensures forall d :: count >= d <==> MeetsDifficulty(data, d)
  {
    hide Pow2, MeetsDifficulty;
    count := 0;
    for k := 0 to |data|
      invariant count == 8 * k && Zeros(data, k)
    {
      var b := data[k];
      if b == 0 {
        count := count + 8;
        continue;
      }
      ByteBound(b);
      var i := 7;
      while i >= 0
        invariant -1 <= i <= 7 && count == 8 * k + 7 - i && b < Pow2(i + 1)
      {
        BitTest(b, i);
        if b / Pow2(i) % 2 == 0 {
          count := count + 1;
        } else {
          Counted(data, k, i);
          return;
        }
        i := i - 1;
      }
    }
    AllZero(data);
    TopBit(data, 0);
  }

  lemma ByteBound(b: Byte)
    ensures b < Pow2(8)
  {
    assert Pow2(8) == 256;
  }
}
