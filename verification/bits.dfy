/**
  Rounding up to a power of two by smearing the highest bit downwards, as `_RoundPow2` in buf.c and
  `_FindCapacity` in instance.c do it.
 */
module Bits {
  /** A 32-bit word, least significant bit first. */
  type Word = w: seq<bool> | |w| == 32 witness seq(32, _ => false)

  function Pow2(k: nat): (p: nat)
    ensures 0 < p
  {
    if k == 0 then 1 else 2 * Pow2(k - 1)
  }

  function Val(b: seq<bool>): nat {
    if b == [] then 0 else (if b[0] then 1 else 0) + 2 * Val(b[1..])
  }

  function ToBits(n: nat, k: nat): (b: seq<bool>)
    ensures |b| == k
    decreases k
  {
    if k == 0 then [] else [n % 2 == 1] + ToBits(n / 2, k - 1)
  }

  lemma {:induction false} ValOfBits(n: nat, k: nat)
    requires n < Pow2(k)
    ensures Val(ToBits(n, k)) == n
    decreases k
  {
    if k != 0 {
      ValOfBits(n / 2, k - 1);
      assert ToBits(n, k)[1..] == ToBits(n / 2, k - 1);
    }
  }

  /** `w >> k` and `v | w`. */
  function Shr(w: Word, k: nat): Word {
    seq(32, i requires 0 <= i < 32 => i + k < 32 && w[i + k])
  }

  function Or(v: Word, w: Word): Word {
    seq(32, i requires 0 <= i < 32 => v[i] || w[i])
  }

  /** Some bit of `w` in [i, i + n) is set. */
  predicate AnyFrom(w: Word, i: nat, n: nat) {
    exists j | i <= j < i + n && j < 32 :: w[j]
  }

  /** Every bit tells whether one of the `n` bits from it upwards was set in `w`. */
  ghost predicate Smeared(v: Word, w: Word, n: nat) {
    forall i | 0 <= i < 32 :: v[i] <==> AnyFrom(w, i, n)
  }

  /** Or-ing with the shift by `n` doubles the reach. */
  lemma {:induction false} SmearTwice(v: Word, w: Word, n: nat)
    requires Smeared(v, w, n)
    ensures Smeared(Or(v, Shr(v, n)), w, 2 * n)
  {
    var u := Or(v, Shr(v, n));
    forall i | 0 <= i < 32 ensures u[i] <==> AnyFrom(w, i, 2 * n) {
      if u[i] {
        if !v[i] { assert AnyFrom(w, i + n, n); }
      }
      if AnyFrom(w, i, 2 * n) {
        var j :| i <= j < i + 2 * n && j < 32 && w[j];
        if j < i + n { assert AnyFrom(w, i, n); } else { assert AnyFrom(w, i + n, n); }
      }
    }
  }

  /** The value of a word whose highest set bit is `t`. */
  lemma {:induction false} TopBit(b: seq<bool>, t: nat)
    requires t < |b| && b[t] && forall i | t < i < |b| :: !b[i]
    ensures Pow2(t) <= Val(b) < Pow2(t + 1)
    ensures (forall i | 0 <= i <= t :: b[i]) ==> Val(b) == Pow2(t + 1) - 1
    decreases t
  {
    if t == 0 {
      ZeroBits(b[1..]);
    } else {
      TopBit(b[1..], t - 1);
      assert forall i | 0 <= i < |b| - 1 :: b[1..][i] == b[i + 1];
    }
  }

  lemma {:induction false} ZeroBits(b: seq<bool>)
    requires forall i | 0 <= i < |b| :: !b[i]
    ensures Val(b) == 0
  {
    if b != [] { ZeroBits(b[1..]); }
  }

  lemma {:induction false} HighestBit(b: seq<bool>) returns (t: int)
    ensures -1 <= t < |b| && (t >= 0 ==> b[t]) && forall i | t < i < |b| :: !b[i]
  {
    t := |b| - 1;
    while t >= 0 && !b[t]
      invariant -1 <= t < |b| && forall i | t < i < |b| :: !b[i]
    {
      t := t - 1;
    }
  }

  /** `r` is the least power of two that is not below `x`. */
  ghost predicate LeastPow2(r: nat, x: nat) {
    && (exists k: nat :: r == Pow2(k))
    && x <= r
    && forall k: nat :: x <= Pow2(k) ==> r <= Pow2(k)
  }

  lemma {:induction false} Pow2Monotone(j: nat, k: nat)
    requires j <= k
    ensures Pow2(j) <= Pow2(k)
    decreases k - j
  {
    if j < k { Pow2Monotone(j, k - 1); }
  }

  /** Between two powers of two there is none. */
  lemma {:induction false} LeastBetween(t: nat, x: nat)
    requires Pow2(t) < x <= Pow2(t + 1)
    ensures LeastPow2(Pow2(t + 1), x)
  {
    forall k: nat | x <= Pow2(k) ensures Pow2(t + 1) <= Pow2(k) {
      if k <= t { Pow2Monotone(k, t); } else { Pow2Monotone(t + 1, k); }
    }
  }

  /** The largest power of two a 32-bit word can hold. */
  const MAX: nat := 0x8000_0000

  const WORD: nat := 0x1_0000_0000

  function Smear(w: Word): Word {
    var v1 := Or(w, Shr(w, 1));
    var v2 := Or(v1, Shr(v1, 2));
    var v3 := Or(v2, Shr(v2, 4));
    var v4 := Or(v3, Shr(v3, 8));
    Or(v4, Shr(v4, 16))
  }

  lemma {:induction false} SmearReaches(w: Word)
    ensures Smeared(Smear(w), w, 32)
  {
    hide Or, Shr;
    var v1 := Or(w, Shr(w, 1));
    var v2 := Or(v1, Shr(v1, 2));
    var v3 := Or(v2, Shr(v2, 4));
    var v4 := Or(v3, Shr(v3, 8));
    assert Smeared(w, w, 1) by {
      forall i | 0 <= i < 32 ensures w[i] <==> AnyFrom(w, i, 1) {}
    }
    SmearTwice(w, w, 1);
    SmearTwice(v1, w, 2);
    SmearTwice(v2, w, 4);
    SmearTwice(v3, w, 8);
    SmearTwice(v4, w, 16);
  }

  lemma {:induction false} PowersUpTo32()
    ensures Pow2(31) == 0x8000_0000 && Pow2(32) == 0x1_0000_0000
  {
    assert Pow2(8) == 256;
    assert Pow2(16) == 65536;
    assert Pow2(24) == 0x100_0000;
  }

  /** Smearing gives all ones up to the highest set bit. */
  lemma {:induction false} SmearedValue(w: Word, t: nat)
    requires t < 32 && w[t] && forall i | t < i < 32 :: !w[i]
    ensures Pow2(t) <= Val(w) < Pow2(t + 1) && Val(Smear(w)) == Pow2(t + 1) - 1
  {
    hide Smear, Pow2;
    SmearReaches(w);
    var v := Smear(w);
    forall i | 0 <= i < 32 ensures v[i] <==> i <= t {
      if i <= t { assert AnyFrom(w, i, 32); } else { assert !AnyFrom(w, i, 32); }
    }
    TopBit(w, t);
    TopBit(v, t);
  }

  lemma {:induction false} SmearedZero(w: Word)
    requires forall i | 0 <= i < 32 :: !w[i]
    ensures Val(w) == 0 && Val(Smear(w)) == 0
  {
    hide Smear;
    SmearReaches(w);
    forall i | 0 <= i < 32 ensures !Smear(w)[i] { assert !AnyFrom(w, i, 32); }
    ZeroBits(w);
    ZeroBits(Smear(w));
  }

  lemma {:induction false} SmearedIsRounded(w: Word, x: nat)
    requires x < WORD && Val(w) == (x + WORD - 1) % WORD
    ensures 1 <= x <= MAX ==> LeastPow2(Val(Smear(w)) + 1, x) && Val(Smear(w)) + 1 <= MAX
    ensures !(1 <= x <= MAX) ==> Val(Smear(w)) + 1 == WORD
  {
    hide Smear, Pow2;
    var t := HighestBit(w);
    PowersUpTo32();
    if t < 0 {
      SmearedZero(w);
      Pow2Zero();
    } else {
      SmearedValue(w, t);
      if 1 <= x <= MAX { LeastBetween(t, x); }
      if t < 31 { Pow2Monotone(t + 1, 31); }
    }
  }

  lemma {:induction false} Pow2Zero()
    ensures Pow2(0) == 1 && forall k: nat :: 1 <= Pow2(k)
  {
  }

  /**
    `_RoundPow2` on every 32-bit argument: the least power of two not below x exactly when
    1 <= x <= 2^31, and the wrapped result 0 for every other x.
   */
  method RoundPow2(x: nat) returns (r: nat)
    requires x < WORD
    ensures 1 <= x <= MAX ==> LeastPow2(r, x) && r <= MAX
    ensures !(1 <= x <= MAX) ==> r == 0
  {
    hide Pow2, Val, ToBits, Or, Shr, LeastPow2;
    PowersUpTo32();
    var y := (x + WORD - 1) % WORD;
    ValOfBits(y, 32);
    var w: Word := ToBits(y, 32);
    var v := w;
    v := Or(v, Shr(v, 1));
    v := Or(v, Shr(v, 2));
    v := Or(v, Shr(v, 4));
    v := Or(v, Shr(v, 8));
    v := Or(v, Shr(v, 16));
    SmearedIsRounded(w, x);
    r := (Val(v) + 1) % WORD;
  }
}
