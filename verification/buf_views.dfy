/**
  What the serializer of buf.c hands out: how capacities grow, and what the pointers that
  unpacking returns denote.
 */
module BufViews {
  import opened Memory
  import opened BufFormat
  import Bits

  const MAX: nat := Bits.MAX
  const WORD: nat := Bits.WORD
  const MIN_CAPACITY: nat := 256

  /** Where `malloc` may place a buffer: a whole 32-bit range above it is below 2^63. */
  predicate IsAddress(a: nat) { 0 < a && a + WORD <= 0x4000_0000_0000_0000 }

  // ---------------------------------------------------------------------------------------
  // Growth
  // ---------------------------------------------------------------------------------------

  ghost function Sum(s: seq<nat>): nat {
    if s == [] then 0 else Sum(s[..|s| - 1]) + s[|s| - 1]
  }

  /** `old` lists the capacities given up so far: together they are less than the current one. */
  ghost predicate Grown(old_: seq<nat>, capacity: nat) {
    old_ != [] ==> (exists k: nat :: capacity == Bits.Pow2(k)) && Sum(old_) < capacity
  }

  lemma {:induction false} GrowthDoubles(old_: seq<nat>, capacity: nat, wanted: nat, next: nat)
    requires Grown(old_, capacity) && capacity < wanted && Bits.LeastPow2(next, wanted)
    ensures Grown(old_ + [capacity], next)
  {
    assert (old_ + [capacity])[..|old_|] == old_;
    if old_ != [] {
      var j: nat :| capacity == Bits.Pow2(j);
      var k: nat :| next == Bits.Pow2(k);
      if k <= j { Bits.Pow2Monotone(k, j); }
      Bits.Pow2Monotone(j + 1, k);
    }
  }

  // ---------------------------------------------------------------------------------------
  // What unpacking returns
  // ---------------------------------------------------------------------------------------

  /** A number, a copied-out image, a pointer (0 is NULL), or a pointer with an element count. */
  datatype View = Number(n: nat) | Image(bytes: seq<byte>) | Pointer(p: nat) | Elements(p: nat, count: nat)

  /** What the returned `w` means to a reader of the buffer `m` that lies at `base`. */
  ghost predicate Denotes(m: seq<byte>, base: nat, w: View, v: Value)
    requires Packable(v)
  {
    match v
    case U(_, n) => w == Number(n)
    case Str(None) => w == Pointer(0)
    case Str(Some(s)) => w.Pointer? && PointsTo(m, base, w.p, s)
    case Arr(k, bytes) =>
      if bytes == [] then w == Elements(0, 0)
      else w.Elements? && w.count == Count(bytes, k) && base <= w.p && Holds(m, w.p - base, bytes)
    case StrA(ss) =>
      if ss == [] then w == Elements(0, 0)
      else w.Elements? && w.count == |ss| && PointsToAll(m, base, w.p, ss)
    case DT(image) => w == Image(image)
  }

  ghost predicate PointsTo(m: seq<byte>, base: nat, p: nat, s: seq<byte>) {
    0 < base <= p && HoldsString(m, p - base, s)
  }

  /** The words from `p` on are pointers to the strings `ss`. */
  ghost predicate PointsToAll(m: seq<byte>, base: nat, p: nat, ss: seq<seq<byte>>) {
    && base <= p && p - base + 8 * |ss| <= |m|
    && forall i | 0 <= i < |ss| :: PointsTo(m, base, Word(m, p - base + 8 * i), ss[i])
  }

  /** The result that unpacking `v` from position `at` has to return. */
  ghost function ViewOf(base: nat, at: nat, v: Value): View
    requires Packable(v)
  {
    match v
    case U(_, n) => Number(n)
    case Str(None) => Pointer(0)
    case Str(Some(s)) => Pointer(base + Payload(at))
    case Arr(k, bytes) => if bytes == [] then Elements(0, 0) else Elements(base + ArrStart(at, k), Count(bytes, k))
    case StrA(ss) => if ss == [] then Elements(0, 0) else Elements(base + TableStart(at), |ss|)
    case DT(image) => Image(image)
  }

  /** `v` is represented at `at`, and a string table there holds the addresses of its strings. */
  ghost predicate Resolved(m: seq<byte>, base: nat, at: nat, v: Value)
    requires Packable(v)
  {
    && Encodes(m, at, v)
    && (v.StrA? && v.ss != [] ==> HoldsTable(m, TableStart(at), v.ss, base + StringsStart(at, |v.ss|)))
  }

  lemma {:induction false} ResolvedFrame(m: seq<byte>, n: seq<byte>, base: nat, at: nat, v: Value)
    requires Packable(v) && Resolved(m, base, at, v) && Same(m, n, at, End(at, v))
    ensures Resolved(n, base, at, v)
  {
    hide Encodes, HoldsTable, Same;
    EncodesFrame(m, n, at, v);
    if v.StrA? && v.ss != [] {
      Starts(at);
      SameTable(m, n, at, End(at, v), TableStart(at), v.ss, base + StringsStart(at, |v.ss|));
    }
  }

  lemma {:induction false} ArrayDenotes(m: seq<byte>, base: nat, at: nat, ss: seq<seq<byte>>)
    requires 0 < base && ss != [] && Packable(StrA(ss)) && Resolved(m, base, at, StrA(ss))
    ensures PointsToAll(m, base, base + TableStart(at), ss)
  {
    hide HoldsString, Offset, TableStart, Word, IsString;
    forall i | 0 <= i < |ss| ensures PointsTo(m, base, Word(m, TableStart(at) + 8 * i), ss[i]) {
      StringAt(m, StringsStart(at, |ss|), ss, i);
    }
  }

  lemma {:induction false} ResolvedDenotes(m: seq<byte>, base: nat, at: nat, v: Value)
    requires Packable(v) && 0 < base && Resolved(m, base, at, v)
    ensures Denotes(m, base, ViewOf(base, at, v), v)
  {
    hide HoldsTable, HoldsStrings, Holds, HoldsString, Up;
    if v.StrA? && v.ss != [] { ArrayDenotes(m, base, at, v.ss); }
  }
}
