/**
  The wire format of buf.c, stated without reference to the code that writes or reads it: where
  each value starts and ends, and which bytes of a buffer represent it.  Padding bytes are
  unconstrained.
 */
module BufFormat {
  import opened Memory

  datatype Option<T> = None | Some(value: T)

  /**
    A value that can be packed.  `Arr(k, bytes)` is an array of |bytes| / k elements of k bytes
    each, given by its memory image; the array of datetimes is `Arr(36, _)`.
   */
  datatype Value =
    | U(k: nat, n: nat)
    | Str(s: Option<seq<byte>>)
    | Arr(k: nat, bytes: seq<byte>)
    | StrA(ss: seq<seq<byte>>)
    | DT(image: seq<byte>)

  const DT_SIZE: nat := 36

  predicate IsString(s: seq<byte>) { 0 !in s }

  predicate IsWidth(k: nat) { k == 1 || k == 2 || k == 4 || k == 8 }

  /** `bytes` is a whole number of elements of `k` bytes; how many. */
  predicate Whole(bytes: seq<byte>, k: nat)
    requires 0 < k
  {
    |bytes| % k == 0
  }

  function Count(bytes: seq<byte>, k: nat): nat
    requires 0 < k
  {
    |bytes| / k
  }

  predicate Packable(v: Value) {
    match v
    case U(k, n) => IsWidth(k) && n < Pow256(k)
    case Str(s) => s.Some? ==> IsString(s.value)
    case Arr(k, bytes) => (IsWidth(k) || k == DT_SIZE) && Whole(bytes, k)
    case StrA(ss) => forall i | 0 <= i < |ss| :: IsString(ss[i])
    case DT(image) => |image| == DT_SIZE
  }

  /** The first multiple of `k` that is not below `x`. */
  function Up(x: nat, k: nat): nat
    requires 0 < k
  {
    (x + k - 1) / k * k
  }

  lemma {:induction false} UpIsLeastMultiple(x: nat, k: nat)
    requires IsWidth(k)
    ensures x <= Up(x, k) < x + k && Up(x, k) % k == 0
  {
    if k == 1 { assert Up(x, 1) == x; }
  }

  /** Where the payload starts: after the aligned 32-bit count. */
  function Payload(at: nat): nat { Up(at, 4) + 4 }

  /** Distance from the first string of `ss` to string `i`, each one ending in a zero byte. */
  function Offset(ss: seq<seq<byte>>, i: nat): nat
    requires i <= |ss|
  {
    if i == 0 then 0 else Offset(ss, i - 1) + |ss[i - 1]| + 1
  }

  /** Where the offset table of a string array starts, and where its strings start. */
  function TableStart(at: nat): nat { Up(Payload(at), 8) }

  function StringsStart(at: nat, n: nat): nat { TableStart(at) + 8 * (n + 1) }

  /** Where the elements of a non-empty array start: only 8-byte elements are aligned. */
  function ArrStart(at: nat, k: nat): nat {
    if k == 8 then Up(Payload(at), 8) else Payload(at)
  }

  /** The position after `v` when `v` is written at position `at`. */
  function End(at: nat, v: Value): nat
    requires Packable(v)
  {
    match v
    case U(k, _) => Up(at, k) + k
    case Str(None) => Payload(at)
    case Str(Some(s)) => Payload(at) + |s| + 1
    case Arr(k, bytes) => if bytes == [] then Payload(at) else ArrStart(at, k) + |bytes|
    case StrA(ss) => if ss == [] then Payload(at) else StringsStart(at, |ss|) + Offset(ss, |ss|)
    case DT(_) => Up(at, 4) + DT_SIZE
  }

  /** `s` lies at `p`. */
  predicate Holds(m: seq<byte>, p: nat, s: seq<byte>) {
    p + |s| <= |m| && m[p..p + |s|] == s
  }

  /** A zero-terminated string. */
  predicate HoldsString(m: seq<byte>, p: nat, s: seq<byte>) {
    Holds(m, p, s) && p + |s| < |m| && m[p + |s|] == 0
  }

  function Word(m: seq<byte>, p: nat): nat
    requires p + 8 <= |m|
  {
    Decode(m[p..p + 8])
  }

  /** Entry `i` of the table at `t` is `c` plus the distance of string `i`. */
  ghost predicate HoldsTable(m: seq<byte>, t: nat, ss: seq<seq<byte>>, c: nat) {
    && t + 8 * (|ss| + 1) <= |m|
    && c + Offset(ss, |ss|) < 0x8000_0000_0000_0000
    && forall i | 0 <= i <= |ss| :: Word(m, t + 8 * i) == c + Offset(ss, i)
  }

  ghost predicate HoldsStrings(m: seq<byte>, d: nat, ss: seq<seq<byte>>) {
    forall i | 0 <= i < |ss| :: HoldsString(m, d + Offset(ss, i), ss[i])
  }

  ghost predicate HoldsCount(m: seq<byte>, at: nat, n: nat) {
    n < 0x1_0000_0000 && Holds(m, Up(at, 4), Encode(n, 4))
  }

  /**
    The bytes of `m` from `at` on represent `v`.  A string table may be relative to any base:
    packing writes base 0, unpacking replaces it by an address.
   */
  ghost predicate Encodes(m: seq<byte>, at: nat, v: Value)
    requires Packable(v)
  {
    End(at, v) <= |m| && match v
    case U(k, n) => Holds(m, Up(at, k), Encode(n, k))
    case Str(None) => HoldsCount(m, at, 0)
    case Str(Some(s)) => HoldsCount(m, at, |s| + 1) && HoldsString(m, Payload(at), s)
    case Arr(k, bytes) =>
      HoldsCount(m, at, Count(bytes, k)) && (bytes != [] ==> Holds(m, ArrStart(at, k), bytes))
    case StrA(ss) => HoldsCount(m, at, |ss|) && (ss != [] ==> HoldsArray(m, at, ss))
    case DT(image) => Holds(m, Up(at, 4), image)
  }

  ghost predicate HoldsArray(m: seq<byte>, at: nat, ss: seq<seq<byte>>) {
    && (exists c: nat :: HoldsTable(m, TableStart(at), ss, c))
    && HoldsStrings(m, StringsStart(at, |ss|), ss)
  }

  // ---------------------------------------------------------------------------------------
  // Positions and frames
  // ---------------------------------------------------------------------------------------

  lemma {:induction false} EndAdvances(at: nat, v: Value)
    requires Packable(v)
    ensures at <= End(at, v)
  {
    UpIsLeastMultiple(at, 4);
    UpIsLeastMultiple(Payload(at), 8);
    if v.U? { UpIsLeastMultiple(at, v.k); }
  }

  lemma {:induction false} OffsetMonotone(ss: seq<seq<byte>>, i: nat, j: nat)
    requires i <= j <= |ss|
    ensures Offset(ss, i) <= Offset(ss, j)
    ensures i < j ==> Offset(ss, i) + |ss[i]| + 1 <= Offset(ss, j)
    decreases j
  {
    if i < j { OffsetMonotone(ss, i, j - 1); }
  }

  /** The bytes [lo, hi) are the same in both buffers. */
  ghost predicate Same(m: seq<byte>, n: seq<byte>, lo: nat, hi: nat) {
    lo <= hi && hi <= |m| && hi <= |n| && forall i | lo <= i < hi :: m[i] == n[i]
  }

  lemma {:induction false} SameHolds(m: seq<byte>, n: seq<byte>, lo: nat, hi: nat, p: nat, s: seq<byte>)
    requires Same(m, n, lo, hi) && lo <= p && p + |s| <= hi && Holds(m, p, s)
    ensures Holds(n, p, s)
  {
    assert n[p..p + |s|] == m[p..p + |s|];
  }

  lemma {:induction false} SameString(m: seq<byte>, n: seq<byte>, lo: nat, hi: nat, p: nat, s: seq<byte>)
    requires Same(m, n, lo, hi) && lo <= p && p + |s| < hi && HoldsString(m, p, s)
    ensures HoldsString(n, p, s)
  {
    SameHolds(m, n, lo, hi, p, s);
  }

  lemma {:induction false} SameTable(m: seq<byte>, n: seq<byte>, lo: nat, hi: nat, t: nat, ss: seq<seq<byte>>, c: nat)
    requires Same(m, n, lo, hi) && lo <= t && t + 8 * (|ss| + 1) <= hi && HoldsTable(m, t, ss, c)
    ensures HoldsTable(n, t, ss, c)
  {
    forall i | 0 <= i <= |ss| ensures Word(n, t + 8 * i) == c + Offset(ss, i) {
      assert n[t + 8 * i..t + 8 * i + 8] == m[t + 8 * i..t + 8 * i + 8];
    }
  }

  lemma {:induction false} SameStrings(m: seq<byte>, n: seq<byte>, lo: nat, hi: nat, d: nat, ss: seq<seq<byte>>)
    requires Same(m, n, lo, hi) && lo <= d && d + Offset(ss, |ss|) <= hi && HoldsStrings(m, d, ss)
    ensures HoldsStrings(n, d, ss)
  {
    hide Offset, HoldsString, Same;
    forall i | 0 <= i < |ss| ensures HoldsString(n, d + Offset(ss, i), ss[i]) {
      OffsetMonotone(ss, i, |ss|);
      SameString(m, n, lo, hi, d + Offset(ss, i), ss[i]);
    }
  }

  lemma {:induction false} Starts(at: nat)
    ensures at <= Up(at, 4) < Payload(at) <= TableStart(at)
  {
    UpIsLeastMultiple(at, 4);
    UpIsLeastMultiple(Payload(at), 8);
  }

  lemma {:induction false} SameArray(m: seq<byte>, n: seq<byte>, lo: nat, hi: nat, at: nat, ss: seq<seq<byte>>)
    requires HoldsArray(m, at, ss) && Same(m, n, lo, hi)
    requires lo <= TableStart(at) && StringsStart(at, |ss|) + Offset(ss, |ss|) <= hi
    ensures HoldsArray(n, at, ss)
  {
    hide HoldsTable, HoldsStrings, Same, Offset, TableStart;
    var c: nat :| HoldsTable(m, TableStart(at), ss, c);
    SameTable(m, n, lo, hi, TableStart(at), ss, c);
    SameStrings(m, n, lo, hi, StringsStart(at, |ss|), ss);
  }

  lemma {:induction false} SameCount(m: seq<byte>, n: seq<byte>, lo: nat, hi: nat, at: nat, x: nat)
    requires HoldsCount(m, at, x) && Same(m, n, lo, hi) && lo <= at && Payload(at) <= hi
    ensures HoldsCount(n, at, x)
  {
    hide Up, Encode, Holds;
    UpIsLeastMultiple(at, 4);
    SameHolds(m, n, lo, hi, Up(at, 4), Encode(x, 4));
  }

  /** Whether `v` is represented depends only on the bytes from `at` up to its end. */
  lemma {:induction false} EncodesFrame(m: seq<byte>, n: seq<byte>, at: nat, v: Value)
    requires Packable(v) && Encodes(m, at, v) && Same(m, n, at, End(at, v))
    ensures Encodes(n, at, v)
  {
    var hi := End(at, v);
    assert hi <= |n|;
    hide HoldsArray, HoldsString, HoldsCount, Holds, Same, Offset, Up, Encode, Pow256, Payload, TableStart, Count,
      Whole;
    Starts(at);
    match v
    case U(k, x) => UpIsLeastMultiple(at, k); SameHolds(m, n, at, hi, Up(at, k), Encode(x, k));
    case Str(None) => SameCount(m, n, at, hi, at, 0);
    case Str(Some(s)) =>
      SameCount(m, n, at, hi, at, |s| + 1);
      SameString(m, n, at, hi, Payload(at), s);
    case Arr(k, bytes) =>
      UpIsLeastMultiple(Payload(at), 8);
      SameCount(m, n, at, hi, at, Count(bytes, k));
      if bytes != [] { SameHolds(m, n, at, hi, ArrStart(at, k), bytes); }
    case StrA(ss) =>
      SameCount(m, n, at, hi, at, |ss|);
      if ss != [] { SameArray(m, n, at, hi, at, ss); }
    case DT(image) => SameHolds(m, n, at, hi, Up(at, 4), image);
  }

  // ---------------------------------------------------------------------------------------
  // The format is unambiguous
  // ---------------------------------------------------------------------------------------

  /** What an unpacking call is told: everything but the content. */
  datatype Kind = KU(k: nat) | KStr | KArr(k: nat) | KStrA | KDT

  function KindOf(v: Value): Kind {
    match v
    case U(k, _) => KU(k)
    case Str(_) => KStr
    case Arr(k, _) => KArr(k)
    case StrA(_) => KStrA
    case DT(_) => KDT
  }

  lemma {:induction false} CountIsUnique(m: seq<byte>, at: nat, x: nat, y: nat)
    requires HoldsCount(m, at, x) && HoldsCount(m, at, y)
    ensures x == y
  {
    assert Pow256(4) == 0x1_0000_0000;
    DecodeEncode(x, 4);
    DecodeEncode(y, 4);
  }

  lemma {:induction false} ByteOf(m: seq<byte>, p: nat, s: seq<byte>, i: nat)
    requires Holds(m, p, s) && i < |s|
    ensures m[p + i] == s[i]
  {
    assert m[p..p + |s|][i] == m[p + i];
  }

  lemma {:induction false} StringIsNotLonger(m: seq<byte>, p: nat, s: seq<byte>, r: seq<byte>)
    requires HoldsString(m, p, s) && HoldsString(m, p, r) && IsString(r)
    ensures |r| <= |s|
  {
    if |s| < |r| { ByteOf(m, p, r, |s|); }
  }

  lemma {:induction false} StringIsUnique(m: seq<byte>, p: nat, s: seq<byte>, r: seq<byte>)
    requires HoldsString(m, p, s) && HoldsString(m, p, r) && IsString(s) && IsString(r)
    ensures s == r
  {
    StringIsNotLonger(m, p, s, r);
    StringIsNotLonger(m, p, r, s);
  }

  lemma {:induction false} StringAt(m: seq<byte>, d: nat, ss: seq<seq<byte>>, i: nat)
    requires HoldsStrings(m, d, ss) && Packable(StrA(ss)) && i < |ss|
    ensures HoldsString(m, d + Offset(ss, i), ss[i]) && IsString(ss[i])
  {
  }

  lemma {:induction false} StringsAreUnique(m: seq<byte>, d: nat, ss: seq<seq<byte>>, rr: seq<seq<byte>>, i: nat)
    requires |ss| == |rr| && HoldsStrings(m, d, ss) && HoldsStrings(m, d, rr) && i <= |ss|
    requires Packable(StrA(ss)) && Packable(StrA(rr))
    ensures (forall j | 0 <= j < i :: ss[j] == rr[j]) && Offset(ss, i) == Offset(rr, i)
    decreases i
  {
    hide HoldsStrings, HoldsString, IsString, Packable;
    if i > 0 {
      StringsAreUnique(m, d, ss, rr, i - 1);
      StringAt(m, d, ss, i - 1);
      StringAt(m, d, rr, i - 1);
      StringIsUnique(m, d + Offset(ss, i - 1), ss[i - 1], rr[i - 1]);
    }
  }

  lemma {:induction false} StrIsUnique(m: seq<byte>, at: nat, s: Option<seq<byte>>, r: Option<seq<byte>>)
    requires Packable(Str(s)) && Packable(Str(r)) && Encodes(m, at, Str(s)) && Encodes(m, at, Str(r))
    ensures s == r
  {
    hide Holds, HoldsCount, HoldsString, Payload, IsString;
    CountIsUnique(m, at, if s.Some? then |s.value| + 1 else 0, if r.Some? then |r.value| + 1 else 0);
    if s.Some? && r.Some? { StringIsUnique(m, Payload(at), s.value, r.value); }
  }

  lemma {:induction false} StrAIsUnique(m: seq<byte>, at: nat, ss: seq<seq<byte>>, rr: seq<seq<byte>>)
    requires Packable(StrA(ss)) && Packable(StrA(rr)) && Encodes(m, at, StrA(ss)) && Encodes(m, at, StrA(rr))
    ensures ss == rr
  {
    hide HoldsTable, HoldsStrings, HoldsCount, Offset, StringsStart, IsString;
    CountIsUnique(m, at, |ss|, |rr|);
    if ss != [] && rr != [] { StringsAreUnique(m, StringsStart(at, |ss|), ss, rr, |ss|); }
  }

  lemma {:induction false} ArrIsUnique(m: seq<byte>, at: nat, k: nat, a: seq<byte>, b: seq<byte>)
    requires Packable(Arr(k, a)) && Packable(Arr(k, b)) && Encodes(m, at, Arr(k, a)) && Encodes(m, at, Arr(k, b))
    ensures a == b
  {
    hide HoldsCount, ArrStart, Payload;
    CountIsUnique(m, at, Count(a, k), Count(b, k));
    assert |a| == |a| / k * k && |b| == |b| / k * k;
  }

  /** One buffer position represents at most one value of a kind. */
  lemma {:induction false} EncodesIsUnique(m: seq<byte>, at: nat, v: Value, w: Value)
    requires Packable(v) && Packable(w) && KindOf(v) == KindOf(w)
    requires Encodes(m, at, v) && Encodes(m, at, w)
    ensures v == w
  {
    match v
    case U(k, x) => DecodeEncode(x, k); DecodeEncode(w.n, k);
    case Str(s) => StrIsUnique(m, at, s, w.s);
    case Arr(k, bytes) => ArrIsUnique(m, at, k, bytes, w.bytes);
    case StrA(ss) => StrAIsUnique(m, at, ss, w.ss);
    case DT(_) =>
  }

  // ---------------------------------------------------------------------------------------
  // Lists of values
  // ---------------------------------------------------------------------------------------

  ghost predicate AllPackable(vs: seq<Value>) {
    forall i | 0 <= i < |vs| :: Packable(vs[i])
  }

  /** The position after the first `i` values of a list written from `at` on. */
  ghost function Pos(at: nat, vs: seq<Value>, i: nat): nat
    requires i <= |vs| && AllPackable(vs)
  {
    if i == 0 then at else End(Pos(at, vs, i - 1), vs[i - 1])
  }

  lemma {:induction false} PosMonotone(at: nat, vs: seq<Value>, i: nat, j: nat)
    requires i <= j <= |vs| && AllPackable(vs)
    ensures at <= Pos(at, vs, i) <= Pos(at, vs, j)
    decreases j
  {
    if j > 0 {
      EndAdvances(Pos(at, vs, j - 1), vs[j - 1]);
      PosMonotone(at, vs, if i == j then j - 1 else i, j - 1);
    }
  }

  ghost predicate EncodesAll(m: seq<byte>, at: nat, vs: seq<Value>)
    requires AllPackable(vs)
  {
    forall i | 0 <= i < |vs| :: Encodes(m, Pos(at, vs, i), vs[i])
  }
}
