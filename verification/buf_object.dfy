/**
  The serializer itself: a growing byte buffer that packs at `size` and unpacks at `offset`.
  Every packing method is specified by the wire format; every unpacking method returns pointers
  into the buffer, specified by where the format says the value lies.
 */
module BufObject {
  import opened Memory
  import opened BufFormat
  import opened BufViews
  import Bits

  /** `(x + (k - 1)) & ~(k - 1)` on a 32-bit word. */
  function Up32(x: nat, k: nat): nat
    requires IsWidth(k)
  {
    var y := (x + k - 1) % WORD;
    y - y % k
  }

  lemma {:induction false} Up32IsUp(x: nat, k: nat)
    requires IsWidth(k) && x <= MAX
    ensures Up32(x, k) == Up(x, k)
  {
  }

  predicate IsAligned(x: nat) { x % 8 == 0 }

  lemma {:induction false} UpAligned(x: nat)
    requires IsAligned(x)
    ensures Up(x, 8) == x
  {
  }

  lemma {:induction false} Aligned(x: nat, i: nat)
    requires IsAligned(x) && x + 8 * i <= MAX
    ensures Up32(x + 8 * i, 8) == x + 8 * i
  {
  }

  /** A null element packs nothing; the others are as given. */
  function Present(data: seq<Option<seq<byte>>>): (ss: seq<seq<byte>>)
    ensures |ss| == |data|
  {
    seq(|data|, i requires 0 <= i < |data| => if data[i].Some? then data[i].value else [])
  }

  lemma {:induction false} PrefixIsSame(m: seq<byte>, n: seq<byte>, lo: nat, hi: nat)
    requires m <= n && lo <= hi <= |m|
    ensures Same(m, n, lo, hi) && Same(n, m, lo, hi)
  {
  }

  lemma {:induction false} Terminated(m: seq<byte>, p: nat, s: seq<byte>)
    requires Holds(m, p, s + [0])
    ensures HoldsString(m, p, s)
  {
    assert m[p..p + |s|] == m[p..p + |s| + 1][..|s|];
    ByteOf(m, p, s + [0], |s|);
  }

  lemma {:induction false} CountIsSmaller(bytes: seq<byte>, k: nat)
    requires IsWidth(k) || k == DT_SIZE
    ensures Count(bytes, k) <= |bytes|
  {
  }

  // The two halves of packing a string array, as far as element `i`.

  ghost predicate TableUpTo(m: seq<byte>, t: nat, ss: seq<seq<byte>>, i: nat)
    requires i <= |ss| + 1
  {
    t + 8 * i <= |m| && forall j | 0 <= j < i :: Word(m, t + 8 * j) == Offset(ss, j)
  }

  lemma {:induction false} TableStep(m: seq<byte>, n: seq<byte>, t: nat, ss: seq<seq<byte>>, i: nat)
    requires i <= |ss| && TableUpTo(m, t, ss, i) && m <= n && Offset(ss, i) < Pow256(8)
    requires Holds(n, t + 8 * i, Encode(Offset(ss, i), 8))
    ensures TableUpTo(n, t, ss, i + 1)
  {
    hide Offset, Encode, Pow256;
    DecodeEncode(Offset(ss, i), 8);
    forall j | 0 <= j < i + 1 ensures Word(n, t + 8 * j) == Offset(ss, j) {
      if j < i { assert m[t + 8 * j..t + 8 * j + 8] == n[t + 8 * j..t + 8 * j + 8]; }
    }
  }

  ghost predicate StringsUpTo(m: seq<byte>, d: nat, ss: seq<seq<byte>>, i: nat)
    requires i <= |ss|
  {
    forall j | 0 <= j < i :: HoldsString(m, d + Offset(ss, j), ss[j])
  }

  lemma {:induction false} StringsStep(m: seq<byte>, n: seq<byte>, d: nat, ss: seq<seq<byte>>, i: nat)
    requires i < |ss| && StringsUpTo(m, d, ss, i) && m <= n && d + Offset(ss, i) <= |m|
    requires HoldsString(n, d + Offset(ss, i), ss[i])
    ensures StringsUpTo(n, d, ss, i + 1)
  {
    hide Offset, HoldsString;
    PrefixIsSame(m, n, 0, |m|);
    forall j | 0 <= j < i + 1 ensures HoldsString(n, d + Offset(ss, j), ss[j]) {
      if j < i {
        OffsetMonotone(ss, j, i);
        SameString(m, n, 0, |m|, d + Offset(ss, j), ss[j]);
      }
    }
  }

  lemma {:induction false} AllStrings(m: seq<byte>, d: nat, ss: seq<seq<byte>>)
    requires StringsUpTo(m, d, ss, |ss|)
    ensures HoldsStrings(m, d, ss)
  {
  }

  /** A complete table from base 0 and the strings behind it make up the array. */
  lemma {:induction false} ArrayComplete(m: seq<byte>, n: seq<byte>, at: nat, ss: seq<seq<byte>>)
    requires TableUpTo(m, TableStart(at), ss, |ss| + 1) && |m| == StringsStart(at, |ss|) && m <= n
    requires HoldsStrings(n, |m|, ss) && Offset(ss, |ss|) <= MAX
    ensures HoldsArray(n, at, ss)
  {
    hide Offset, HoldsString, Up, Word;
    PrefixIsSame(m, n, 0, |m|);
    SameTable(m, n, 0, |m|, TableStart(at), ss, 0);
  }

  lemma {:induction false} NextOffset(elements: seq<Option<seq<byte>>>, i: nat)
    requires i < |elements| && (Given(elements, |elements|) || elements[i].Some?)
    ensures elements[i].Some?
    ensures Present(elements)[i] == elements[i].value
    ensures Offset(Present(elements), i + 1) == Offset(Present(elements), i) + |elements[i].value| + 1
  {
  }

  /** None of the first `i` elements is null. */
  predicate Given(elements: seq<Option<seq<byte>>>, i: nat)
    requires i <= |elements|
  {
    forall j | 0 <= j < i :: elements[j].Some?
  }

  lemma {:induction false} GivenNext(elements: seq<Option<seq<byte>>>, i: nat)
    requires i < |elements| && Given(elements, i)
    ensures Given(elements, i + 1) == elements[i].Some?
    ensures elements[i].None? ==> !Given(elements, |elements|)
  {
  }

  /** `sizes` holds the sizes of the first `i` strings, up to 64 of them. */
  predicate Remembered(elements: seq<Option<seq<byte>>>, i: nat, sizes: seq<nat>)
    requires i <= |elements|
  {
    && |sizes| == (if i < 64 then i else 64)
    && forall j | 0 <= j < |sizes| :: elements[j].Some? && sizes[j] == |elements[j].value| + 1
  }

  lemma {:induction false} NothingPacked(m: seq<byte>, p: nat, elements: seq<Option<seq<byte>>>)
    requires p <= |m|
    ensures var ss := Present(elements); Offset(ss, 0) == 0 && TableUpTo(m, p, ss, 0) && StringsUpTo(m, p, ss, 0)
    ensures Given(elements, 0) && Remembered(elements, 0, [])
  {
  }

  function Remember(sizes: seq<nat>, i: nat, n: nat): seq<nat> { if i < 64 then sizes + [n] else sizes }

  lemma {:induction false} RememberNext(elements: seq<Option<seq<byte>>>, i: nat, sizes: seq<nat>)
    requires i < |elements| && elements[i].Some? && Remembered(elements, i, sizes)
    ensures Remembered(elements, i + 1, Remember(sizes, i, |elements[i].value| + 1))
  {
  }

  lemma {:induction false} WordsAre64Bits()
    ensures Pow256(8) == 0x1_0000_0000_0000_0000 && Pow256(4) == WORD
  {
    assert Pow256(4) == WORD;
    assert Pow256(6) == 65536 * WORD;
  }

  // ---------------------------------------------------------------------------------------
  // Unpacking what was packed
  // ---------------------------------------------------------------------------------------

  /** The buffer holds a first part `m` of bytes `whole` in which a `v` of kind `kind` lies at `at`. */
  ghost predicate Promised(m: seq<byte>, whole: seq<byte>, at: nat, kind: Kind, v: Value) {
    Packable(v) && KindOf(v) == kind && m <= whole && |whole| <= MAX && Encodes(whole, at, v)
  }

  /** How much of the buffer the code checks before it returns `v`. */
  ghost function Checked(at: nat, v: Value): nat
    requires Packable(v)
  {
    if v.Arr? && v.k == DT_SIZE then Payload(at) else End(at, v)
  }

  /** Unpacking fails exactly when the part that is checked is cut off, and else returns `v`. */
  ghost predicate Outcome(size: nat, base: nat, at: nat, v: Value, ok: bool, w: View, offset: nat)
    requires Packable(v)
  {
    && (ok <==> Checked(at, v) <= size)
    && (ok ==> offset == End(at, v) && w == ViewOf(base, at, v))
  }

  lemma {:induction false} SliceOfPrefix(m: seq<byte>, whole: seq<byte>, p: nat, s: seq<byte>)
    requires m <= whole && Holds(whole, p, s) && p + |s| <= |m|
    ensures m[p..p + |s|] == s
  {
    assert m[p..p + |s|] == whole[p..p + |s|];
  }

  lemma {:induction false} NumberRead(m: seq<byte>, whole: seq<byte>, at: nat, v: Value)
    requires v.U? && Promised(m, whole, at, KindOf(v), v)
    ensures Up32(at, v.k) + v.k == End(at, v)
    ensures End(at, v) <= |m| ==> Decode(m[Up32(at, v.k)..End(at, v)]) == v.n
  {
    hide Up32, Up, Encode, Pow256, Holds;
    EndAdvances(at, v);
    Up32IsUp(at, v.k);
    DecodeEncode(v.n, v.k);
    if End(at, v) <= |m| { SliceOfPrefix(m, whole, Up(at, v.k), Encode(v.n, v.k)); }
  }

  /** The count that precedes every value that has one. */
  function CountOf(v: Value): nat
    requires Packable(v) && (v.Str? || v.Arr? || v.StrA?)
  {
    match v
    case Str(s) => if s.Some? then |s.value| + 1 else 0
    case Arr(k, bytes) => Count(bytes, k)
    case StrA(ss) => |ss|
  }

  lemma {:induction false} CountRead(m: seq<byte>, whole: seq<byte>, at: nat, v: Value)
    requires (v.Str? || v.Arr? || v.StrA?) && Promised(m, whole, at, KindOf(v), v)
    ensures Up32(at, 4) + 4 == Payload(at) <= End(at, v) <= MAX
    ensures Payload(at) <= |m| ==> Decode(m[Up32(at, 4)..Payload(at)]) == CountOf(v)
  {
    hide Up32, Up, Encode, Pow256, Holds, HoldsString, HoldsArray, Count, Whole, Offset;
    Starts(at);
    UpIsLeastMultiple(Payload(at), 8);
    Up32IsUp(at, 4);
    WordsAre64Bits();
    assert HoldsCount(whole, at, CountOf(v));
    DecodeEncode(CountOf(v), 4);
    if Payload(at) <= |m| { SliceOfPrefix(m, whole, Up(at, 4), Encode(CountOf(v), 4)); }
  }

  lemma {:induction false} ImageRead(m: seq<byte>, whole: seq<byte>, at: nat, v: Value)
    requires v.DT? && Promised(m, whole, at, KindOf(v), v)
    ensures Up32(at, 4) + DT_SIZE == End(at, v)
    ensures End(at, v) <= |m| ==> m[Up32(at, 4)..End(at, v)] == v.image
  {
    hide Up32, Up, Holds;
    EndAdvances(at, v);
    Up32IsUp(at, 4);
    if End(at, v) <= |m| { SliceOfPrefix(m, whole, Up(at, 4), v.image); }
  }

  lemma {:induction false} ArrRead(m: seq<byte>, whole: seq<byte>, at: nat, v: Value)
    requires v.Arr? && Promised(m, whole, at, KindOf(v), v)
    ensures Count(v.bytes, v.k) * v.k == |v.bytes| && End(at, v) <= MAX
    ensures ArrStart(at, v.k) == if v.k == 8 then Up32(Payload(at), 8) else Payload(at)
    ensures v.bytes != [] ==> Payload(at) <= ArrStart(at, v.k)
  {
    hide Up32, Up, Holds, HoldsCount, Encode;
    Starts(at);
    if Payload(at) <= MAX { Up32IsUp(Payload(at), 8); }
  }

  /** A 64-bit word read as `ptrdiff_t`. */
  function Signed(x: nat): int { if x < 0x8000_0000_0000_0000 then x else x - 0x1_0000_0000_0000_0000 }

  /** Only bytes of [lo, hi) may differ. */
  ghost predicate SameBut(m: seq<byte>, n: seq<byte>, lo: nat, hi: nat) {
    |m| == |n| && forall j | 0 <= j < |m| && !(lo <= j < hi) :: m[j] == n[j]
  }

  /** The table while it is being rewritten: entries before `i` are relative to `e`, the others to `c`. */
  ghost predicate Half(m: seq<byte>, t: nat, ss: seq<seq<byte>>, c: nat, e: nat, i: nat) {
    && t + 8 * (|ss| + 1) <= |m|
    && c + Offset(ss, |ss|) < 0x8000_0000_0000_0000
    && forall j | 0 <= j <= |ss| :: Word(m, t + 8 * j) == (if j < i then e else c) + Offset(ss, j)
  }

  lemma {:induction false} HalfStart(m: seq<byte>, t: nat, ss: seq<seq<byte>>, c: nat, e: nat)
    requires HoldsTable(m, t, ss, c)
    ensures Half(m, t, ss, c, e, 0) && Offset(ss, 0) == 0
  {
    hide Word;
  }

  lemma {:induction false} HalfEntry(m: seq<byte>, t: nat, ss: seq<seq<byte>>, c: nat, e: nat, i: nat)
    requires Half(m, t, ss, c, e, i) && i <= |ss|
    ensures t + 8 * i + 8 <= |m| && Signed(Word(m, t + 8 * i)) == c + Offset(ss, i)
    ensures Offset(ss, 0) == 0
  {
    hide Word;
    OffsetMonotone(ss, i, |ss|);
  }

  lemma {:induction false} HalfStep(m: seq<byte>, n: seq<byte>, t: nat, ss: seq<seq<byte>>, c: nat, e: nat, i: nat)
    requires Half(m, t, ss, c, e, i) && i <= |ss| && |n| == |m|
    requires SameBut(m, n, t + 8 * i, t + 8 * i + 8)
    requires Word(n, t + 8 * i) == e + Offset(ss, i)
    ensures Half(n, t, ss, c, e, i + 1)
  {
    hide Offset;
    forall j | 0 <= j <= |ss| ensures Word(n, t + 8 * j) == (if j < i + 1 then e else c) + Offset(ss, j) {
      if j != i { assert n[t + 8 * j..t + 8 * j + 8] == m[t + 8 * j..t + 8 * j + 8]; }
    }
  }

  lemma {:induction false} HalfEnd(m: seq<byte>, t: nat, ss: seq<seq<byte>>, c: nat, e: nat)
    requires Half(m, t, ss, c, e, |ss| + 1) && e + Offset(ss, |ss|) < 0x8000_0000_0000_0000
    ensures HoldsTable(m, t, ss, e)
  {
    hide Word;
  }

  lemma {:induction false} Unwrapped(x: nat)
    requires x < 0x8000_0000_0000_0000
    ensures x % Pow256(8) == x
  {
    WordsAre64Bits();
  }

  lemma {:induction false} UpIsAligned(x: nat)
    ensures IsAligned(Up32(x, 8))
  {
  }

  /** The positions the code computes for a string array, none of which wraps. */
  lemma {:induction false} TableRead(at: nat, v: Value)
    requires v.StrA? && v.ss != [] && Packable(v) && End(at, v) <= MAX
    ensures Up32(Payload(at), 8) == TableStart(at) <= StringsStart(at, |v.ss|) <= End(at, v)
    ensures at <= TableStart(at) && StringsAt(TableStart(at), |v.ss|) == StringsStart(at, |v.ss|)
  {
    hide Up, Up32, Offset, IsString;
    Starts(at);
    Up32IsUp(Payload(at), 8);
  }

  lemma {:induction false} TableOf(m: seq<byte>, whole: seq<byte>, at: nat, v: Value) returns (c: nat)
    requires v.StrA? && v.ss != [] && Promised(m, whole, at, KStrA, v) && StringsStart(at, |v.ss|) <= |m|
    ensures HoldsTable(m, TableStart(at), v.ss, c)
  {
    hide HoldsTable, HoldsStrings, Offset, IsString, TableStart, HoldsCount;
    c :| HoldsTable(whole, TableStart(at), v.ss, c);
    PrefixIsSame(m, whole, 0, |m|);
    SameTable(whole, m, 0, |m|, TableStart(at), v.ss, c);
  }

  /** What `Buf_UnpackStrA` computes: the first string, and from the pointers the end, in 32 bits. */
  function StringsAt(t: nat, n: nat): (d: nat)
    ensures d < WORD
  {
    (t + (n + 1) % WORD * 8) % WORD
  }

  function Advance(d: nat, first: int, last: int): (o: nat)
    ensures o < WORD
  {
    (d + (last - first)) % WORD
  }

  lemma {:induction false} Ends(m: seq<byte>, t: nat, ss: seq<seq<byte>>, base: nat, d: nat)
    requires HoldsTable(m, t, ss, base + d) && d + Offset(ss, |ss|) <= MAX
    ensures Advance(d, Word(m, t), Word(m, t + 8 * |ss|)) == d + Offset(ss, |ss|)
  {
    hide Word;
    assert Word(m, t + 8 * 0) == base + d + Offset(ss, 0);
  }

  lemma {:induction false} PrefixEncodes(m: seq<byte>, whole: seq<byte>, at: nat, v: Value)
    requires Packable(v) && m <= whole && Encodes(whole, at, v) && End(at, v) <= |m|
    ensures Encodes(m, at, v)
  {
    hide Encodes, End, Packable;
    EndAdvances(at, v);
    PrefixIsSame(m, whole, at, End(at, v));
    EncodesFrame(whole, m, at, v);
  }

  lemma {:induction false} EmptyResolved(m: seq<byte>, whole: seq<byte>, base: nat, at: nat, v: Value)
    requires v.StrA? && Promised(m, whole, at, KStrA, v)
    ensures v.ss == [] && Payload(at) <= |m| ==> Resolved(m, base, at, v)
  {
    hide Encodes;
    if v.ss == [] && Payload(at) <= |m| { PrefixEncodes(m, whole, at, v); }
  }

  /** Rewriting the table, and nothing else, keeps the array. */
  lemma {:induction false} Rewritten(m: seq<byte>, n: seq<byte>, whole: seq<byte>, base: nat, at: nat, v: Value)
    requires v.StrA? && v.ss != [] && Promised(m, whole, at, KStrA, v) && End(at, v) <= |m|
    requires SameBut(m, n, TableStart(at), StringsStart(at, |v.ss|))
    requires HoldsTable(n, TableStart(at), v.ss, base + StringsStart(at, |v.ss|))
    ensures Resolved(n, base, at, v)
  {
    hide HoldsTable, HoldsStrings, HoldsCount, Offset, IsString, Up, Payload, TableStart;
    Starts(at);
    PrefixEncodes(m, whole, at, v);
    SameCount(m, n, 0, Payload(at), at, |v.ss|);
    SameStrings(m, n, StringsStart(at, |v.ss|), End(at, v), StringsStart(at, |v.ss|), v.ss);
  }

  class Buf {
    /** The bytes of the buffer; a buffer without memory has none. */
    var data: array<byte>

    /** The address of `data`. */
    var base: nat

    var size: nat
    var capacity: nat
    var offset: nat

    /** The capacities given up by growing. */
    ghost var grown: seq<nat>

    ghost predicate Valid()
      reads this
    {
      && data.Length == capacity && size <= capacity <= MAX && offset < WORD
      && IsAddress(base) && Grown(grown, capacity)
    }

    ghost function Bytes(): (m: seq<byte>)
      reads this`size, this`data, data
      ensures size <= data.Length ==> |m| == size
    {
      if size <= data.Length then data[..size] else []
    }

    /** `Buf_Init`. */
    constructor (wanted: nat)
      requires wanted <= MAX
      ensures Valid() && fresh(data) && Bytes() == [] && offset == 0 && grown == []
      ensures capacity == if wanted < MIN_CAPACITY then MIN_CAPACITY else wanted
    {
      var c := if wanted < MIN_CAPACITY then MIN_CAPACITY else wanted;
      data := new byte[c];
      assert IsAddress(8);
      var address: nat :| IsAddress(address);
      base := address;
      size, capacity, offset, grown := 0, c, 0, [];
    }

    /** `Buf_Reserve`: the bytes already there move along, and the capacity becomes a power of two. */
    method Reserve(wanted: nat)
      requires Valid() && wanted <= MAX
      modifies this
      ensures Valid() && size == old(size) && offset == old(offset) && wanted <= capacity
      ensures old(data[..]) <= data[..]
      ensures wanted <= old(capacity) ==> data == old(data) && base == old(base) && grown == old(grown)
      ensures wanted > old(capacity) ==>
        fresh(data) && Bits.LeastPow2(capacity, wanted) && grown == old(grown) + [old(capacity)]
    {
      if wanted > capacity {
        var c := Bits.RoundPow2(wanted);
        GrowthDoubles(grown, capacity, wanted, c);
        var page := new byte[c];
        forall i | 0 <= i < capacity { page[i] := data[i]; }
        grown := grown + [capacity];
        assert IsAddress(8);
        var address: nat :| IsAddress(address);
        data, base, capacity := page, address, c;
      }
    }

    /** Storing `s` at `at`: the `memcpy` and the scalar stores. */
    method Store(at: nat, s: seq<byte>)
      requires at + |s| <= data.Length
      modifies data
      ensures data[at..at + |s|] == s
      ensures forall i | 0 <= i < data.Length && !(at <= i < at + |s|) :: data[i] == old(data[i])
    {
      forall i | 0 <= i < |s| { data[at + i] := s[i]; }
    }

    /** Moving `size` forward to `next` and storing `s` there, growing if needed. */
    method Append(next: nat, s: seq<byte>)
      requires Valid() && size <= next && next + |s| <= MAX
      modifies this, data
      ensures Valid() && size == next + |s| && offset == old(offset)
      ensures data == old(data) || fresh(data)
      ensures old(Bytes()) <= Bytes() && Holds(Bytes(), next, s)
    {
      ghost var before := Bytes();
      if next + |s| > capacity { Reserve(next + |s|); }
      assert before <= data[..size];
      Store(next, s);
      size := next + |s|;
      assert forall i | 0 <= i < |before| :: data[i] == before[i];
      assert Bytes()[next..next + |s|] == data[next..next + |s|];
    }

    /** `Buf_App`. */
    method App(s: seq<byte>)
      requires Valid() && size + |s| <= MAX
      modifies this, data
      ensures Valid() && size == old(size) + |s| && offset == old(offset)
      ensures data == old(data) || fresh(data)
      ensures old(Bytes()) <= Bytes() && Holds(Bytes(), old(size), s)
    {
      Append(size, s);
    }

    /** `Buf_Pad16`, `Buf_Pad32`, `Buf_Pad64`: the skipped bytes keep whatever was there. */
    method Pad(k: nat)
      requires Valid() && IsWidth(k) && Up(size, k) <= MAX
      modifies this, data
      ensures Valid() && size == Up(old(size), k) && offset == old(offset)
      ensures data == old(data) || fresh(data)
      ensures old(Bytes()) <= Bytes()
    {
      UpIsLeastMultiple(size, k);
      Append(Up(size, k), []);
    }

    /** `Buf_PackU8`, `Buf_PackU16`, `Buf_PackU32`, `Buf_PackU64`. */
    method PackU(k: nat, n: nat)
      requires Valid() && Packable(U(k, n)) && End(size, U(k, n)) <= MAX
      modifies this, data
      ensures Valid() && size == End(old(size), U(k, n)) && offset == old(offset)
      ensures data == old(data) || fresh(data)
      ensures old(Bytes()) <= Bytes() && Encodes(Bytes(), old(size), U(k, n))
    {
      UpIsLeastMultiple(size, k);
      Append(Up(size, k), Encode(n, k));
    }

    method PackCount(n: nat)
      requires Valid() && n < WORD && Payload(size) <= MAX
      modifies this, data
      ensures Valid() && size == Payload(old(size)) && offset == old(offset)
      ensures data == old(data) || fresh(data)
      ensures old(Bytes()) <= Bytes() && HoldsCount(Bytes(), old(size), n)
    {
      assert Pow256(4) == WORD;
      PackU(4, n);
    }

    /** `Buf_PackStr` and `Buf_PackStrLen`. */
    method PackStr(s: Option<seq<byte>>)
      requires Valid() && Packable(Str(s)) && End(size, Str(s)) <= MAX
      modifies this, data
      ensures Valid() && size == End(old(size), Str(s)) && offset == old(offset)
      ensures data == old(data) || fresh(data)
      ensures old(Bytes()) <= Bytes() && Encodes(Bytes(), old(size), Str(s))
    {
      hide Up, HoldsCount, Grown;
      ghost var at := size;
      Starts(at);
      if s.None? {
        PackCount(0);
        return;
      }
      PackCount(|s.value| + 1);
      ghost var m := Bytes();
      App(s.value + [0]);
      PrefixIsSame(m, Bytes(), 0, Payload(at));
      SameCount(m, Bytes(), 0, Payload(at), at, |s.value| + 1);
      Terminated(Bytes(), Payload(at), s.value);
    }

    /** `Buf_PackU8A` to `Buf_PackU64A` and, with k = 36, `Buf_PackDTA`. */
    method PackArr(k: nat, bytes: seq<byte>)
      requires Valid() && Packable(Arr(k, bytes)) && End(size, Arr(k, bytes)) <= MAX
      modifies this, data
      ensures Valid() && size == End(old(size), Arr(k, bytes)) && offset == old(offset)
      ensures data == old(data) || fresh(data)
      ensures old(Bytes()) <= Bytes() && Encodes(Bytes(), old(size), Arr(k, bytes))
    {
      hide Up, HoldsCount, Holds, Grown, Whole;
      ghost var at := size;
      Starts(at);
      CountIsSmaller(bytes, k);
      PackCount(Count(bytes, k));
      ghost var m := Bytes();
      if bytes == [] { return; }
      UpIsLeastMultiple(size, 8);
      if k == 8 { Pad(8); }
      App(bytes);
      PrefixIsSame(m, Bytes(), 0, Payload(at));
      SameCount(m, Bytes(), 0, Payload(at), at, Count(bytes, k));
    }

    /** `Buf_PackDT`. */
    method PackDT(image: seq<byte>)
      requires Valid() && Packable(DT(image)) && End(size, DT(image)) <= MAX
      modifies this, data
      ensures Valid() && size == End(old(size), DT(image)) && offset == old(offset)
      ensures data == old(data) || fresh(data)
      ensures old(Bytes()) <= Bytes() && Encodes(Bytes(), old(size), DT(image))
    {
      Pad(4);
      App(image);
    }

    /** `Buf_PackPtrdiff_t` at an aligned position. */
    method PackWord(n: nat)
      requires Valid() && IsAligned(size) && size + 8 <= MAX && n < Pow256(8)
      modifies this, data
      ensures Valid() && size == old(size) + 8 && offset == old(offset)
      ensures data == old(data) || fresh(data)
      ensures old(Bytes()) <= Bytes() && Holds(Bytes(), old(size), Encode(n, 8))
    {
      hide Up, Encode, Pow256, Grown, Holds;
      UpAligned(size);
      PackU(8, n);
    }

    /** One entry of the offset table. */
    method PackEntry(ghost t: nat, ghost ss: seq<seq<byte>>, ghost i: nat, distance: nat)
      requires Valid() && IsAligned(t) && size == t + 8 * i && size + 8 <= MAX
      requires i <= |ss| && distance == Offset(ss, i) <= MAX && TableUpTo(Bytes(), t, ss, i)
      modifies this, data
      ensures Valid() && size == old(size) + 8 && offset == old(offset) && old(Bytes()) <= Bytes()
      ensures data == old(data) || fresh(data)
      ensures TableUpTo(Bytes(), t, ss, i + 1)
    {
      hide Grown, Encode, Pow256, Holds, TableUpTo, Offset;
      WordsAre64Bits();
      ghost var m := Bytes();
      PackWord(distance);
      TableStep(m, Bytes(), t, ss, i);
    }

    /** The table half of `Buf_PackStrA`; `sizes` remembers the first 64 lengths. */
    method PackTable(elements: seq<Option<seq<byte>>>) returns (ok: bool, distance: nat, sizes: seq<nat>)
      requires Valid() && IsAligned(size) && size + 8 * (|elements| + 1) <= MAX
      requires Offset(Present(elements), |elements|) <= MAX
      modifies this, data
      ensures Valid() && offset == old(offset) && old(Bytes()) <= Bytes()
      ensures data == old(data) || fresh(data)
      ensures ok == Given(elements, |elements|)
      ensures ok ==> size == old(size) + 8 * |elements| && distance == Offset(Present(elements), |elements|)
      ensures ok ==> TableUpTo(Bytes(), old(size), Present(elements), |elements|)
      ensures ok ==> Remembered(elements, |elements|, sizes)
    {
      hide Grown, TableUpTo, Present, Offset, Bytes, Remembered, Remember, IsAligned, Given;
      ghost var t := size;
      ghost var ss := Present(elements);
      sizes := [];
      NothingPacked(Bytes(), t, elements);
      distance := 0;
      var i := 0;
      while i < |elements|
        invariant i <= |elements| && Valid() && offset == old(offset) && old(Bytes()) <= Bytes()
        invariant data == old(data) || fresh(data)
        invariant size == t + 8 * i && distance == Offset(ss, i) && TableUpTo(Bytes(), t, ss, i)
        invariant Given(elements, i) && Remembered(elements, i, sizes)
      {
        GivenNext(elements, i);
        if elements[i].None? { return false, distance, sizes; }
        var n := |elements[i].value| + 1;
        RememberNext(elements, i, sizes);
        sizes := Remember(sizes, i, n);
        OffsetMonotone(ss, i, |ss|);
        NextOffset(elements, i);
        PackEntry(t, ss, i, distance);
        distance := distance + n;
        i := i + 1;
      }
      ok := true;
    }

    /** The first `n` bytes of `s` and its terminator, which are all of them. */
    method AppString(s: seq<byte>, n: nat)
      requires Valid() && n == |s| + 1 && size + n <= MAX
      modifies this, data
      ensures Valid() && size == old(size) + n && offset == old(offset)
      ensures data == old(data) || fresh(data)
      ensures old(Bytes()) <= Bytes() && HoldsString(Bytes(), old(size), s)
    {
      hide Grown;
      assert (s + [0])[..n] == s + [0];
      App((s + [0])[..n]);
      Terminated(Bytes(), old(size), s);
    }

    /** One string behind the table. */
    method PackElement(ghost d: nat, ghost ss: seq<seq<byte>>, ghost i: nat, s: seq<byte>, n: nat)
      requires Valid() && i < |ss| && s == ss[i] && n == |s| + 1 && size == d + Offset(ss, i) && size + n <= MAX
      requires StringsUpTo(Bytes(), d, ss, i)
      modifies this, data
      ensures Valid() && size == old(size) + n && offset == old(offset) && old(Bytes()) <= Bytes()
      ensures data == old(data) || fresh(data)
      ensures StringsUpTo(Bytes(), d, ss, i + 1)
    {
      hide Grown, Holds, HoldsString, StringsUpTo, Offset;
      ghost var m := Bytes();
      AppString(s, n);
      StringsStep(m, Bytes(), d, ss, i);
    }

    /** The strings themselves, one after the other. */
    method PackStrings(elements: seq<Option<seq<byte>>>, sizes: seq<nat>)
      requires Valid() && size + Offset(Present(elements), |elements|) <= MAX
      requires Given(elements, |elements|) && Remembered(elements, |elements|, sizes)
      modifies this, data
      ensures Valid() && offset == old(offset) && old(Bytes()) <= Bytes()
      ensures data == old(data) || fresh(data)
      ensures size == old(size) + Offset(Present(elements), |elements|)
      ensures HoldsStrings(Bytes(), old(size), Present(elements))
    {
      hide Grown, HoldsStrings, StringsUpTo, Present, Offset, Bytes, Given;
      ghost var d := size;
      ghost var ss := Present(elements);
      NothingPacked(Bytes(), d, elements);
      var i := 0;
      while i < |elements|
        invariant i <= |elements| && Valid() && offset == old(offset) && old(Bytes()) <= Bytes()
        invariant data == old(data) || fresh(data)
        invariant size == d + Offset(ss, i) && StringsUpTo(Bytes(), d, ss, i)
      {
        OffsetMonotone(ss, i, |ss|);
        NextOffset(elements, i);
        var n := if i < 64 then sizes[i] else |elements[i].value| + 1;
        PackElement(d, ss, i, elements[i].value, n);
        i := i + 1;
      }
      AllStrings(Bytes(), d, ss);
    }

    /** `Buf_PackStrA`: fails exactly on a missing array or a missing element. */
    method PackStrA(given: bool, elements: seq<Option<seq<byte>>>) returns (ok: bool)
      requires Valid() && Packable(StrA(Present(elements))) && End(size, StrA(Present(elements))) <= MAX
      modifies this, data
      ensures Valid() && offset == old(offset) && old(Bytes()) <= Bytes()
      ensures data == old(data) || fresh(data)
      ensures ok == (elements == [] || (given && Given(elements, |elements|)))
      ensures ok ==> size == End(old(size), StrA(Present(elements)))
      ensures ok ==> Encodes(Bytes(), old(size), StrA(Present(elements)))
    {
      hide Up, HoldsCount, HoldsArray, HoldsStrings, TableUpTo, Grown, Offset, IsString, Present, Given, Remembered,
        Bytes;
      ghost var at := size;
      ghost var ss := Present(elements);
      Starts(at);
      PackCount(|elements|);
      if elements == [] { return true; }
      if !given { return false; }
      UpIsLeastMultiple(size, 8);
      ghost var counted := Bytes();
      Pad(8);
      var distance, sizes;
      ok, distance, sizes := PackTable(elements);
      if !ok { return; }
      PackEntry(TableStart(at), ss, |elements|, distance);
      ghost var tabled := Bytes();
      PackStrings(elements, sizes);
      PrefixIsSame(counted, Bytes(), 0, Payload(at));
      SameCount(counted, Bytes(), 0, Payload(at), at, |ss|);
      ArrayComplete(tabled, Bytes(), at, ss);
    }

    // -------------------------------------------------------------------------------------
    // Unpacking
    // -------------------------------------------------------------------------------------

    /** `Buf_UnpackU8`, `Buf_UnpackU16`, `Buf_UnpackU32`, `Buf_UnpackU64`. */
    method UnpackU(k: nat) returns (ok: bool, n: nat)
      requires Valid() && IsWidth(k)
      modifies this`offset
      ensures Valid() && Bytes() == old(Bytes()) && ok == (Up32(old(offset), k) + k <= size)
      ensures ok ==> n == Decode(Bytes()[Up32(old(offset), k)..Up32(old(offset), k) + k]) < Pow256(k)
      ensures offset == if ok then Up32(old(offset), k) + k else old(offset)
    {
      var o := Up32(offset, k);
      if o + k > size { return false, 0; }
      n := Decode(data[o..o + k]);
      assert data[o..o + k] == Bytes()[o..o + k];
      DecodeBound(data[o..o + k]);
      offset := o + k;
      ok := true;
    }

    /** `Buf_Align16`, `Buf_Align32`, `Buf_Align64`. */
    method Align(k: nat) returns (ok: bool)
      requires Valid() && IsWidth(k)
      modifies this`offset
      ensures Valid() && Bytes() == old(Bytes()) && ok == (Up32(old(offset), k) <= size)
      ensures offset == if ok then Up32(old(offset), k) else old(offset)
    {
      var o := Up32(offset, k);
      ok := o <= size;
      if ok { offset := o; }
    }

    method UnpackNumber(k: nat, ghost whole: seq<byte>, ghost v: Value) returns (ok: bool, w: View)
      requires Valid() && IsWidth(k)
      modifies this`offset
      ensures Valid() && Bytes() == old(Bytes())
      ensures old(Promised(Bytes(), whole, offset, KU(k), v)) ==> Outcome(size, base, old(offset), v, ok, w, offset)
    {
      hide Grown, Encode, Pow256, Up, Up32, Bytes;
      ghost var m, at := Bytes(), offset;
      var n;
      ok, n := UnpackU(k);
      w := Number(n);
      if Promised(m, whole, at, KU(k), v) { NumberRead(m, whole, at, v); }
    }

    /** `Buf_UnpackStr`. */
    method UnpackStr(ghost whole: seq<byte>, ghost v: Value) returns (ok: bool, w: View)
      requires Valid()
      modifies this`offset
      ensures Valid() && Bytes() == old(Bytes())
      ensures old(Promised(Bytes(), whole, offset, KStr, v)) ==> Outcome(size, base, old(offset), v, ok, w, offset)
    {
      hide Grown, Up, Up32, Bytes, Payload, HoldsCount, HoldsString, Encodes;
      ghost var m, at := Bytes(), offset;
      if Promised(m, whole, at, KStr, v) { CountRead(m, whole, at, v); }
      var n;
      ok, n := UnpackU(4);
      w := Pointer(0);
      if !ok || n == 0 { return; }
      if offset + n > size { return false, w; }
      w := Pointer(base + offset);
      offset := offset + n;
    }

    /** `Buf_UnpackDT`. */
    method UnpackDT(ghost whole: seq<byte>, ghost v: Value) returns (ok: bool, w: View)
      requires Valid()
      modifies this`offset
      ensures Valid() && Bytes() == old(Bytes())
      ensures old(Promised(Bytes(), whole, offset, KDT, v)) ==> Outcome(size, base, old(offset), v, ok, w, offset)
    {
      hide Grown, Up, Up32, Bytes;
      ghost var m, at := Bytes(), offset;
      if Promised(m, whole, at, KDT, v) { ImageRead(m, whole, at, v); }
      w := Image([]);
      ok := Align(4);
      if !ok { return; }
      var end := offset + DT_SIZE;
      if end > size { return false, w; }
      SliceOfBytes(offset, end);
      w := Image(data[offset..end]);
      offset := end;
    }

    lemma {:induction false} SliceOfBytes(i: nat, j: nat)
      requires Valid() && i <= j <= size
      ensures data[i..j] == Bytes()[i..j]
    {
    }

    /** `Buf_UnpackU8A` to `Buf_UnpackU64A`. */
    method UnpackArr(k: nat, ghost whole: seq<byte>, ghost v: Value) returns (ok: bool, w: View)
      requires Valid() && IsWidth(k)
      modifies this`offset
      ensures Valid() && Bytes() == old(Bytes())
      ensures old(Promised(Bytes(), whole, offset, KArr(k), v)) ==> Outcome(size, base, old(offset), v, ok, w, offset)
    {
      hide Grown, Up, Up32, Bytes, Payload, HoldsCount, Holds, Encodes, Count, Whole, ArrStart;
      ghost var m, at := Bytes(), offset;
      if Promised(m, whole, at, KArr(k), v) { CountRead(m, whole, at, v); ArrRead(m, whole, at, v); }
      var n;
      ok, n := UnpackU(4);
      w := Elements(0, 0);
      if !ok || n == 0 { return; }
      if k == 8 {
        ok := Align(8);
        if !ok { return; }
      }
      if offset + n * k > size { return false, w; }
      w := Elements(base + offset, n);
      offset := offset + n * k;
    }

    /** `Buf_UnpackDTA`, which does not look at the size of the buffer. */
    method UnpackDTA(ghost whole: seq<byte>, ghost v: Value) returns (ok: bool, w: View)
      requires Valid()
      modifies this`offset
      ensures Valid() && Bytes() == old(Bytes())
      ensures old(Promised(Bytes(), whole, offset, KArr(DT_SIZE), v)) ==>
        Outcome(size, base, old(offset), v, ok, w, offset)
    {
      hide Grown, Up, Up32, Bytes, Payload, HoldsCount, Holds, Encodes, Count, Whole;
      ghost var m, at := Bytes(), offset;
      if Promised(m, whole, at, KArr(DT_SIZE), v) { CountRead(m, whole, at, v); ArrRead(m, whole, at, v); }
      var n;
      ok, n := UnpackU(4);
      w := Elements(0, 0);
      if !ok || n == 0 { return; }
      var end := (offset + n * DT_SIZE) % WORD;
      w := Elements(base + offset, n);
      offset := end;
    }

    /** One turn of the loop in `Buf_UnpackStrA`: read entry `i`, store the pointer in its place. */
    method ResolveEntry(t: nat, d: nat, i: nat, start: int) returns (ok: bool, first: int)
      requires Valid() && offset == t + 8 * i <= size && IsAligned(t) && d <= size
      modifies this`offset, data
      ensures Valid()
      ensures SameBut(old(Bytes()), Bytes(), t + 8 * i, t + 8 * i + 8)
      ensures ok ==> offset == t + 8 * i + 8 <= size
      ensures offset <= size
      ensures t + 8 * i + 8 <= size ==>
        var e := Signed(Word(old(Bytes()), t + 8 * i));
        && first == (if i == 0 then e else start)
        && (ok <==> d + (e - first) <= size)
        && (ok ==> Word(Bytes(), t + 8 * i) == (base + d + (e - first)) % Pow256(8))
    {
      hide Grown, Up32, Encode, Pow256;
      Aligned(t, i);
      var x;
      ok, x := UnpackU(8);
      first := start;
      if !ok { return; }
      var e := Signed(x);
      if i == 0 { first := e; }
      if d + (e - first) > size { return false, first; }
      var p := (base + d + (e - first)) % Pow256(8);
      Store(t + 8 * i, Encode(p, 8));
      DecodeEncode(p, 8);
      SliceOfBytes(t + 8 * i, t + 8 * i + 8);
    }

    /** The loop of `Buf_UnpackStrA`. */
    method ResolveTable(t: nat, d: nat, n: nat, ghost ss: seq<seq<byte>>, ghost c: nat) returns (ok: bool)
      requires Valid() && offset == t <= size && IsAligned(t) && d <= size
      modifies this`offset, data
      ensures Valid() && offset <= size && (ok ==> t + 8 * (n + 1) <= size)
      ensures SameBut(old(Bytes()), Bytes(), t, t + 8 * (n + 1))
      ensures |ss| == n && HoldsTable(old(Bytes()), t, ss, c) ==>
        (ok <==> d + Offset(ss, n) <= size) && (ok ==> HoldsTable(Bytes(), t, ss, base + d))
    {
      hide Grown, HoldsTable, Half, Bytes, Word, Offset, IsAligned, Signed, Pow256;
      ghost var p := |ss| == n && HoldsTable(Bytes(), t, ss, c);
      if p { HalfStart(Bytes(), t, ss, c, base + d); }
      var start, i := 0, 0;
      while i <= n
        invariant 0 <= i <= n + 1 && Valid() && offset == t + 8 * i <= size
        invariant SameBut(old(Bytes()), Bytes(), t, t + 8 * i)
        invariant p ==> Half(Bytes(), t, ss, c, base + d, i)
        invariant p && i > 0 ==> start == c && d + Offset(ss, i - 1) <= size
      {
        ghost var m := Bytes();
        if p { HalfEntry(m, t, ss, c, base + d, i); OffsetMonotone(ss, i, n); }
        ok, start := ResolveEntry(t, d, i, start);
        if !ok { return; }
        if p {
          Unwrapped(base + d + Offset(ss, i));
          HalfStep(m, Bytes(), t, ss, c, base + d, i);
        }
        i := i + 1;
      }
      ok := true;
      if p { HalfEnd(Bytes(), t, ss, c, base + d); }
    }

    /** The part of `Buf_UnpackStrA` from the table on. */
    method UnpackTable(n: nat, ghost whole: seq<byte>, ghost at: nat, ghost v: Value) returns (ok: bool, w: View)
      requires Valid() && 0 < n < WORD && IsAligned(offset) && offset <= size
      modifies this`offset, data
      ensures Valid()
      ensures old(Promised(Bytes(), whole, at, KStrA, v)) && |v.ss| == n && old(offset) == TableStart(at) ==>
        && Outcome(size, base, at, v, ok, w, offset)
        && SameBut(old(Bytes()), Bytes(), TableStart(at), StringsStart(at, n))
        && (ok ==> Resolved(Bytes(), base, at, v))
    {
      hide Grown, Up, Up32, Bytes, Payload, HoldsTable, Encodes, Offset, Word, IsString, TableStart, Resolved,
        IsAligned, StringsAt, Advance;
      ghost var m := Bytes();
      var t := offset;
      ghost var p := Promised(m, whole, at, KStrA, v) && |v.ss| == n && t == TableStart(at);
      if p { CountRead(m, whole, at, v); TableRead(at, v); }
      w := Elements(0, 0);
      var d := StringsAt(offset, n);
      if d > size { return false, w; }
      ghost var ss, c := [], 0;
      if p { ss := v.ss; c := TableOf(m, whole, at, v); }
      ok := ResolveTable(t, d, n, ss, c);
      if !ok { return; }
      var last, first := EntryAt(t + 8 * n), EntryAt(t);
      if p {
        Ends(Bytes(), t, ss, base, d);
        Rewritten(m, Bytes(), whole, base, at, v);
      }
      offset := Advance(d, first, last);
      w := Elements(base + t, n);
    }

    /** `data[i]` of the table. */
    function EntryAt(p: nat): (x: int)
      requires Valid() && p + 8 <= size
      reads this, data
      ensures x == Word(Bytes(), p)
    {
      SliceOfBytes(p, p + 8);
      Decode(data[p..p + 8])
    }

    /**
      `Buf_UnpackStrA`: the offset table is overwritten by pointers.  On a buffer that was packed
      only that table changes, and the buffer still represents the same array.
     */
    method UnpackStrA(ghost whole: seq<byte>, ghost v: Value) returns (ok: bool, w: View)
      requires Valid()
      modifies this`offset, data
      ensures Valid()
      ensures old(Promised(Bytes(), whole, offset, KStrA, v)) ==>
        && Outcome(size, base, old(offset), v, ok, w, offset)
        && SameBut(old(Bytes()), Bytes(), old(offset), End(old(offset), v))
        && (ok ==> Resolved(Bytes(), base, old(offset), v))
    {
      hide Grown, Up, Up32, Bytes, Payload, Encodes, Offset, IsString, TableStart, Resolved, IsAligned;
      ghost var m, at := Bytes(), offset;
      ghost var p := Promised(m, whole, at, KStrA, v);
      if p { CountRead(m, whole, at, v); EmptyResolved(m, whole, base, at, v); }
      var n;
      ok, n := UnpackU(4);
      w := Elements(0, 0);
      if !ok || n == 0 { return; }
      if p { TableRead(at, v); }
      UpIsAligned(offset);
      ok := Align(8);
      if !ok { return; }
      ok, w := UnpackTable(n, whole, at, v);
    }
  }
}
