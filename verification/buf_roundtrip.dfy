/** Whole lists: packing, unpacking, and unpacking again after the buffer has moved. */
module BufRoundTrip {
  import opened Memory
  import opened BufFormat
  import opened BufViews
  import opened BufObject

  /** The packing call for `v`. */
  method Pack(b: Buf, v: Value)
    requires b.Valid() && Packable(v) && End(b.size, v) <= MAX
    modifies b, b.data
    ensures b.Valid() && b.size == End(old(b.size), v) && b.offset == old(b.offset)
    ensures b.data == old(b.data) || fresh(b.data)
    ensures old(b.Bytes()) <= b.Bytes() && Encodes(b.Bytes(), old(b.size), v)
  {
    hide Encodes, End, Grown, IsString, Whole;
    match v
    case U(k, n) => b.PackU(k, n);
    case Str(s) => b.PackStr(s);
    case Arr(k, bytes) => b.PackArr(k, bytes);
    case DT(image) => b.PackDT(image);
    case StrA(ss) =>
      AllPresent(ss);
      var ok := b.PackStrA(true, Somes(ss));
  }

  function Somes(ss: seq<seq<byte>>): (r: seq<Option<seq<byte>>>)
    ensures |r| == |ss|
  {
    seq(|ss|, i requires 0 <= i < |ss| => Some(ss[i]))
  }

  lemma {:induction false} AllPresent(ss: seq<seq<byte>>)
    ensures Present(Somes(ss)) == ss && Given(Somes(ss), |ss|)
  {
  }

  /** Packing a list appends its encoding, value after value. */
  method PackAll(b: Buf, vs: seq<Value>)
    requires b.Valid() && AllPackable(vs) && Pos(b.size, vs, |vs|) <= MAX
    modifies b, b.data
    ensures b.Valid() && b.size == Pos(old(b.size), vs, |vs|) && b.offset == old(b.offset)
    ensures b.data == old(b.data) || fresh(b.data)
    ensures old(b.Bytes()) <= b.Bytes() && EncodesAll(b.Bytes(), old(b.size), vs)
  {
    hide Encodes, End, Grown, Packable, Pos, EncodedTo;
    ghost var at := b.size;
    EncodedStart(b.Bytes(), at, vs);
    var i := 0;
    while i < |vs|
      invariant i <= |vs| && b.Valid() && b.size == Pos(at, vs, i) && b.offset == old(b.offset)
      invariant b.data == old(b.data) || fresh(b.data)
      invariant old(b.Bytes()) <= b.Bytes() && EncodedTo(b.Bytes(), at, vs, i)
    {
      PosStep(at, vs, i);
      PosMonotone(at, vs, i + 1, |vs|);
      ghost var m := b.Bytes();
      Pack(b, vs[i]);
      EncodedStep(m, b.Bytes(), at, vs, i);
      i := i + 1;
    }
    EncodedEnd(b.Bytes(), at, vs);
  }

  ghost predicate EncodedTo(m: seq<byte>, at: nat, vs: seq<Value>, i: nat)
    requires AllPackable(vs) && i <= |vs|
  {
    forall j | 0 <= j < i :: Encodes(m, Pos(at, vs, j), vs[j])
  }

  lemma {:induction false} EncodedStart(m: seq<byte>, at: nat, vs: seq<Value>)
    requires AllPackable(vs)
    ensures EncodedTo(m, at, vs, 0) && Pos(at, vs, 0) == at
  {
  }

  lemma {:induction false} EncodedEnd(m: seq<byte>, at: nat, vs: seq<Value>)
    requires AllPackable(vs) && EncodedTo(m, at, vs, |vs|)
    ensures EncodesAll(m, at, vs)
  {
  }

  lemma {:induction false} PosStep(at: nat, vs: seq<Value>, i: nat)
    requires AllPackable(vs) && i < |vs|
    ensures Pos(at, vs, i + 1) == End(Pos(at, vs, i), vs[i]) && Packable(vs[i])
  {
  }

  lemma {:induction false} EncodedStep(m: seq<byte>, n: seq<byte>, at: nat, vs: seq<Value>, i: nat)
    requires AllPackable(vs) && i < |vs| && EncodedTo(m, at, vs, i) && m <= n && |m| == Pos(at, vs, i)
    requires Encodes(n, Pos(at, vs, i), vs[i])
    ensures EncodedTo(n, at, vs, i + 1)
  {
    hide Encodes, End, Packable, Pos;
    forall j | 0 <= j < i ensures Encodes(n, Pos(at, vs, j), vs[j]) {
      PosStep(at, vs, j);
      PosMonotone(at, vs, j, j + 1);
      PosMonotone(at, vs, j + 1, i);
      PrefixIsSame(m, n, Pos(at, vs, j), Pos(at, vs, j + 1));
      EncodesFrame(m, n, Pos(at, vs, j), vs[j]);
    }
  }

  /** The unpacking call for `kind`. */
  method Unpack(b: Buf, kind: Kind, ghost whole: seq<byte>, ghost v: Value) returns (ok: bool, w: View)
    requires b.Valid() && (kind.KU? ==> IsWidth(kind.k)) && (kind.KArr? ==> IsWidth(kind.k) || kind.k == DT_SIZE)
    modifies b`offset, b.data
    ensures b.Valid()
    ensures old(Promised(b.Bytes(), whole, b.offset, kind, v)) ==>
      && Outcome(b.size, b.base, old(b.offset), v, ok, w, b.offset)
      && SameBut(old(b.Bytes()), b.Bytes(), old(b.offset), End(old(b.offset), v))
      && (ok && End(old(b.offset), v) <= b.size ==> Resolved(b.Bytes(), b.base, old(b.offset), v))
  {
    hide Encodes, End, Outcome, Grown, Packable;
    ghost var m, at := b.Bytes(), b.offset;
    if Promised(m, whole, at, kind, v) && End(at, v) <= b.size { PrefixEncodes(m, whole, at, v); }
    match kind
    case KU(k) => ok, w := b.UnpackNumber(k, whole, v);
    case KStr => ok, w := b.UnpackStr(whole, v);
    case KArr(k) =>
      if k == DT_SIZE { ok, w := b.UnpackDTA(whole, v); } else { ok, w := b.UnpackArr(k, whole, v); }
    case KStrA => ok, w := b.UnpackStrA(whole, v);
    case KDT => ok, w := b.UnpackDT(whole, v);
  }

  function KindsOf(vs: seq<Value>): seq<Kind> {
    seq(|vs|, i requires 0 <= i < |vs| => KindOf(vs[i]))
  }

  /** After `i` values: the returned ones are resolved in place, the others still encoded. */
  ghost predicate Progress(m: seq<byte>, base: nat, at: nat, vs: seq<Value>, ws: seq<View>, i: nat)
    requires AllPackable(vs) && i <= |vs|
  {
    && |ws| == i
    && (forall j | 0 <= j < i ::
      Resolved(m, base, Pos(at, vs, j), vs[j]) && ws[j] == ViewOf(base, Pos(at, vs, j), vs[j]))
    && forall j | i <= j < |vs| :: Encodes(m, Pos(at, vs, j), vs[j])
  }

  lemma {:induction false} ItemsApart(at: nat, vs: seq<Value>, j: nat, i: nat)
    requires AllPackable(vs) && j < |vs| && i < |vs| && i != j
    ensures Pos(at, vs, j) <= Pos(at, vs, j + 1) && Pos(at, vs, j + 1) == End(Pos(at, vs, j), vs[j])
    ensures Pos(at, vs, j + 1) <= Pos(at, vs, i) || Pos(at, vs, i + 1) <= Pos(at, vs, j)
  {
    hide Packable, End;
    PosMonotone(at, vs, j, j + 1);
    if j < i { PosMonotone(at, vs, j + 1, i); } else { PosMonotone(at, vs, i + 1, j); }
  }

  lemma {:induction false} SameApart(m: seq<byte>, n: seq<byte>, lo: nat, hi: nat, p: nat, q: nat)
    requires SameBut(m, n, lo, hi) && p <= q <= |m| && (q <= lo || hi <= p)
    ensures Same(m, n, p, q)
  {
  }

  /** Unpacking one value leaves every other value of the list, and every earlier result, alone. */
  lemma {:induction false} ProgressStep(
    m: seq<byte>, n: seq<byte>, base: nat, at: nat, vs: seq<Value>, ws: seq<View>, i: nat)
    requires AllPackable(vs) && i < |vs| && Progress(m, base, at, vs, ws, i)
    requires SameBut(m, n, Pos(at, vs, i), Pos(at, vs, i + 1))
    requires Resolved(n, base, Pos(at, vs, i), vs[i])
    ensures Progress(n, base, at, vs, ws + [ViewOf(base, Pos(at, vs, i), vs[i])], i + 1)
  {
    hide Packable, End, Pos, Encodes, Resolved, SameBut, ViewOf, Same;
    forall j | 0 <= j < i ensures Resolved(n, base, Pos(at, vs, j), vs[j]) {
      ItemsApart(at, vs, j, i);
      ResolvedIsEncoded(m, base, Pos(at, vs, j), vs[j]);
      SameApart(m, n, Pos(at, vs, i), Pos(at, vs, i + 1), Pos(at, vs, j), Pos(at, vs, j + 1));
      ResolvedFrame(m, n, base, Pos(at, vs, j), vs[j]);
    }
    forall j | i < j < |vs| ensures Encodes(n, Pos(at, vs, j), vs[j]) {
      ItemsApart(at, vs, j, i);
      EncodedFits(m, Pos(at, vs, j), vs[j]);
      SameApart(m, n, Pos(at, vs, i), Pos(at, vs, i + 1), Pos(at, vs, j), Pos(at, vs, j + 1));
      EncodesFrame(m, n, Pos(at, vs, j), vs[j]);
    }
  }

  lemma {:induction false} EncodedFits(m: seq<byte>, at: nat, v: Value)
    requires Packable(v) && Encodes(m, at, v)
    ensures End(at, v) <= |m|
  {
  }

  lemma {:induction false} ResolvedIsEncoded(m: seq<byte>, base: nat, at: nat, v: Value)
    requires Packable(v) && Resolved(m, base, at, v)
    ensures Encodes(m, at, v) && End(at, v) <= |m|
  {
  }

  /** In the buffer as it is now, every result denotes its value. */
  ghost predicate AllDenote(m: seq<byte>, base: nat, ws: seq<View>, vs: seq<Value>)
    requires AllPackable(vs)
  {
    |ws| == |vs| && forall i | 0 <= i < |vs| :: Denotes(m, base, ws[i], vs[i])
  }

  lemma {:induction false} ProgressEnd(m: seq<byte>, base: nat, at: nat, vs: seq<Value>, ws: seq<View>)
    requires AllPackable(vs) && 0 < base && Progress(m, base, at, vs, ws, |vs|)
    ensures AllDenote(m, base, ws, vs) && EncodesAll(m, at, vs)
  {
    hide Packable, Pos, Encodes, Resolved, ViewOf, Denotes;
    forall i | 0 <= i < |vs| ensures Denotes(m, base, ws[i], vs[i]) && Encodes(m, Pos(at, vs, i), vs[i]) {
      ResolvedIsEncoded(m, base, Pos(at, vs, i), vs[i]);
      ResolvedDenotes(m, base, Pos(at, vs, i), vs[i]);
    }
  }

  lemma {:induction false} ProgressStart(m: seq<byte>, base: nat, at: nat, vs: seq<Value>)
    requires AllPackable(vs) && EncodesAll(m, at, vs)
    ensures Progress(m, base, at, vs, [], 0) && Pos(at, vs, 0) == at
  {
    hide Packable, Encodes;
  }

  /**
    Unpacking a list that lies in the buffer, with nothing but the kinds of its values: every
    call succeeds, the offset after each is the position the packer had reached, at the end all
    results denote the values, and the buffer still encodes the list.
   */
  method UnpackAll(b: Buf, kinds: seq<Kind>, ghost vs: seq<Value>)
    returns (ok: bool, ws: seq<View>, offsets: seq<nat>)
    requires b.Valid() && AllPackable(vs) && kinds == KindsOf(vs) && EncodesAll(b.Bytes(), b.offset, vs)
    modifies b`offset, b.data
    ensures b.Valid() && ok && b.offset == Pos(old(b.offset), vs, |vs|)
    ensures |offsets| == |vs| && forall i | 0 <= i < |vs| :: offsets[i] == Pos(old(b.offset), vs, i + 1)
    ensures AllDenote(b.Bytes(), b.base, ws, vs)
    ensures EncodesAll(b.Bytes(), old(b.offset), vs)
  {
    hide Packable, Encodes, Resolved, ViewOf, Denotes, Pos, Progress, Promised, SameBut, EncodesAll, Grown, AllDenote;
    ghost var at := b.offset;
    ok, ws, offsets := true, [], [];
    ProgressStart(b.Bytes(), b.base, at, vs);
    var i := 0;
    while i < |kinds|
      invariant i <= |kinds| && b.Valid() && ok && b.offset == Pos(at, vs, i)
      invariant |offsets| == i && forall j | 0 <= j < i :: offsets[j] == Pos(at, vs, j + 1)
      invariant Progress(b.Bytes(), b.base, at, vs, ws, i)
    {
      ghost var m := b.Bytes();
      PosStep(at, vs, i);
      NextPromised(m, b.base, at, vs, ws, i);
      var w;
      ok, w := Unpack(b, kinds[i], m, vs[i]);
      ProgressStep(m, b.Bytes(), b.base, at, vs, ws, i);
      ws, offsets := ws + [w], offsets + [b.offset];
      i := i + 1;
    }
    ProgressEnd(b.Bytes(), b.base, at, vs, ws);
  }

  lemma {:induction false} NextPromised(m: seq<byte>, base: nat, at: nat, vs: seq<Value>, ws: seq<View>, i: nat)
    requires AllPackable(vs) && i < |vs| && Progress(m, base, at, vs, ws, i) && |m| <= MAX
    ensures Promised(m, m, Pos(at, vs, i), KindOf(vs[i]), vs[i])
    ensures Checked(Pos(at, vs, i), vs[i]) <= End(Pos(at, vs, i), vs[i]) <= |m|
    ensures IsKind(KindOf(vs[i]))
  {
    hide Encodes, Pos, Up, ViewOf, Resolved, IsString, Whole;
    EncodedFits(m, Pos(at, vs, i), vs[i]);
    UpIsLeastMultiple(Payload(Pos(at, vs, i)), 8);
  }

  predicate IsKind(kind: Kind) {
    (kind.KU? ==> IsWidth(kind.k)) && (kind.KArr? ==> IsWidth(kind.k) || kind.k == DT_SIZE)
  }

  /** Packing a list onto an empty buffer and unpacking it with its kinds returns the list. */
  method PackThenUnpack(vs: seq<Value>) returns (b: Buf, ok: bool, ws: seq<View>, offsets: seq<nat>)
    requires AllPackable(vs) && Pos(0, vs, |vs|) <= MAX
    ensures fresh(b) && b.Valid() && ok && AllDenote(b.Bytes(), b.base, ws, vs)
    ensures b.size == b.offset == Pos(0, vs, |vs|)
    ensures |offsets| == |vs| && forall i | 0 <= i < |vs| :: offsets[i] == Pos(0, vs, i + 1)
  {
    hide Packable, Pos, EncodesAll, Grown, AllDenote;
    b := new Buf(0);
    PackAll(b, vs);
    ok, ws, offsets := UnpackAll(b, KindsOf(vs), vs);
  }

  /** The buffer's bytes copied to another address. */
  method Move(b: Buf) returns (c: Buf)
    requires b.Valid()
    ensures fresh(c) && fresh(c.data) && c.Valid() && c.Bytes() == b.Bytes() && c.offset == 0
  {
    c := new Buf(b.size);
    c.App(b.data[..b.size]);
  }

  /**
    The table rewrite does no harm: what has been unpacked can be unpacked again from the same
    offset, here or in a copy at another address, with the same strings and the same offsets.
   */
  method UnpackTwice(b: Buf, kinds: seq<Kind>, ghost vs: seq<Value>)
    returns (c: Buf, ok: bool, here: seq<View>, there: seq<View>)
    requires b.Valid() && AllPackable(vs) && kinds == KindsOf(vs) && EncodesAll(b.Bytes(), b.offset, vs)
    modifies b`offset, b.data
    ensures fresh(c) && c.Valid() && b.Valid() && ok
    ensures AllDenote(b.Bytes(), b.base, here, vs) && AllDenote(c.Bytes(), c.base, there, vs)
    ensures b.offset == c.offset == Pos(old(b.offset), vs, |vs|)
  {
    hide Packable, Pos, EncodesAll, Grown, AllDenote, Buf.Bytes;
    var start := b.offset;
    var offsets, again;
    ok, here, offsets := UnpackAll(b, kinds, vs);
    b.offset := start;
    ok, here, offsets := UnpackAll(b, kinds, vs);
    c := Move(b);
    c.offset := start;
    ok, there, again := UnpackAll(c, kinds, vs);
  }
}
