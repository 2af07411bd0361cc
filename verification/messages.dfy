/**
  Sending a message to another process (messages.c): the clone made for sending, and the repair of
  its pointers in the receiver, both driven by the per-tag field tables.
 */
module Messages {
  import opened Memory
  import opened BatchAllocator
  import opened BatchTransport

  const MESSAGE: nat := 88      // sizeof(Message)
  const BATCH_AT: nat := 16     // offsetof(Message, batch), tag, flags, refCounter, operationId
  const TAG_AT: nat := 24
  const FLAGS_AT: nat := 28
  const REFS_AT: nat := 32
  const OPERATION_AT: nat := 56

  datatype Kind = Pointer | PointerOpt | SetNull | Instance | InstanceOpt {
    predicate Packed() { Instance? || InstanceOpt? }
    predicate Required() { Pointer? || Instance? }
  }

  /** A `MessageField`; the last two offsets are used by instances only. */
  datatype Field = Field(kind: Kind, off: nat, ptrOff: nat, sizeOff: nat)

  datatype Slot = Slot(at: nat, len: nat)

  predicate SlotsApart(s: Slot, t: Slot) {
    s.at + s.len <= t.at || t.at + t.len <= s.at
  }

  /** The parts of the message structure a field's handling writes. */
  function SlotsOf(f: Field): seq<Slot> {
    if f.kind.Packed() then [Slot(f.off, 8), Slot(f.ptrOff, 8), Slot(f.sizeOff, 4)] else [Slot(f.off, 8)]
  }

  /** Slot `s` misses every slot of `g`. */
  predicate Misses(s: Slot, g: Field) {
    && SlotsApart(s, Slot(g.off, 8))
    && (g.kind.Packed() ==> SlotsApart(s, Slot(g.ptrOff, 8)) && SlotsApart(s, Slot(g.sizeOff, 4)))
  }

  predicate FieldsApart(f: Field, g: Field) {
    && Misses(Slot(f.off, 8), g)
    && (f.kind.Packed() ==> Misses(Slot(f.ptrOff, 8), g) && Misses(Slot(f.sizeOff, 4), g))
  }

  lemma {:induction false} ApartSlotwise(f: Field, g: Field)
    requires FieldsApart(f, g)
    ensures forall s <- SlotsOf(f), t <- SlotsOf(g) :: SlotsApart(s, t)
  {
  }

  /** The slots lie in the structure, apart from each other and from batch, tag, flags and refCounter. */
  predicate FieldOk(size: nat, f: Field) {
    && f.off + 8 <= size && SlotsApart(Slot(f.off, 8), Slot(BATCH_AT, 24))
    && (f.kind.Packed() ==>
          && f.ptrOff + 8 <= size && SlotsApart(Slot(f.ptrOff, 8), Slot(BATCH_AT, 24))
          && f.sizeOff + 4 <= size && SlotsApart(Slot(f.sizeOff, 4), Slot(BATCH_AT, 24)))
    && (f.kind.Packed() ==>
          && SlotsApart(Slot(f.off, 8), Slot(f.ptrOff, 8))
          && SlotsApart(Slot(f.off, 8), Slot(f.sizeOff, 4))
          && SlotsApart(Slot(f.ptrOff, 8), Slot(f.sizeOff, 4)))
  }

  predicate TableOk(size: nat, table: seq<Field>) {
    table != [] ==>
      && FieldOk(size, table[0])
      && (forall g <- table[1..] :: FieldsApart(table[0], g))
      && TableOk(size, table[1..])
  }

  /** What a field of the source denotes: the characters of a string, or the bytes of a packed instance. */
  type Value = Option<seq<byte>>

  function Load(mem: Mem, a: int, k: nat): nat {
    Decode(Read(mem, a, k))
  }

  /** The characters `s` and a terminating zero are at the non-null address `p`. */
  ghost predicate CStringAt(mem: Mem, p: nat, s: seq<byte>) {
    p != 0 && 0 !in s && Read(mem, p, |s| + 1) == s + [0]
  }

  lemma {:induction false} CStringUnique(mem: Mem, p: nat, s: seq<byte>, t: seq<byte>)
    requires CStringAt(mem, p, s) && CStringAt(mem, p, t)
    ensures s == t
  {
    if |s| <= |t| { ShorterIsEqual(mem, p, s, t); } else { ShorterIsEqual(mem, p, t, s); }
  }

  lemma {:induction false} ShorterIsEqual(mem: Mem, p: nat, s: seq<byte>, t: seq<byte>)
    requires CStringAt(mem, p, s) && CStringAt(mem, p, t) && |s| <= |t|
    ensures s == t
  {
    var rs, rt := Read(mem, p, |s| + 1), Read(mem, p, |t| + 1);
    assert forall i | 0 <= i <= |s| :: rs[i] == rt[i];
    assert (t + [0])[|s|] == rt[|s|] == rs[|s|] == 0;
    assert |s| == |t|;
    assert s == (s + [0])[..|s|] == rs[..|s|] == rt[..|s|] == (t + [0])[..|s|] == t;
  }

  /**
    The message at `msg` says `v` in field `f`: a string; or an instance, taken in packed form if
    there is one, and otherwise packed from the object (whose bytes are the packer's business).
   */
  ghost predicate Denotes(mem: Mem, msg: nat, f: Field, v: Value) {
    match f.kind
    case SetNull => true
    case Pointer | PointerOpt =>
      var p := Load(mem, msg + f.off, 8);
      (match v
       case Some(s) => CStringAt(mem, p, s)
       case None => p == 0)
    case Instance | InstanceOpt =>
      var p := Load(mem, msg + f.ptrOff, 8);
      if p != 0 then v == Some(Read(mem, p, Load(mem, msg + f.sizeOff, 4)))
      else v.Some? <==> Load(mem, msg + f.off, 8) != 0
  }

  // ---------------------------------------------------------------------------------------
  // Cloning
  // ---------------------------------------------------------------------------------------

  ghost function Poke(w: World, a: nat, bytes: seq<byte>): World {
    Step(w, WriteOp(a, bytes))
  }

  /** `Batch_Get` and `memcpy`; also `Batch_Tcsdup`. */
  ghost function Alloc(w: World, bytes: seq<byte>, addr: nat): (World, nat) {
    var ptr := Get(w.b, |bytes|, addr).1;
    (Poke(Step(w, GetOp(|bytes|, addr)), ptr, bytes), ptr)
  }

  /** One turn of `_CloneMessageFields`, for the message at `msg`; None is an error return. */
  ghost function CloneField(w: World, msg: nat, f: Field, v: Value, addr: nat): Option<World> {
    match f.kind
    case SetNull => Some(w)
    case Pointer | PointerOpt =>
      (match v
       case Some(s) =>
         var (w1, p) := Alloc(w, s + [0], addr);
         Some(Poke(w1, msg + f.off, Encode(p, 8)))
       case None => if f.kind == Pointer then None else Some(w))
    case Instance | InstanceOpt =>
      var w0 := Poke(w, msg + f.off, Encode(0, 8));
      match v
      case Some(s) =>
        var (w1, p) := Alloc(Poke(w0, msg + f.sizeOff, Encode(|s|, 4)), s, addr);
        Some(Poke(w1, msg + f.ptrOff, Encode(p, 8)))
      case None => if f.kind == Instance then None else Some(w0)
  }

  ghost function CloneFields(w: World, msg: nat, table: seq<Field>, values: seq<Value>, addrs: seq<nat>): Option<World>
    requires |table| == |values| == |addrs|
    decreases |table|
  {
    if table == [] then Some(w)
    else match CloneField(w, msg, table[0], values[0], addrs[0])
      case None => None
      case Some(w') => CloneFields(w', msg, table[1..], values[1..], addrs[1..])
  }

  /** The bytes a field makes the clone allocate. */
  function CloneDemand(f: Field, v: Value): Option<nat> {
    if f.kind == SetNull || v == None then None
    else Some(|v.value| + if f.kind.Packed() then 0 else 1)
  }

  const WORD: nat := 0x1_0000_0000_0000_0000

  /** The heap's answer to a request of `n` bytes is usable: fresh, and a 64-bit address. */
  ghost predicate GoodAnswer(b: State, n: nat, addr: nat) {
    && (PathOf(b, n) != Carve ==> FreshRange(b, addr, Demand(b, n)))
    && Get(b, n, addr).1 + n < WORD
  }

  ghost predicate GoodAnswers(w: World, msg: nat, table: seq<Field>, values: seq<Value>, addrs: seq<nat>)
    requires |table| == |values| == |addrs|
    decreases |table|
  {
    table != [] ==>
      && (CloneDemand(table[0], values[0]).Some? ==>
            GoodAnswer(w.b, CloneDemand(table[0], values[0]).value, addrs[0]))
      && (match CloneField(w, msg, table[0], values[0], addrs[0])
          case None => true
          case Some(w') => GoodAnswers(w', msg, table[1..], values[1..], addrs[1..]))
  }

  function Content(mem: Mem, x: Block): seq<byte> {
    Read(mem, x.ptr, x.size)
  }

  predicate InSlots(slots: seq<Slot>, o: int) {
    exists s <- slots :: s.at <= o < s.at + s.len
  }

  function ByteAt(mem: Mem, mb: Block, o: int): byte {
    mem(mb.ptr + o)
  }

  /** From `w` to `w'` no block was lost, and only the named slots of block `mb` were overwritten. */
  ghost predicate Kept(w: World, w': World, mb: Block, slots: seq<Slot>) {
    && Inv(w') && w.blocks <= w'.blocks
    && (forall y <- w.blocks | y != mb :: Content(w'.mem, y) == Content(w.mem, y))
    && (forall o | 0 <= o < mb.size && !InSlots(slots, o) :: ByteAt(w'.mem, mb, o) == ByteAt(w.mem, mb, o))
  }

  lemma {:induction false} PokeKept(w: World, mb: Block, at: nat, bytes: seq<byte>)
    requires Inv(w) && mb in w.blocks && at + |bytes| <= mb.size
    ensures Poke(w, mb.ptr + at, bytes).blocks == w.blocks
    ensures Kept(w, Poke(w, mb.ptr + at, bytes), mb, [Slot(at, |bytes|)])
    ensures Read(Poke(w, mb.ptr + at, bytes).mem, mb.ptr + at, |bytes|) == bytes
  {
    var w' := Poke(w, mb.ptr + at, bytes);
    forall y <- w.blocks | y != mb ensures Content(w'.mem, y) == Content(w.mem, y) {
      LiveBlocksApart(w, y, mb);
    }
    forall o | 0 <= o < mb.size && !InSlots([Slot(at, |bytes|)], o)
      ensures ByteAt(w'.mem, mb, o) == ByteAt(w.mem, mb, o)
    {
      assert Slot(at, |bytes|) in [Slot(at, |bytes|)];
    }
  }

  lemma {:induction false} GetKept(w: World, size: nat, addr: nat) returns (x: Block)
    requires Inv(w) && 0 < size && GoodAnswer(w.b, size, addr)
    ensures var w1 := Step(w, GetOp(size, addr));
            && Inv(w1) && w1.mem == w.mem && x !in w.blocks && w1.blocks == w.blocks + {x}
            && x.size == size && x.ptr == Get(w.b, size, addr).1 && 0 < x.ptr < WORD
  {
    hide Round8;
    x := NewBlock(w.b, size, addr);
    StepKeepsInv(w, GetOp(size, addr));
    NewIsNew(w, size, addr);
    assert BlockOk(Step(w, GetOp(size, addr)).b, x);
  }

  /** Filling a new block changes no other. */
  lemma {:induction false} FillKept(w: World, w1: World, x: Block, mb: Block, bytes: seq<byte>)
    requires Inv(w1) && w1.mem == w.mem && w1.blocks == w.blocks + {x} && x !in w.blocks && mb in w.blocks
    requires x.size == |bytes|
    ensures var w' := Poke(w1, x.ptr, bytes);
            Inv(w') && w'.blocks == w1.blocks && Kept(w, w', mb, []) && Content(w'.mem, x) == bytes
  {
    hide Inv, Read, Poke;
    PokeKept(w1, x, 0, bytes);
    var w' := Poke(w1, x.ptr, bytes);
    assert Poke(w1, x.ptr + 0, bytes) == w';
    assert Content(w'.mem, mb) == Content(w.mem, mb);
    SameContentSameBytes(w.mem, w'.mem, mb);
  }

  lemma {:induction false} AllocKept(w: World, mb: Block, bytes: seq<byte>, addr: nat) returns (x: Block)
    requires Inv(w) && mb in w.blocks && bytes != [] && GoodAnswer(w.b, |bytes|, addr)
    ensures var (w', p) := Alloc(w, bytes, addr);
            && Inv(w') && Kept(w, w', mb, []) && mb in w'.blocks
            && x in w'.blocks && x !in w.blocks && x.ptr == p && 0 < p < WORD
            && Content(w'.mem, x) == bytes
  {
    x := GetKept(w, |bytes|, addr);
    FillKept(w, Step(w, GetOp(|bytes|, addr)), x, mb, bytes);
    hide Inv, Kept, Get, GoodAnswer, Step, Poke, Content;
  }

  lemma {:induction false} SameContentSameBytes(m: Mem, m': Mem, mb: Block)
    requires Content(m, mb) == Content(m', mb)
    ensures forall o | 0 <= o < mb.size :: ByteAt(m', mb, o) == ByteAt(m, mb, o)
  {
    forall o | 0 <= o < mb.size ensures ByteAt(m', mb, o) == ByteAt(m, mb, o) {
      assert Content(m, mb)[o] == Content(m', mb)[o];
    }
  }

  lemma {:induction false} NewIsNew(w: World, size: nat, addr: nat)
    requires Inv(w) && 0 < size && (PathOf(w.b, size) != Carve ==> FreshRange(w.b, addr, Demand(w.b, size)))
    ensures NewBlock(w.b, size, addr) !in w.blocks
  {
  }

  /** Some block of the batch other than the message holds `bytes` at address `p`. */
  ghost predicate HeldAt(w: World, mb: Block, p: nat, bytes: seq<byte>) {
    exists x <- w.blocks :: x != mb && x.ptr == p && x.size == |bytes| && Content(w.mem, x) == bytes
  }

  /** Field `f` of the message in block `mb` is ready to be sent and denotes `v`. */
  ghost predicate FieldCloned(w: World, mb: Block, f: Field, v: Value) {
    match f.kind
    case SetNull => true
    case Pointer | PointerOpt =>
      (match v
       case Some(s) => HeldAt(w, mb, Load(w.mem, mb.ptr + f.off, 8), s + [0])
       case None => Load(w.mem, mb.ptr + f.off, 8) == 0)
    case Instance | InstanceOpt =>
      && Load(w.mem, mb.ptr + f.off, 8) == 0
      && match v
         case Some(s) => && HeldAt(w, mb, Load(w.mem, mb.ptr + f.ptrOff, 8), s)
                         && Load(w.mem, mb.ptr + f.sizeOff, 4) == |s|
         case None => Load(w.mem, mb.ptr + f.ptrOff, 8) == 0
  }

  /** A packed instance is not empty and its length fits its field. */
  predicate ValueOk(f: Field, v: Value) {
    f.kind.Packed() && v.Some? ==> 0 < |v.value| < 0x1_0000_0000
  }

  /** Absent values are null pointers in the structure before the field is handled. */
  ghost predicate AbsentIsNull(mem: Mem, msg: int, f: Field, v: Value) {
    v == None ==>
      match f.kind
      case SetNull => true
      case Pointer | PointerOpt => Load(mem, msg + f.off, 8) == 0
      case Instance | InstanceOpt => Load(mem, msg + f.ptrOff, 8) == 0
  }

  lemma {:induction false} AbsentMeansNull(mem: Mem, msg: nat, f: Field, v: Value)
    requires Denotes(mem, msg, f, v)
    ensures AbsentIsNull(mem, msg, f, v)
  {
  }

  lemma {:induction false} LoadStored(n: nat, k: nat)
    requires (k == 8 && n < WORD) || (k == 4 && n < 0x1_0000_0000)
    ensures Decode(Encode(n, k)) == n
  {
    assert Pow256(4) == 0x1_0000_0000;
    assert Pow256(8) == WORD;
    DecodeEncode(n, k);
  }

  lemma {:induction false} KeptTrans(w: World, w1: World, w2: World, mb: Block, s1: seq<Slot>, s2: seq<Slot>,
      all: seq<Slot>)
    requires Kept(w, w1, mb, s1) && Kept(w1, w2, mb, s2)
    requires (forall s <- s1 :: s in all) && (forall s <- s2 :: s in all)
    ensures Kept(w, w2, mb, all)
  {
    forall o | 0 <= o < mb.size && !InSlots(all, o) ensures ByteAt(w2.mem, mb, o) == ByteAt(w.mem, mb, o) {
      assert !InSlots(s1, o) && !InSlots(s2, o);
    }
  }

  /** A part of the message apart from the overwritten slots reads as before. */
  lemma {:induction false} KeptLoad(w: World, w': World, mb: Block, slots: seq<Slot>, t: Slot)
    requires Kept(w, w', mb, slots) && t.at + t.len <= mb.size && forall s <- slots :: SlotsApart(s, t)
    ensures Read(w'.mem, mb.ptr + t.at, t.len) == Read(w.mem, mb.ptr + t.at, t.len)
  {
    var before, after := Read(w.mem, mb.ptr + t.at, t.len), Read(w'.mem, mb.ptr + t.at, t.len);
    forall i | 0 <= i < t.len ensures after[i] == before[i] {
      assert !InSlots(slots, t.at + i);
      assert ByteAt(w'.mem, mb, t.at + i) == ByteAt(w.mem, mb, t.at + i);
    }
  }

  lemma {:induction false} KeptHeld(w: World, w': World, mb: Block, slots: seq<Slot>, p: nat, bytes: seq<byte>)
    requires Kept(w, w', mb, slots) && HeldAt(w, mb, p, bytes)
    ensures HeldAt(w', mb, p, bytes)
  {
  }

  /** Copy `bytes` into a new block and store its address in the message. */
  ghost function StoreNew(w: World, mb: Block, at: nat, bytes: seq<byte>, addr: nat): World {
    var (w1, p) := Alloc(w, bytes, addr);
    Poke(w1, mb.ptr + at, Encode(p, 8))
  }

  lemma {:induction false} PokeLoads(w: World, mb: Block, at: nat, n: nat, k: nat)
    requires Inv(w) && mb in w.blocks && at + k <= mb.size
    requires (k == 8 && n < WORD) || (k == 4 && n < 0x1_0000_0000)
    ensures var w' := Poke(w, mb.ptr + at, Encode(n, k));
            Inv(w') && w'.b == w.b && mb in w'.blocks && Kept(w, w', mb, [Slot(at, k)])
    ensures Load(Poke(w, mb.ptr + at, Encode(n, k)).mem, mb.ptr + at, k) == n
  {
    PokeKept(w, mb, at, Encode(n, k));
    LoadStored(n, k);
  }

  lemma {:induction false} StoreNewKept(w: World, mb: Block, at: nat, bytes: seq<byte>, addr: nat)
    requires Inv(w) && mb in w.blocks && at + 8 <= mb.size
    requires bytes != [] && GoodAnswer(w.b, |bytes|, addr)
    ensures var w2 := StoreNew(w, mb, at, bytes, addr);
            && Inv(w2) && mb in w2.blocks && Kept(w, w2, mb, [Slot(at, 8)])
            && HeldAt(w2, mb, Load(w2.mem, mb.ptr + at, 8), bytes)
  {
    hide Inv, Kept, GoodAnswer;
    var (w1, p) := Alloc(w, bytes, addr);
    var x := AllocKept(w, mb, bytes, addr);
    PokeLoads(w1, mb, at, p, 8);
    assert HeldAt(w1, mb, p, bytes);
    KeptHeld(w1, StoreNew(w, mb, at, bytes, addr), mb, [Slot(at, 8)], p, bytes);
    KeptTrans(w, w1, StoreNew(w, mb, at, bytes, addr), mb, [], [Slot(at, 8)], [Slot(at, 8)]);
  }

  lemma {:induction false} KeptNothing(w: World, mb: Block, slots: seq<Slot>)
    requires Inv(w)
    ensures Kept(w, w, mb, slots)
  {
  }

  lemma {:induction false} ClonePointer(w: World, mb: Block, f: Field, v: Value, addr: nat)
    requires Inv(w) && mb in w.blocks && FieldOk(mb.size, f) && (f.kind.Pointer? || f.kind.PointerOpt?)
    requires v.Some? ==> GoodAnswer(w.b, |v.value| + 1, addr)
    requires AbsentIsNull(w.mem, mb.ptr, f, v)
    ensures CloneField(w, mb.ptr, f, v, addr) == None <==> v == None && f.kind.Required()
    ensures var r := CloneField(w, mb.ptr, f, v, addr);
            r.Some? ==>
              && Inv(r.value) && mb in r.value.blocks && Kept(w, r.value, mb, SlotsOf(f))
              && FieldCloned(r.value, mb, f, v)
  {
    hide Inv, Kept, HeldAt, GoodAnswer;
    assert Slot(f.off, 8) in SlotsOf(f);
    if v.Some? {
      StoreNewKept(w, mb, f.off, v.value + [0], addr);
    } else {
      KeptNothing(w, mb, SlotsOf(f));
    }
  }

  lemma {:induction false} CloneInstance(w: World, mb: Block, f: Field, v: Value, addr: nat)
    requires Inv(w) && mb in w.blocks && FieldOk(mb.size, f) && f.kind.Packed() && ValueOk(f, v)
    requires v.Some? ==> GoodAnswer(w.b, |v.value|, addr)
    requires AbsentIsNull(w.mem, mb.ptr, f, v)
    ensures CloneField(w, mb.ptr, f, v, addr) == None <==> v == None && f.kind.Required()
    ensures var r := CloneField(w, mb.ptr, f, v, addr);
            r.Some? ==>
              && Inv(r.value) && mb in r.value.blocks && Kept(w, r.value, mb, SlotsOf(f))
              && FieldCloned(r.value, mb, f, v)
  {
    hide Inv, Kept, HeldAt, GoodAnswer, Poke, Alloc, Encode, Decode, Read;
    var objAt, ptrAt, sizeAt := Slot(f.off, 8), Slot(f.ptrOff, 8), Slot(f.sizeOff, 4);
    assert SlotsOf(f) == [objAt, ptrAt, sizeAt];
    assert objAt in SlotsOf(f) && ptrAt in SlotsOf(f) && sizeAt in SlotsOf(f);
    PokeLoads(w, mb, f.off, 0, 8);
    var w0 := Poke(w, mb.ptr + f.off, Encode(0, 8));
    if v.Some? {
      PokeLoads(w0, mb, f.sizeOff, |v.value|, 4);
      var w1 := Poke(w0, mb.ptr + f.sizeOff, Encode(|v.value|, 4));
      StoreNewKept(w1, mb, f.ptrOff, v.value, addr);
      var w2 := StoreNew(w1, mb, f.ptrOff, v.value, addr);
      KeptTrans(w, w0, w1, mb, [objAt], [sizeAt], SlotsOf(f));
      KeptTrans(w, w1, w2, mb, SlotsOf(f), [ptrAt], SlotsOf(f));
      KeptLoad(w0, w1, mb, [sizeAt], objAt);
      KeptLoad(w1, w2, mb, [ptrAt], objAt);
      KeptLoad(w1, w2, mb, [ptrAt], sizeAt);
    } else {
      KeptNothing(w, mb, []);
      KeptTrans(w, w, w0, mb, [], [objAt], SlotsOf(f));
      KeptLoad(w, w0, mb, [objAt], ptrAt);
    }
  }

  lemma {:induction false} CloneOne(w: World, mb: Block, f: Field, v: Value, addr: nat)
    requires Inv(w) && mb in w.blocks && FieldOk(mb.size, f) && ValueOk(f, v)
    requires CloneDemand(f, v).Some? ==> GoodAnswer(w.b, CloneDemand(f, v).value, addr)
    requires AbsentIsNull(w.mem, mb.ptr, f, v)
    ensures CloneField(w, mb.ptr, f, v, addr) == None <==> v == None && f.kind.Required()
    ensures var r := CloneField(w, mb.ptr, f, v, addr);
            r.Some? ==>
              && Inv(r.value) && mb in r.value.blocks && Kept(w, r.value, mb, SlotsOf(f))
              && FieldCloned(r.value, mb, f, v)
  {
    hide Inv, Kept, HeldAt, GoodAnswer, FieldOk, Poke, Alloc;
    match f.kind
    case SetNull => KeptNothing(w, mb, SlotsOf(f));
    case Pointer | PointerOpt => ClonePointer(w, mb, f, v, addr);
    case Instance | InstanceOpt => CloneInstance(w, mb, f, v, addr);
  }

  function AllSlots(table: seq<Field>): seq<Slot> {
    if table == [] then [] else SlotsOf(table[0]) + AllSlots(table[1..])
  }

  predicate ApartFromAll(f: Field, table: seq<Field>) {
    forall g <- table :: FieldsApart(f, g)
  }

  lemma {:induction false} SlotsOfOthersApart(f: Field, table: seq<Field>)
    requires ApartFromAll(f, table)
    ensures forall s <- SlotsOf(f), t <- AllSlots(table) :: SlotsApart(t, s)
  {
    if table != [] {
      SlotsOfOthersApart(f, table[1..]);
      ApartSlotwise(f, table[0]);
    }
  }

  /** Overwriting other slots leaves a cloned field cloned, and an absent one null. */
  lemma {:induction false} FieldStays(w: World, w': World, mb: Block, slots: seq<Slot>, f: Field, v: Value)
    requires Kept(w, w', mb, slots) && FieldOk(mb.size, f)
    requires forall s <- SlotsOf(f), t <- slots :: SlotsApart(t, s)
    ensures FieldCloned(w, mb, f, v) ==> FieldCloned(w', mb, f, v)
    ensures AbsentIsNull(w.mem, mb.ptr, f, v) ==> AbsentIsNull(w'.mem, mb.ptr, f, v)
  {
    hide Kept, HeldAt, Read, Decode;
    assert Slot(f.off, 8) in SlotsOf(f);
    KeptLoad(w, w', mb, slots, Slot(f.off, 8));
    if f.kind.Packed() {
      assert Slot(f.ptrOff, 8) in SlotsOf(f) && Slot(f.sizeOff, 4) in SlotsOf(f);
      KeptLoad(w, w', mb, slots, Slot(f.ptrOff, 8));
      KeptLoad(w, w', mb, slots, Slot(f.sizeOff, 4));
    }
    if FieldCloned(w, mb, f, v) && v.Some? && f.kind != SetNull {
      if f.kind.Packed() {
        KeptHeld(w, w', mb, slots, Load(w.mem, mb.ptr + f.ptrOff, 8), v.value);
      } else {
        KeptHeld(w, w', mb, slots, Load(w.mem, mb.ptr + f.off, 8), v.value + [0]);
      }
    }
  }

  ghost predicate AllAbsentNull(mem: Mem, msg: int, table: seq<Field>, values: seq<Value>)
    requires |table| == |values|
  {
    forall i | 0 <= i < |table| :: AbsentIsNull(mem, msg, table[i], values[i])
  }

  predicate AllValuesOk(table: seq<Field>, values: seq<Value>)
    requires |table| == |values|
  {
    forall i | 0 <= i < |table| :: ValueOk(table[i], values[i])
  }

  ghost predicate AllCloned(w: World, mb: Block, table: seq<Field>, values: seq<Value>)
    requires |table| == |values|
  {
    forall i | 0 <= i < |table| :: FieldCloned(w, mb, table[i], values[i])
  }

  /** Every field the table requires has a value. */
  predicate RequiredPresent(table: seq<Field>, values: seq<Value>)
    requires |table| == |values|
  {
    forall i | 0 <= i < |table| :: table[i].kind.Required() ==> values[i].Some?
  }

  lemma {:induction false} RestStaysAbsent(
      w: World, w': World, mb: Block, f: Field, table: seq<Field>, values: seq<Value>)
    requires |table| == |values| && Kept(w, w', mb, SlotsOf(f)) && ApartFromAll(f, table)
    requires (forall g <- table :: FieldOk(mb.size, g)) && AllAbsentNull(w.mem, mb.ptr, table, values)
    ensures AllAbsentNull(w'.mem, mb.ptr, table, values)
  {
    hide Kept, AbsentIsNull;
    forall i | 0 <= i < |table| ensures AbsentIsNull(w'.mem, mb.ptr, table[i], values[i]) {
      ApartSlotwise(f, table[i]);
      FieldStays(w, w', mb, SlotsOf(f), table[i], values[i]);
    }
  }

  lemma {:induction false} TableFieldsOk(size: nat, table: seq<Field>)
    requires TableOk(size, table)
    ensures forall g <- table :: FieldOk(size, g)
  {
    if table != [] { TableFieldsOk(size, table[1..]); }
  }

  /**
    `_CloneMessageFields` fails exactly when a required field has no value; otherwise every field
    of the clone denotes what it denoted in the source, and the rest of the message is untouched.
   */
  lemma {:induction false} CloneAll(w: World, mb: Block, table: seq<Field>, values: seq<Value>, addrs: seq<nat>)
    requires |table| == |values| == |addrs|
    requires Inv(w) && mb in w.blocks && TableOk(mb.size, table)
    requires AllValuesOk(table, values) && AllAbsentNull(w.mem, mb.ptr, table, values)
    requires GoodAnswers(w, mb.ptr, table, values, addrs)
    ensures CloneFields(w, mb.ptr, table, values, addrs).Some? <==> RequiredPresent(table, values)
    ensures var r := CloneFields(w, mb.ptr, table, values, addrs);
            r.Some? ==> Inv(r.value) && mb in r.value.blocks && Kept(w, r.value, mb, AllSlots(table))
                        && AllCloned(r.value, mb, table, values)
    decreases |table|
  {
    hide Inv, Kept, FieldCloned, AbsentIsNull, GoodAnswer, CloneField, FieldOk, FieldsApart;
    if table == [] {
      KeptNothing(w, mb, []);
    } else {
      var f, v, rest, vs := table[0], values[0], table[1..], values[1..];
      CloneOne(w, mb, f, v, addrs[0]);
      var r := CloneField(w, mb.ptr, f, v, addrs[0]);
      if r.Some? {
        var w1 := r.value;
        TableFieldsOk(mb.size, rest);
        RestStaysAbsent(w, w1, mb, f, rest, vs);
        CloneAll(w1, mb, rest, vs, addrs[1..]);
        var r2 := CloneFields(w1, mb.ptr, rest, vs, addrs[1..]);
        assert RequiredPresent(table, values) <==> RequiredPresent(rest, vs) by {
          RequiredSplits(table, values);
        }
        if r2.Some? {
          KeptTrans(w, w1, r2.value, mb, SlotsOf(f), AllSlots(rest), AllSlots(table));
          SlotsOfOthersApart(f, rest);
          FieldStays(w1, r2.value, mb, AllSlots(rest), f, v);
        }
      }
    }
  }

  lemma {:induction false} RequiredSplits(table: seq<Field>, values: seq<Value>)
    requires |table| == |values| && table != []
    ensures RequiredPresent(table, values) <==>
              (table[0].kind.Required() ==> values[0].Some?) && RequiredPresent(table[1..], values[1..])
  {
    if (table[0].kind.Required() ==> values[0].Some?) && RequiredPresent(table[1..], values[1..]) {
      forall i | 0 <= i < |table| ensures table[i].kind.Required() ==> values[i].Some? {
        if i > 0 { assert table[i] == table[1..][i - 1] && values[i] == values[1..][i - 1]; }
      }
    }
    if RequiredPresent(table, values) {
      forall i | 0 <= i < |table| - 1 ensures table[1..][i].kind.Required() ==> values[1..][i].Some? {
        assert table[1..][i] == table[i + 1] && values[1..][i] == values[i + 1];
      }
    }
  }
}
