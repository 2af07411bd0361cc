/**
  A message from one process to another: `MessagePackCloneForBinarySending` in the sender, the
  transport of its batch, `__MessageFromBatch` in the receiver.
 */
module MessageTransport {
  import opened Memory
  import opened BatchAllocator
  import opened BatchTransport
  import opened Messages
  import opened MessageRestore
  import opened MessageTables

  // ---------------------------------------------------------------------------------------
  // What transport carries
  // ---------------------------------------------------------------------------------------

  /** The received pages lie in the 64-bit address space. */
  ghost predicate Addressable(info: seq<Item>, addrs: seq<nat>)
    requires |info| == |addrs|
  {
    forall i | 0 <= i < |info| :: addrs[i] + PAGE_HEADER + info[i].size < WORD
  }

  /** A sender, and a receiver that has taken over its pages. */
  datatype Link = Link(w: World, info: seq<Item>, addrs: seq<nat>, ops: seq<Op>, r: World) {
    ghost predicate Valid() {
      && Inv(w) && info == PageInfo(w.b)
      && IsReceiver(info, w.mem, addrs, ops, r) && Addressable(info, addrs)
    }
  }

  /** Where the receiver finds block `x`. */
  ghost function Image(l: Link, x: Block): nat {
    if l.Valid() && FindItem(l.info, x.ptr) < |l.info| then ImageOf(l.info, l.addrs, x.ptr) else 0
  }

  lemma {:induction false} BlockCarried(l: Link, x: Block)
    requires l.Valid() && x in l.w.blocks
    ensures FixPointer(l.r.b, l.info, x.ptr) == Some(Image(l, x)) && 0 < Image(l, x) < WORD
    ensures Content(l.w.mem, x) == Read(l.r.mem, Image(l, x), x.size)
  {
    hide Inv, IsReceiver, PageInfo, FixPointer;
    NonEmpty(l, x);
    GoodAddressesOf(l);
    TransportPreservesBlocks(l.w, l.info, l.addrs, l.ops, l.r, x, 0);
    forall k | 0 <= k < x.size ensures Content(l.w.mem, x)[k] == Read(l.r.mem, Image(l, x), x.size)[k] {
      TransportPreservesBlocks(l.w, l.info, l.addrs, l.ops, l.r, x, k);
    }
    var i := FindItem(l.info, x.ptr);
    assert l.addrs[i] + PAGE_HEADER + l.info[i].size < WORD;
  }

  lemma {:induction false} NonEmpty(l: Link, x: Block)
    requires l.Valid() && x in l.w.blocks
    ensures 0 < x.size
  {
  }

  /** Distinct blocks have images that do not overlap. */
  lemma {:induction false} ImagesApart(l: Link, x: Block, y: Block)
    requires l.Valid() && x in l.w.blocks && y in l.w.blocks && x != y
    ensures Apart(Image(l, x), x.size, Image(l, y), y.size)
  {
    hide PageInfo, IsReceiver;
    NonEmpty(l, x);
    NonEmpty(l, y);
    LiveBlocksApart(l.w, x, y);
    assert x.size <= x.cap && y.size <= y.cap;
    var ix, iy := Image(l, x), Image(l, y);
    if ix <= iy < ix + x.size {
      ImagesDiffer(l, x, iy - ix, y, 0);
    } else if iy <= ix < iy + y.size {
      ImagesDiffer(l, x, 0, y, ix - iy);
    }
  }

  lemma {:induction false} ImagesDiffer(l: Link, x: Block, j: nat, y: Block, k: nat)
    requires l.Valid() && x in l.w.blocks && y in l.w.blocks && j < x.size && k < y.size && x.ptr + j != y.ptr + k
    ensures Image(l, x) + j != Image(l, y) + k
  {
    hide PageInfo, Inv, IsReceiver;
    assert GoodAddresses(l.info, l.addrs) by { GoodAddressesOf(l); }
    ImageOfInterior(l.w, l.info, l.addrs, x, j);
    ImageOfInterior(l.w, l.info, l.addrs, y, k);
    TransportIsInjective(l.w, l.info, l.addrs, x, j, y, k);
  }

  lemma {:induction false} GoodAddressesOf(l: Link)
    requires l.Valid()
    ensures GoodAddresses(l.info, l.addrs)
  {
  }

  lemma {:induction false} HeldIsCarried(l: Link, mb: Block, p: nat, bytes: seq<byte>)
    requires l.Valid() && mb in l.w.blocks && HeldAt(l.w, mb, p, bytes) && bytes != []
    ensures LeadsTo(l.r.b, l.info, l.r.mem, Image(l, mb), mb.size, p, bytes)
  {
    hide Inv, IsReceiver, PageInfo, FixPointer, Image;
    var x :| x in l.w.blocks && x != mb && x.ptr == p && x.size == |bytes| && Content(l.w.mem, x) == bytes;
    BlockCarried(l, x);
    ImagesApart(l, x, mb);
    assert 0 < x.ptr by { PtrPositive(l, x); }
  }

  lemma {:induction false} PtrPositive(l: Link, x: Block)
    requires l.Valid() && x in l.w.blocks
    ensures 0 < x.ptr
  {
  }

  /** A part of the message structure arrives as it was sent. */
  lemma {:induction false} SlotCarried(l: Link, mb: Block, t: Slot)
    requires l.Valid() && mb in l.w.blocks && t.at + t.len <= mb.size
    ensures Read(l.r.mem, Image(l, mb) + t.at, t.len) == Read(l.w.mem, mb.ptr + t.at, t.len)
  {
    hide Image, Inv, IsReceiver, PageInfo, FixPointer, Read;
    BlockCarried(l, mb);
    SubRead(l.w.mem, mb.ptr, l.r.mem, Image(l, mb), mb.size, t.at, t.len);
  }

  lemma {:induction false} SubRead(m: Mem, a: int, m': Mem, a': int, n: nat, at: nat, len: nat)
    requires Read(m, a, n) == Read(m', a', n) && at + len <= n
    ensures Read(m', a' + at, len) == Read(m, a + at, len)
  {
    var s, s' := Read(m, a + at, len), Read(m', a' + at, len);
    forall i | 0 <= i < len ensures s'[i] == s[i] {
      assert Read(m, a, n)[at + i] == Read(m', a', n)[at + i];
    }
  }

  /** Field `f` of a message in its own batch denotes `v`, and what it points to is in that batch. */
  ghost predicate FieldHeld(w: World, mb: Block, f: Field, v: Value) {
    match f.kind
    case SetNull => true
    case Pointer | PointerOpt =>
      (match v
       case Some(s) => HeldAt(w, mb, Load(w.mem, mb.ptr + f.off, 8), s + [0])
       case None => Load(w.mem, mb.ptr + f.off, 8) == 0)
    case Instance | InstanceOpt =>
      match v
      case Some(s) => && HeldAt(w, mb, Load(w.mem, mb.ptr + f.ptrOff, 8), s)
                      && Load(w.mem, mb.ptr + f.sizeOff, 4) == |s|
      case None => Load(w.mem, mb.ptr + f.ptrOff, 8) == 0
  }

  ghost predicate AllHeld(w: World, mb: Block, rows: seq<Field>, values: seq<Value>)
    requires |rows| == |values|
  {
    forall i | 0 <= i < |rows| :: FieldHeld(w, mb, rows[i], values[i])
  }

  lemma {:induction false} ClonedIsHeld(w: World, mb: Block, rows: seq<Field>, values: seq<Value>)
    requires |rows| == |values| && AllCloned(w, mb, rows, values)
    ensures AllHeld(w, mb, rows, values)
  {
    hide HeldAt, Load;
    forall i | 0 <= i < |rows| ensures FieldHeld(w, mb, rows[i], values[i]) {
      assert FieldCloned(w, mb, rows[i], values[i]);
    }
  }

  lemma {:induction false} FieldIsCarried(l: Link, mb: Block, f: Field, v: Value)
    requires l.Valid() && mb in l.w.blocks && FieldOk(mb.size, f) && ValueOk(f, v)
    requires FieldHeld(l.w, mb, f, v)
    ensures FieldCarried(l.r.b, l.info, l.r.mem, Image(l, mb), mb.size, f, v)
  {
    hide HeldAt, LeadsTo, Image, Read, Decode, Inv, IsReceiver, PageInfo;
    SlotCarried(l, mb, Slot(f.off, 8));
    if f.kind.Packed() {
      SlotCarried(l, mb, Slot(f.ptrOff, 8));
      SlotCarried(l, mb, Slot(f.sizeOff, 4));
      if v.Some? { HeldIsCarried(l, mb, Load(l.w.mem, mb.ptr + f.ptrOff, 8), v.value); }
    } else if v.Some? && f.kind != SetNull {
      HeldIsCarried(l, mb, Load(l.w.mem, mb.ptr + f.off, 8), v.value + [0]);
    }
  }

  // ---------------------------------------------------------------------------------------
  // The sender
  // ---------------------------------------------------------------------------------------

  function Zeros(n: nat): (s: seq<byte>)
    ensures |s| == n
  {
    seq(n, _ => 0)
  }

  /** What the heap answers while a message is created: for the batch's first page, for the structure. */
  datatype Answers = Answers(forBatch: nat, forMessage: nat)

  /** `__Message_New` in a batch of its own; `obj` is what `__Batch_New` copies into the batch. */
  ghost function NewMessage(mem: Mem, tag: nat, operationId: nat, flags: nat, size: nat, obj: seq<byte>, h: Answers)
    : (World, nat)
  {
    var (w1, self) := Alloc(Start(MAX_PAGES, mem), obj, h.forBatch);
    var (w2, msg) := Alloc(w1, Zeros(size), h.forMessage);
    var w3 := Poke(w2, msg + TAG_AT, Encode(tag, 4));
    var w4 := Poke(w3, msg + OPERATION_AT, Encode(operationId, 8));
    var w5 := Poke(w4, msg + FLAGS_AT, Encode(flags, 4));
    var w6 := Poke(w5, msg + REFS_AT, Encode(1, 8));
    (Poke(w6, msg + BATCH_AT, Encode(self, 8)), msg)
  }

  ghost predicate GoodCreation(mem: Mem, size: nat, obj: seq<byte>, h: Answers) {
    && |obj| == BATCH_OBJECT
    && GoodAnswer(Init(MAX_PAGES), BATCH_OBJECT, h.forBatch)
    && GoodAnswer(Alloc(Start(MAX_PAGES, mem), obj, h.forBatch).0.b, size, h.forMessage)
  }

  /** The header fields of the message in block `mb`. */
  ghost predicate HeaderIs(mem: Mem, msg: nat, tag: nat, operationId: nat, flags: nat) {
    && Load(mem, msg + TAG_AT, 4) == tag
    && Load(mem, msg + OPERATION_AT, 8) == operationId
    && Load(mem, msg + FLAGS_AT, 4) == flags
  }

  lemma {:induction false} FirstAlloc(mem: Mem, obj: seq<byte>, addr: nat) returns (x: Block)
    requires obj != [] && GoodAnswer(Init(MAX_PAGES), |obj|, addr)
    ensures var (w, p) := Alloc(Start(MAX_PAGES, mem), obj, addr);
            Inv(w) && x in w.blocks && p == x.ptr < WORD
  {
    var w0 := Start(MAX_PAGES, mem);
    x := GetKept(w0, |obj|, addr);
    PokeKept(Step(w0, GetOp(|obj|, addr)), x, 0, obj);
  }

  lemma {:induction false} HeaderStays(w: World, w': World, mb: Block, slot: Slot, tag: nat, operationId: nat,
      flags: nat)
    requires Kept(w, w', mb, [slot]) && MESSAGE <= mb.size && HeaderIs(w.mem, mb.ptr, tag, operationId, flags)
    requires SlotsApart(slot, Slot(TAG_AT, 8)) && SlotsApart(slot, Slot(OPERATION_AT, 8))
    ensures HeaderIs(w'.mem, mb.ptr, tag, operationId, flags)
  {
    KeptLoad(w, w', mb, [slot], Slot(TAG_AT, 4));
    KeptLoad(w, w', mb, [slot], Slot(OPERATION_AT, 8));
    KeptLoad(w, w', mb, [slot], Slot(FLAGS_AT, 4));
  }

  lemma {:induction false} HeaderWritten(w2: World, mb: Block, tag: nat, operationId: nat,
      flags: nat) returns (w5: World)
    requires Inv(w2) && mb in w2.blocks && MESSAGE <= mb.size
    requires tag < 0x1_0000_0000 && operationId < WORD && flags < 0x1_0000_0000
    ensures var w3 := Poke(w2, mb.ptr + TAG_AT, Encode(tag, 4));
            var w4 := Poke(w3, mb.ptr + OPERATION_AT, Encode(operationId, 8));
            w5 == Poke(w4, mb.ptr + FLAGS_AT, Encode(flags, 4))
    ensures Inv(w5) && mb in w5.blocks && HeaderIs(w5.mem, mb.ptr, tag, operationId, flags)
  {
    hide Inv, Kept, Poke, Encode, Decode, Read;
    var w3 := Poke(w2, mb.ptr + TAG_AT, Encode(tag, 4));
    PokeLoads(w2, mb, TAG_AT, tag, 4);
    var w4 := Poke(w3, mb.ptr + OPERATION_AT, Encode(operationId, 8));
    PokeLoads(w3, mb, OPERATION_AT, operationId, 8);
    KeptLoad(w3, w4, mb, [Slot(OPERATION_AT, 8)], Slot(TAG_AT, 4));
    w5 := Poke(w4, mb.ptr + FLAGS_AT, Encode(flags, 4));
    PokeLoads(w4, mb, FLAGS_AT, flags, 4);
    KeptLoad(w4, w5, mb, [Slot(FLAGS_AT, 4)], Slot(TAG_AT, 4));
    KeptLoad(w4, w5, mb, [Slot(FLAGS_AT, 4)], Slot(OPERATION_AT, 8));
  }

  lemma {:induction false} NewMessageOk(
      mem: Mem, tag: nat, operationId: nat, flags: nat, size: nat, obj: seq<byte>, h: Answers) returns (mb: Block)
    requires GoodCreation(mem, size, obj, h) && MESSAGE <= size
    requires tag < 0x1_0000_0000 && operationId < WORD && flags < 0x1_0000_0000
    ensures var (w, msg) := NewMessage(mem, tag, operationId, flags, size, obj, h);
            Inv(w) && mb in w.blocks && mb.ptr == msg && mb.size == size
            && HeaderIs(w.mem, msg, tag, operationId, flags)
  {
    hide Inv, Kept, Poke, Alloc, Encode, HeaderIs, GoodAnswer;
    var (w1, self) := Alloc(Start(MAX_PAGES, mem), obj, h.forBatch);
    var bb := FirstAlloc(mem, obj, h.forBatch);
    var (w2, msg) := Alloc(w1, Zeros(size), h.forMessage);
    mb := AllocKept(w1, bb, Zeros(size), h.forMessage);
    assert mb.size == size by { ContentSize(w2.mem, mb, Zeros(size)); }
    var w5 := HeaderWritten(w2, mb, tag, operationId, flags);
    var w6 := Poke(w5, msg + REFS_AT, Encode(1, 8));
    PokeLoads(w5, mb, REFS_AT, 1, 8);
    HeaderStays(w5, w6, mb, Slot(REFS_AT, 8), tag, operationId, flags);
    PokeLoads(w6, mb, BATCH_AT, self, 8);
    HeaderStays(w6, Poke(w6, msg + BATCH_AT, Encode(self, 8)), mb, Slot(BATCH_AT, 8), tag, operationId, flags);
  }

  lemma {:induction false} ContentSize(mem: Mem, x: Block, bytes: seq<byte>)
    requires Content(mem, x) == bytes
    ensures x.size == |bytes|
  {
  }

  /** `values` is what the rows of the message at address `s` of memory `mem` denote. */
  ghost predicate SourceHas(mem: Mem, s: nat, rows: seq<Field>, values: seq<Value>) {
    && |values| == |rows| && AllValuesOk(rows, values)
    && forall i | 0 <= i < |rows| :: Denotes(mem, s, rows[i], values[i])
  }

  /** The clone before its fields are handled: a new message with the source's body copied over it. */
  ghost function Blank(mem: Mem, src: Mem, s: nat, tag: nat, operationId: nat, flags: nat, size: nat, obj: seq<byte>,
      h: Answers)
    : (World, nat)
    requires MESSAGE <= size
  {
    var (w0, msg) := NewMessage(mem, tag, operationId, flags, size, obj, h);
    (Poke(w0, msg + MESSAGE, Read(src, s + MESSAGE, size - MESSAGE)), msg)
  }

  lemma {:induction false} BlankOk(
      mem: Mem, src: Mem, s: nat, tag: nat, operationId: nat, flags: nat, size: nat, obj: seq<byte>, h: Answers)
    returns (mb: Block)
    requires GoodCreation(mem, size, obj, h) && MESSAGE <= size
    requires tag < 0x1_0000_0000 && operationId < WORD && flags < 0x1_0000_0000
    ensures var (w, msg) := Blank(mem, src, s, tag, operationId, flags, size, obj, h);
            Inv(w) && mb in w.blocks && mb.ptr == msg && mb.size == size
            && HeaderIs(w.mem, msg, tag, operationId, flags)
            && Read(w.mem, msg + MESSAGE, size - MESSAGE) == Read(src, s + MESSAGE, size - MESSAGE)
  {
    hide Inv, NewMessage, HeaderIs, Kept, GoodCreation;
    mb := NewMessageOk(mem, tag, operationId, flags, size, obj, h);
    var (w0, msg) := NewMessage(mem, tag, operationId, flags, size, obj, h);
    var body := Read(src, s + MESSAGE, size - MESSAGE);
    PokeKept(w0, mb, MESSAGE, body);
    var w := Poke(w0, msg + MESSAGE, body);
    HeaderStays(w0, w, mb, Slot(MESSAGE, |body|), tag, operationId, flags);
    assert Inv(w) by { KeptInv(w0, w, mb, [Slot(MESSAGE, |body|)]); }
  }

  lemma {:induction false} KeptInv(w: World, w': World, mb: Block, slots: seq<Slot>)
    requires Kept(w, w', mb, slots)
    ensures Inv(w') && (mb in w.blocks ==> mb in w'.blocks)
  {
  }

  /** Null pointers of the source's body are null in the copy. */
  lemma {:induction false} AbsentCopied(src: Mem, s: nat, mem: Mem, msg: nat, size: nat, f: Field, v: Value)
    requires MESSAGE <= size && Read(mem, msg + MESSAGE, size - MESSAGE) == Read(src, s + MESSAGE, size - MESSAGE)
    requires FieldWithin(MESSAGE, size, f) && AbsentIsNull(src, s, f, v)
    ensures AbsentIsNull(mem, msg, f, v)
  {
    hide Decode;
    SubRead(src, s + MESSAGE, mem, msg + MESSAGE, size - MESSAGE, f.off - MESSAGE, 8);
    assert msg + MESSAGE + (f.off - MESSAGE) == msg + f.off && s + MESSAGE + (f.off - MESSAGE) == s + f.off;
    if f.kind.Packed() {
      SubRead(src, s + MESSAGE, mem, msg + MESSAGE, size - MESSAGE, f.ptrOff - MESSAGE, 8);
      assert msg + MESSAGE + (f.ptrOff - MESSAGE) == msg + f.ptrOff;
      assert s + MESSAGE + (f.ptrOff - MESSAGE) == s + f.ptrOff;
    }
  }

  lemma {:induction false} SlotsWithin(lo: nat, hi: nat, table: seq<Field>)
    requires Within(lo, hi, table)
    ensures forall t <- AllSlots(table) :: lo <= t.at && t.at + t.len <= hi
  {
    if table != [] {
      SlotsWithin(lo, hi, table[1..]);
      assert FieldWithin(lo, hi, table[0]);
    }
  }

  /** The message to be sent: a structure at address `at` of the sender's memory. */
  datatype Source = Source(mem: Mem, at: nat) {
    function Tag(): nat { Load(mem, at + TAG_AT, 4) }
    function Operation(): nat { Load(mem, at + OPERATION_AT, 8) }
    function Flags(): nat { Load(mem, at + FLAGS_AT, 4) }
    predicate IsCloned() { IsTag(Tag()) && DeclarationOf(IndexOfTag(Tag())).Cloned? }
    function Size(): nat
      requires IsCloned()
    {
      DeclarationOf(IndexOfTag(Tag())).size
    }
    function Rows(): seq<Field>
      requires IsCloned()
    {
      RowsOf(Tag())
    }
  }

  /** What the sender's process supplies: memory contents, the bytes of the new batch object, heap addresses. */
  datatype Supply = Supply(mem: Mem, obj: seq<byte>, h: Answers, addrs: seq<nat>)

  lemma {:induction false} ClonedIsTabled(tag: nat)
    requires DeclarationOf(IndexOfTag(tag)).Cloned?
    ensures IndexOfTag(tag) != 0
  {
  }

  lemma {:induction false} SourceFits(c: Source)
    requires c.IsCloned()
    ensures MESSAGE <= c.Size() && TableOk(c.Size(), BaseFields() + c.Rows()) && TableOk(c.Size(), c.Rows())
    ensures Within(MESSAGE, c.Size(), c.Rows())
    ensures c.Tag() < 0x1_0000_0000 && c.Operation() < WORD && c.Flags() < 0x1_0000_0000
  {
    hide DeclarationOf, RequestFields;
    ClonedIsTabled(c.Tag());
    TablesAreOk(c.Tag());
    TailIsOk(c.Size(), BaseFields(), c.Rows());
    assert Pow256(4) == 0x1_0000_0000 && Pow256(8) == WORD;
    DecodeBound(Read(c.mem, c.at + TAG_AT, 4));
    DecodeBound(Read(c.mem, c.at + OPERATION_AT, 8));
    DecodeBound(Read(c.mem, c.at + FLAGS_AT, 4));
  }

  lemma {:induction false} TailIsOk(size: nat, t1: seq<Field>, t2: seq<Field>)
    requires TableOk(size, t1 + t2)
    ensures TableOk(size, t2)
  {
    if t1 == [] {
      assert t1 + t2 == t2;
    } else {
      assert (t1 + t2)[1..] == t1[1..] + t2;
      TailIsOk(size, t1[1..], t2);
    }
  }

  ghost function BlankOf(c: Source, e: Supply): (World, nat)
    requires c.IsCloned()
  {
    if MESSAGE <= c.Size()
    then Blank(e.mem, c.mem, c.at, c.Tag(), c.Operation(), c.Flags(), c.Size(), e.obj, e.h)
    else (Start(0, e.mem), 0)
  }

  /** The heap answers every request of the clone with usable memory. */
  ghost predicate GoodSupply(c: Source, e: Supply, values: seq<Value>)
    requires c.IsCloned() && |c.Rows()| == |values|
  {
    && |e.addrs| == |values|
    && GoodCreation(e.mem, c.Size(), e.obj, e.h)
    && GoodAnswers(BlankOf(c, e).0, BlankOf(c, e).1, c.Rows(), values, e.addrs)
  }

  /** `MessagePackCloneForBinarySending` of a message whose tag is cloned; None is an error return. */
  ghost function CloneForSending(c: Source, e: Supply, values: seq<Value>): Option<World>
    requires c.IsCloned() && |c.Rows()| == |values| == |e.addrs|
  {
    CloneFields(BlankOf(c, e).0, BlankOf(c, e).1, c.Rows(), values, e.addrs)
  }

  /** A message ready to be sent: every row denotes its value, the header and the rest of the body are the source's. */
  ghost predicate ReadyToSend(w: World, mb: Block, c: Source, values: seq<Value>)
    requires c.IsCloned() && |c.Rows()| == |values|
  {
    && Inv(w) && mb in w.blocks && mb.size == c.Size()
    && HeaderIs(w.mem, mb.ptr, c.Tag(), c.Operation(), c.Flags())
    && AllCloned(w, mb, c.Rows(), values)
    && forall o | MESSAGE <= o < mb.size && !InSlots(AllSlots(c.Rows()), o) :: ByteAt(w.mem, mb, o) == c.mem(c.at + o)
  }

  lemma {:induction false} HeaderKept(w: World, w': World, mb: Block, slots: seq<Slot>, c: Source)
    requires Kept(w, w', mb, slots) && MESSAGE <= mb.size && forall t <- slots :: MESSAGE <= t.at
    requires HeaderIs(w.mem, mb.ptr, c.Tag(), c.Operation(), c.Flags())
    ensures HeaderIs(w'.mem, mb.ptr, c.Tag(), c.Operation(), c.Flags())
  {
    hide Kept, Read, Decode;
    KeptLoad(w, w', mb, slots, Slot(TAG_AT, 4));
    KeptLoad(w, w', mb, slots, Slot(OPERATION_AT, 8));
    KeptLoad(w, w', mb, slots, Slot(FLAGS_AT, 4));
  }

  lemma {:induction false} BodyKept(w: World, w': World, mb: Block, slots: seq<Slot>, c: Source, size: nat)
    requires Kept(w, w', mb, slots) && MESSAGE <= size == mb.size
    requires Read(w.mem, mb.ptr + MESSAGE, size - MESSAGE) == Read(c.mem, c.at + MESSAGE, size - MESSAGE)
    ensures forall o | MESSAGE <= o < mb.size && !InSlots(slots, o) :: ByteAt(w'.mem, mb, o) == c.mem(c.at + o)
  {
    forall o | MESSAGE <= o < mb.size && !InSlots(slots, o) ensures ByteAt(w'.mem, mb, o) == c.mem(c.at + o) {
      assert Read(w.mem, mb.ptr + MESSAGE, size - MESSAGE)[o - MESSAGE]
          == Read(c.mem, c.at + MESSAGE, size - MESSAGE)[o - MESSAGE];
    }
  }

  lemma {:induction false} BlankAbsent(c: Source, w: World, mb: Block, values: seq<Value>)
    requires c.IsCloned() && SourceHas(c.mem, c.at, c.Rows(), values)
    requires MESSAGE <= c.Size() && Within(MESSAGE, c.Size(), c.Rows())
    requires Read(w.mem, mb.ptr + MESSAGE, c.Size() - MESSAGE) == Read(c.mem, c.at + MESSAGE, c.Size() - MESSAGE)
    ensures AllAbsentNull(w.mem, mb.ptr, c.Rows(), values)
  {
    hide AbsentIsNull, DeclarationOf, RowsOf, Read, Denotes;
    forall i | 0 <= i < |values| ensures AbsentIsNull(w.mem, mb.ptr, c.Rows()[i], values[i]) {
      AbsentMeansNull(c.mem, c.at, c.Rows()[i], values[i]);
      AbsentCopied(c.mem, c.at, w.mem, mb.ptr, c.Size(), c.Rows()[i], values[i]);
    }
  }

  /**
    Cloning for sending fails exactly when a required field has no value; otherwise the clone is
    ready to be sent.
   */
  lemma {:induction false} CloneIsReady(c: Source, e: Supply, values: seq<Value>) returns (mb: Block)
    requires c.IsCloned() && SourceHas(c.mem, c.at, c.Rows(), values) && GoodSupply(c, e, values)
    ensures CloneForSending(c, e, values).Some? <==> RequiredPresent(c.Rows(), values)
    ensures CloneForSending(c, e, values).Some? ==>
              mb.ptr == BlankOf(c, e).1 && ReadyToSend(CloneForSending(c, e, values).value, mb, c, values)
  {
    hide Inv, Kept, GoodAnswer, GoodCreation, Blank, HeaderIs, DeclarationOf, RowsOf, AbsentIsNull, FieldCloned,
      Within, CloneFields, Read;
    SourceFits(c);
    mb := BlankOk(e.mem, c.mem, c.at, c.Tag(), c.Operation(), c.Flags(), c.Size(), e.obj, e.h);
    var (w, msg) := BlankOf(c, e);
    BlankAbsent(c, w, mb, values);
    CloneAll(w, mb, c.Rows(), values, e.addrs);
    var r := CloneForSending(c, e, values);
    if r.Some? {
      SlotsWithin(MESSAGE, c.Size(), c.Rows());
      HeaderKept(w, r.value, mb, AllSlots(c.Rows()), c);
      BodyKept(w, r.value, mb, AllSlots(c.Rows()), c, c.Size());
    }
  }

  // ---------------------------------------------------------------------------------------
  // The receiver
  // ---------------------------------------------------------------------------------------

  /** A message in the receiver: its address, and the memory once its pointers have been repaired. */
  datatype Delivery = Delivery(msg: nat, mem: Mem)

  /** The message's own batch and reference count. */
  function Adopt(mem: Mem, msg: nat, batch: nat): Mem {
    Write(Write(mem, msg + BATCH_AT, Encode(batch, 8)), msg + REFS_AT, Encode(1, 8))
  }

  /**
    `__MessageFromBatch` for the message that was at `orig` in the sender; None is an error return.
    The tag whose table has no end mark is not followed any further.
   */
  function FromBatch(b: State, info: seq<Item>, mem: Mem, orig: nat, batch: nat): Option<Delivery> {
    match FixPointer(b, info, orig)
    case None => None
    case Some(msg) =>
      match RestoreFields(b, info, Adopt(mem, msg, batch), msg, BaseFields())
      case None => None
      case Some(mem2) =>
        var tag := Load(mem2, msg + TAG_AT, 4);
        var d := DeclarationOf(IndexOfTag(tag));
        if d.Invalid? || d.Unterminated? then None
        else
          match (if IsRequest(tag) then RestoreFields(b, info, mem2, msg, RequestFields()) else Some(mem2))
          case None => None
          case Some(mem3) =>
            match RestoreFields(b, info, mem3, msg, d.fields)
            case None => None
            case Some(mem4) => Some(Delivery(msg, mem4))
  }

  /** Two tables one after the other are their join. */
  lemma {:induction false} RestoreJoined(b: State, info: seq<Item>, mem: Mem, msg: nat, t1: seq<Field>, t2: seq<Field>)
    ensures RestoreFields(b, info, mem, msg, t1 + t2)
         == (match RestoreFields(b, info, mem, msg, t1)
             case None => None
             case Some(mem') => RestoreFields(b, info, mem', msg, t2))
    decreases |t1|
  {
    hide RestoreField;
    if t1 == [] {
      assert t1 + t2 == t2;
    } else {
      assert (t1 + t2)[0] == t1[0] && (t1 + t2)[1..] == t1[1..] + t2;
      var r := RestoreField(b, info, mem, msg, t1[0]);
      if r.Some? { RestoreJoined(b, info, r.value, msg, t1[1..], t2); }
    }
  }

  /** `_CloneMessage` likewise: the request table and the tag's own table are one pass over their join. */
  lemma {:induction false} CloneJoined(
      w: World, msg: nat, t1: seq<Field>, v1: seq<Value>, a1: seq<nat>, t2: seq<Field>, v2: seq<Value>, a2: seq<nat>)
    requires |t1| == |v1| == |a1| && |t2| == |v2| == |a2|
    ensures CloneFields(w, msg, t1 + t2, v1 + v2, a1 + a2)
         == (match CloneFields(w, msg, t1, v1, a1)
             case None => None
             case Some(w') => CloneFields(w', msg, t2, v2, a2))
    decreases |t1|
  {
    hide CloneField;
    if t1 == [] {
      assert t1 + t2 == t2 && v1 + v2 == v2 && a1 + a2 == a2;
    } else {
      assert (t1 + t2)[1..] == t1[1..] + t2 && (v1 + v2)[1..] == v1[1..] + v2 && (a1 + a2)[1..] == a1[1..] + a2;
      var r := CloneField(w, msg, t1[0], v1[0], a1[0]);
      if r.Some? { CloneJoined(r.value, msg, t1[1..], v1[1..], a1[1..], t2, v2, a2); }
    }
  }

  const OWN: seq<Slot> := [Slot(BATCH_AT, 8), Slot(REFS_AT, 8)]

  lemma {:induction false} AdoptKept(mem: Mem, msg: nat, batch: nat)
    requires batch < WORD
    ensures MemKept(mem, Adopt(mem, msg, batch), msg, OWN)
    ensures Load(Adopt(mem, msg, batch), msg + BATCH_AT, 8) == batch
    ensures Load(Adopt(mem, msg, batch), msg + REFS_AT, 8) == 1
  {
    hide MemKept, Encode, Decode, Read;
    var m1 := Write(mem, msg + BATCH_AT, Encode(batch, 8));
    assert OWN[0] in OWN && OWN[1] in OWN;
    WriteMemKept(mem, msg, BATCH_AT, Encode(batch, 8));
    WriteLoads(mem, msg + BATCH_AT, batch);
    WriteMemKept(m1, msg, REFS_AT, Encode(1, 8));
    WriteLoads(m1, msg + REFS_AT, 1);
    MemKeptSlot(m1, Adopt(mem, msg, batch), msg, [OWN[1]], OWN[0]);
    MemKeptTrans(mem, m1, Adopt(mem, msg, batch), msg, [OWN[0]], [OWN[1]], OWN);
  }

  /** The base table clears its four pointers and nothing else. */
  lemma {:induction false} BaseRestored(b: State, info: seq<Item>, mem: Mem, msg: nat, size: nat)
    requires MESSAGE <= size
    ensures var r := RestoreFields(b, info, mem, msg, BaseFields());
            && r.Some? && MemKept(mem, r.value, msg, AllSlots(BaseFields()))
            && AllArrived(r.value, msg, size, BaseFields(), [None, None, None, None])
  {
    hide MemKept, FieldOk, FieldsApart, RestoreFields, FieldArrived;
    BaseFits(size);
    PairwiseIsOk(size, BaseFields());
    RestoreAll(b, info, mem, msg, size, BaseFields(), [None, None, None, None]);
  }

  lemma {:induction false} FieldMissesOwn(size: nat, f: Field)
    requires FieldOk(size, f)
    ensures forall s <- SlotsOf(f), t <- OWN :: SlotsApart(t, s)
  {
  }

  lemma {:induction false} RowsCarried(l: Link, mb: Block, rows: seq<Field>, values: seq<Value>)
    requires |rows| == |values| && l.Valid() && mb in l.w.blocks && TableOk(mb.size, rows)
    requires AllHeld(l.w, mb, rows, values) && AllValuesOk(rows, values)
    ensures AllCarried(l.r.b, l.info, l.r.mem, Image(l, mb), mb.size, rows, values)
  {
    hide FieldOk, FieldHeld, FieldCarried, Image, ValueOk, FieldsApart;
    TableFieldsOk(mb.size, rows);
    forall i | 0 <= i < |rows|
      ensures FieldCarried(l.r.b, l.info, l.r.mem, Image(l, mb), mb.size, rows[i], values[i])
    {
      assert rows[i] in rows;
      FieldIsCarried(l, mb, rows[i], values[i]);
    }
  }

  /** Fields survive the adoption of the message and the clearing of its base pointers. */
  lemma {:induction false} RowsSurvive(
      b: State, info: seq<Item>, mem: Mem, mem': Mem, msg: nat, size: nat, slots: seq<Slot>, rows: seq<Field>,
          values: seq<Value>)
    requires |rows| == |values| && MemKept(mem, mem', msg, slots) && (forall t <- slots :: t.at + t.len <= size)
    requires forall f <- rows, s <- SlotsOf(f), t <- slots :: SlotsApart(t, s)
    requires AllCarried(b, info, mem, msg, size, rows, values)
    ensures AllCarried(b, info, mem', msg, size, rows, values)
  {
    hide MemKept, FieldCarried;
    forall i | 0 <= i < |rows| ensures FieldCarried(b, info, mem', msg, size, rows[i], values[i]) {
      assert rows[i] in rows;
      FieldUnmoved(b, info, mem, mem', msg, size, slots, rows[i], values[i]);
    }
  }

  lemma {:induction false} RowsMissOwn(size: nat, rows: seq<Field>)
    requires TableOk(size, rows)
    ensures forall f <- rows, s <- SlotsOf(f), t <- OWN :: SlotsApart(t, s)
  {
    TableFieldsOk(size, rows);
    forall f <- rows ensures forall s <- SlotsOf(f), t <- OWN :: SlotsApart(t, s) {
      FieldMissesOwn(size, f);
    }
  }

  lemma {:induction false} BaseSlots()
    ensures AllSlots(BaseFields()) == [Slot(0, 8), Slot(8, 8), Slot(72, 8), Slot(80, 8)]
  {
    var t := BaseFields();
    assert t[1..] == [N(8), N(72), N(80)] && t[1..][1..] == [N(72), N(80)] && t[1..][1..][1..] == [N(80)];
    assert AllSlots([N(80)]) == [Slot(80, 8)];
    assert AllSlots([N(72), N(80)]) == [Slot(72, 8), Slot(80, 8)];
    assert AllSlots([N(8), N(72), N(80)]) == [Slot(8, 8), Slot(72, 8), Slot(80, 8)];
  }

  /** Everything `__MessageFromBatch` may write in the message. */
  function Rewritten(rows: seq<Field>): seq<Slot> {
    OWN + AllSlots(BaseFields()) + AllSlots(rows)
  }

  /** Bytes that are not rewritten arrive as they were sent. */
  lemma {:induction false} ByteCarried(l: Link, mb: Block, mem: Mem, slots: seq<Slot>, o: nat)
    requires l.Valid() && mb in l.w.blocks && MemKept(l.r.mem, mem, Image(l, mb), slots)
    requires o < mb.size && !InSlots(slots, o)
    ensures mem(Image(l, mb) + o) == ByteAt(l.w.mem, mb, o)
  {
    hide Image, Inv, IsReceiver, PageInfo, Addressable;
    var a := Image(l, mb) + o;
    assert !InSlots(slots, a - Image(l, mb));
    SlotCarried(l, mb, Slot(o, 1));
    assert Read(l.r.mem, Image(l, mb) + o, 1)[0] == Read(l.w.mem, mb.ptr + o, 1)[0];
  }

  lemma {:induction false} BaseUnmoved(b: State, info: seq<Item>, mem: Mem, mem': Mem, msg: nat, size: nat,
      slots: seq<Slot>)
    requires MemKept(mem, mem', msg, slots) && forall t <- slots :: MESSAGE <= t.at && t.at + t.len <= size
    requires AllArrived(mem, msg, size, BaseFields(), [None, None, None, None])
    ensures AllArrived(mem', msg, size, BaseFields(), [None, None, None, None])
  {
    hide MemKept, FieldArrived;
    forall i | 0 <= i < 4 ensures FieldArrived(mem', msg, size, BaseFields()[i], None) {
      assert FieldArrived(mem, msg, size, BaseFields()[i], [None, None, None, None][i]);
      FieldUnmoved(b, info, mem, mem', msg, size, slots, BaseFields()[i], None);
    }
  }

  lemma {:induction false} RowsMissBase(lo: nat, size: nat, rows: seq<Field>)
    requires MESSAGE <= lo && Within(lo, size, rows)
    ensures forall f <- rows, s <- SlotsOf(f), t <- AllSlots(BaseFields()) :: SlotsApart(t, s)
  {
    BaseSlots();
    forall f <- rows ensures forall s <- SlotsOf(f) :: MESSAGE <= s.at {
      assert FieldWithin(lo, size, f);
    }
  }

  /** Adoption and the base table, then the rest of the tables as one. */
  lemma {:induction false} FromBatchUnfolds(b: State, info: seq<Item>, mem: Mem, orig: nat, batch: nat, msg: nat,
      mem2: Mem, tag: nat)
    requires FixPointer(b, info, orig) == Some(msg)
    requires RestoreFields(b, info, Adopt(mem, msg, batch), msg, BaseFields()) == Some(mem2)
    requires Load(mem2, msg + TAG_AT, 4) == tag && Known(tag)
    ensures FromBatch(b, info, mem, orig, batch)
         == (match RestoreFields(b, info, mem2, msg, RowsOf(tag))
             case None => None
             case Some(mem4) => Some(Delivery(msg, mem4)))
  {
    hide RestoreFields, Load, FixPointer, Adopt, DeclarationOf, BaseFields, RequestFields;
    var own := DeclarationOf(IndexOfTag(tag)).fields;
    RestoreJoined(b, info, mem2, msg, RequestFields(), own);
    assert [] + own == own;
  }

  /** Adoption and the base table leave the tag alone. */
  lemma {:induction false} TagStays(m0: Mem, m1: Mem, m2: Mem, msg: nat)
    requires MemKept(m0, m1, msg, OWN) && MemKept(m1, m2, msg, AllSlots(BaseFields()))
    ensures Load(m2, msg + TAG_AT, 4) == Load(m0, msg + TAG_AT, 4)
  {
    hide MemKept, Read, Decode;
    BaseSlots();
    MemKeptSlot(m0, m1, msg, OWN, Slot(TAG_AT, 4));
    MemKeptSlot(m1, m2, msg, AllSlots(BaseFields()), Slot(TAG_AT, 4));
  }

  lemma {:induction false} OwnUnmoved(m1: Mem, m2: Mem, m4: Mem, msg: nat, slots: seq<Slot>, batch: nat)
    requires MemKept(m1, m2, msg, AllSlots(BaseFields())) && MemKept(m2, m4, msg, slots)
    requires forall t <- slots :: MESSAGE <= t.at
    requires Load(m1, msg + BATCH_AT, 8) == batch && Load(m1, msg + REFS_AT, 8) == 1
    ensures Load(m4, msg + BATCH_AT, 8) == batch && Load(m4, msg + REFS_AT, 8) == 1
  {
    hide MemKept, Read, Decode;
    BaseSlots();
    MemKeptSlot(m1, m2, msg, AllSlots(BaseFields()), OWN[0]);
    MemKeptSlot(m1, m2, msg, AllSlots(BaseFields()), OWN[1]);
    MemKeptSlot(m2, m4, msg, slots, OWN[0]);
    MemKeptSlot(m2, m4, msg, slots, OWN[1]);
  }

  lemma {:induction false} AllKept(m0: Mem, m1: Mem, m2: Mem, m4: Mem, msg: nat, rows: seq<Field>)
    requires MemKept(m0, m1, msg, OWN) && MemKept(m1, m2, msg, AllSlots(BaseFields()))
    requires MemKept(m2, m4, msg, AllSlots(rows))
    ensures MemKept(m0, m4, msg, Rewritten(rows))
  {
    hide MemKept, BaseFields, AllSlots;
    MemKeptTrans(m0, m1, m2, msg, OWN, AllSlots(BaseFields()), Rewritten(rows));
    MemKeptTrans(m0, m2, m4, msg, Rewritten(rows), AllSlots(rows), Rewritten(rows));
  }

  /** The rows are still as carried once the message has been adopted and its base pointers cleared. */
  lemma {:induction false} RowsReachTables(l: Link, mb: Block, rows: seq<Field>, values: seq<Value>, m1: Mem, m2: Mem)
    requires |rows| == |values| && l.Valid() && mb in l.w.blocks && TableOk(mb.size, rows) && MESSAGE <= mb.size
    requires Within(MESSAGE, mb.size, rows) && AllHeld(l.w, mb, rows, values) && AllValuesOk(rows, values)
    requires MemKept(l.r.mem, m1, Image(l, mb), OWN) && MemKept(m1, m2, Image(l, mb), AllSlots(BaseFields()))
    ensures AllCarried(l.r.b, l.info, m2, Image(l, mb), mb.size, rows, values)
  {
    hide MemKept, Image, AllCarried, AllHeld, TableOk, FieldWithin, Inv, IsReceiver, PageInfo;
    RowsCarried(l, mb, rows, values);
    RowsMissOwn(mb.size, rows);
    RowsSurvive(l.r.b, l.info, l.r.mem, m1, Image(l, mb), mb.size, OWN, rows, values);
    BaseSlots();
    RowsMissBase(MESSAGE, mb.size, rows);
    RowsSurvive(l.r.b, l.info, m1, m2, Image(l, mb), mb.size, AllSlots(BaseFields()), rows, values);
  }

  /**
    The message of block `mb` in the receiver: rows lead to their values, the base pointers are
    null, batch and count are its own, and every other byte is the sender's.
   */
  ghost predicate Delivered(l: Link, mb: Block, d: Delivery, rows: seq<Field>, values: seq<Value>, batch: nat)
    requires |rows| == |values|
  {
    && d.msg == Image(l, mb)
    && AllArrived(d.mem, d.msg, mb.size, rows, values)
    && AllArrived(d.mem, d.msg, mb.size, BaseFields(), [None, None, None, None])
    && Load(d.mem, d.msg + BATCH_AT, 8) == batch && Load(d.mem, d.msg + REFS_AT, 8) == 1
    && forall o | 0 <= o < mb.size && !InSlots(Rewritten(rows), o) :: d.mem(d.msg + o) == ByteAt(l.w.mem, mb, o)
  }

  /** The message of block `mb`, of any tag with a table that ends, and the values of its rows. */
  ghost predicate Carries(l: Link, mb: Block, tag: nat, values: seq<Value>) {
    && l.Valid() && mb in l.w.blocks && Known(tag) && Consistent(tag) && SizeOf(tag) <= mb.size
    && Load(l.w.mem, mb.ptr + TAG_AT, 4) == tag
    && |values| == |RowsOf(tag)| && AllHeld(l.w, mb, RowsOf(tag), values) && AllValuesOk(RowsOf(tag), values)
  }

  lemma {:induction false} WiderIsOk(size: nat, wide: nat, table: seq<Field>)
    requires TableOk(size, table) && size <= wide
    ensures TableOk(wide, table)
  {
    hide FieldsApart;
    if table != [] { WiderIsOk(size, wide, table[1..]); }
  }

  lemma {:induction false} RowsFit(tag: nat, size: nat)
    requires Known(tag) && Consistent(tag) && SizeOf(tag) <= size && IndexOfTag(tag) != 0
    ensures MESSAGE <= size && TableOk(size, RowsOf(tag)) && Within(MESSAGE, size, RowsOf(tag))
  {
    hide DeclarationOf, RequestFields, RowsOf, TableOk, Consistent, IsRequest;
    TablesAreOk(tag);
    TailIsOk(SizeOf(tag), BaseFields(), RowsOf(tag));
    WiderIsOk(SizeOf(tag), size, RowsOf(tag));
    forall f <- RowsOf(tag) ensures FieldWithin(MESSAGE, size, f) { assert FieldWithin(MESSAGE, SizeOf(tag), f); }
  }

  /** A message with a table of its own. */
  lemma {:induction false} TabledArrives(l: Link, mb: Block, tag: nat, values: seq<Value>, batch: nat)
    requires Carries(l, mb, tag, values) && IndexOfTag(tag) != 0 && batch < WORD
    ensures var r := FromBatch(l.r.b, l.info, l.r.mem, mb.ptr, batch);
            && (r.Some? <==> RequiredPresent(RowsOf(tag), values))
            && (r.Some? ==> Delivered(l, mb, r.value, RowsOf(tag), values, batch))
  {
    hide MemKept, Image, FixPointer, AllHeld, AllCarried, AllArrived, TableOk, Within, RestoreFields, FromBatch,
      DeclarationOf, RowsOf, BaseFields, Adopt, Load, InSlots, AllSlots, Inv, IsReceiver, PageInfo, Consistent;
    var rows, msg, m0 := RowsOf(tag), Image(l, mb), l.r.mem;
    RowsFit(tag, mb.size);
    BlockCarried(l, mb);
    var m1 := Adopt(m0, msg, batch);
    AdoptKept(m0, msg, batch);
    BaseRestored(l.r.b, l.info, m1, msg, mb.size);
    var m2 := RestoreFields(l.r.b, l.info, m1, msg, BaseFields()).value;
    TagStays(m0, m1, m2, msg);
    TagCarried(l, mb);
    RowsReachTables(l, mb, rows, values, m1, m2);
    RestoreAll(l.r.b, l.info, m2, msg, mb.size, rows, values);
    FromBatchUnfolds(l.r.b, l.info, m0, mb.ptr, batch, msg, m2, tag);
    var r := RestoreFields(l.r.b, l.info, m2, msg, rows);
    if r.Some? {
      SlotsWithin(MESSAGE, mb.size, rows);
      AllKept(m0, m1, m2, r.value, msg, rows);
      OwnUnmoved(m1, m2, r.value, msg, AllSlots(rows), batch);
      BaseUnmoved(l.r.b, l.info, m2, r.value, msg, mb.size, AllSlots(rows));
      forall o | 0 <= o < mb.size && !InSlots(Rewritten(rows), o) ensures r.value(msg + o) == ByteAt(l.w.mem, mb, o) {
        ByteCarried(l, mb, r.value, Rewritten(rows), o);
      }
    }
  }

  lemma {:induction false} TagCarried(l: Link, mb: Block)
    requires l.Valid() && mb in l.w.blocks && MESSAGE <= mb.size
    ensures Load(l.r.mem, Image(l, mb) + TAG_AT, 4) == Load(l.w.mem, mb.ptr + TAG_AT, 4)
  {
    hide Image, Read, Decode, Inv, IsReceiver, PageInfo;
    SlotCarried(l, mb, Slot(TAG_AT, 4));
  }

  /** A bare message: the base table is its own as well, and is walked twice. */
  lemma {:induction false} BareArrives(l: Link, mb: Block, tag: nat, values: seq<Value>, batch: nat)
    requires Carries(l, mb, tag, values) && IndexOfTag(tag) == 0 && batch < WORD
    ensures var r := FromBatch(l.r.b, l.info, l.r.mem, mb.ptr, batch);
            && (r.Some? <==> RequiredPresent(RowsOf(tag), values))
            && (r.Some? ==> Delivered(l, mb, r.value, RowsOf(tag), values, batch))
  {
    hide MemKept, Image, FixPointer, AllHeld, AllCarried, AllArrived, RestoreFields, FromBatch, RowsOf, DeclarationOf,
      BaseFields, Adopt, Load, InSlots, AllSlots, Inv, IsReceiver, PageInfo, Consistent;
    BareRows(tag);
    var msg, m0 := Image(l, mb), l.r.mem;
    BlockCarried(l, mb);
    var m1 := Adopt(m0, msg, batch);
    AdoptKept(m0, msg, batch);
    BaseRestored(l.r.b, l.info, m1, msg, mb.size);
    var m2 := RestoreFields(l.r.b, l.info, m1, msg, BaseFields()).value;
    TagStays(m0, m1, m2, msg);
    TagCarried(l, mb);
    BaseRestored(l.r.b, l.info, m2, msg, mb.size);
    var m4 := RestoreFields(l.r.b, l.info, m2, msg, BaseFields()).value;
    FromBatchUnfolds(l.r.b, l.info, m0, mb.ptr, batch, msg, m2, tag);
    AllKept(m0, m1, m2, m4, msg, BaseFields());
    BareOwn(m1, m2, m4, msg, batch);
    BareAnyValues(m4, msg, mb.size, values);
    BareRequired(values);
    forall o | 0 <= o < mb.size && !InSlots(Rewritten(BaseFields()), o) ensures m4(msg + o) == ByteAt(l.w.mem, mb, o) {
      ByteCarried(l, mb, m4, Rewritten(BaseFields()), o);
    }
  }

  lemma {:induction false} BareRows(tag: nat)
    requires IndexOfTag(tag) == 0 && Consistent(tag)
    ensures Known(tag) && RowsOf(tag) == BaseFields() && |BaseFields()| == 4 && SizeOf(tag) == MESSAGE
  {
    assert [] + BaseFields() == BaseFields();
  }

  lemma {:induction false} BareRequired(values: seq<Value>)
    requires |values| == 4
    ensures RequiredPresent(BaseFields(), values)
  {
  }

  lemma {:induction false} BareAnyValues(mem: Mem, msg: nat, size: nat, values: seq<Value>)
    requires |values| == 4 && AllArrived(mem, msg, size, BaseFields(), [None, None, None, None])
    ensures AllArrived(mem, msg, size, BaseFields(), values)
  {
    hide Load;
    forall i | 0 <= i < 4 ensures FieldArrived(mem, msg, size, BaseFields()[i], values[i]) {
      assert FieldArrived(mem, msg, size, BaseFields()[i], [None, None, None, None][i]);
    }
  }

  lemma {:induction false} BareOwn(m1: Mem, m2: Mem, m4: Mem, msg: nat, batch: nat)
    requires MemKept(m1, m2, msg, AllSlots(BaseFields())) && MemKept(m2, m4, msg, AllSlots(BaseFields()))
    requires Load(m1, msg + BATCH_AT, 8) == batch && Load(m1, msg + REFS_AT, 8) == 1
    ensures Load(m4, msg + BATCH_AT, 8) == batch && Load(m4, msg + REFS_AT, 8) == 1
  {
    hide MemKept, Read, Decode;
    BaseSlots();
    MemKeptSlot(m1, m2, msg, AllSlots(BaseFields()), OWN[0]);
    MemKeptSlot(m1, m2, msg, AllSlots(BaseFields()), OWN[1]);
    MemKeptSlot(m2, m4, msg, AllSlots(BaseFields()), OWN[0]);
    MemKeptSlot(m2, m4, msg, AllSlots(BaseFields()), OWN[1]);
  }

  /**
    A message of any tag arrives, whether it was cloned for sending or sent as it is, and whatever
    the receiver has done with the batch in the meantime: `__MessageFromBatch` fails exactly when
    a required row has no value, and otherwise yields a message that denotes the same.
   */
  lemma {:induction false} AnyMessageArrives(l: Link, mb: Block, tag: nat, values: seq<Value>, batch: nat)
    requires Carries(l, mb, tag, values) && batch < WORD
    ensures var r := FromBatch(l.r.b, l.info, l.r.mem, mb.ptr, batch);
            && (r.Some? <==> RequiredPresent(RowsOf(tag), values))
            && (r.Some? ==> Delivered(l, mb, r.value, RowsOf(tag), values, batch))
  {
    hide Carries, FromBatch, RowsOf, Delivered, RequiredPresent;
    if IndexOfTag(tag) == 0 {
      BareArrives(l, mb, tag, values, batch);
    } else {
      TabledArrives(l, mb, tag, values, batch);
    }
  }

  /**
    The message in the receiver: rows lead to their values, the base pointers are null, the count
    is one, and header and body are the source's.
   */
  ghost predicate Arrived(d: Delivery, size: nat, c: Source, values: seq<Value>, batch: nat)
    requires c.IsCloned() && |c.Rows()| == |values|
  {
    && AllArrived(d.mem, d.msg, size, c.Rows(), values)
    && AllArrived(d.mem, d.msg, size, BaseFields(), [None, None, None, None])
    && Load(d.mem, d.msg + BATCH_AT, 8) == batch && Load(d.mem, d.msg + REFS_AT, 8) == 1
    && HeaderIs(d.mem, d.msg, c.Tag(), c.Operation(), c.Flags())
    && forall o | MESSAGE <= o < size && !InSlots(AllSlots(c.Rows()), o) :: d.mem(d.msg + o) == c.mem(c.at + o)
  }

  lemma {:induction false} SlotDelivered(l: Link, mb: Block, mem: Mem, slots: seq<Slot>, t: Slot)
    requires l.Valid() && mb in l.w.blocks && t.at + t.len <= mb.size && (forall x <- slots :: SlotsApart(x, t))
    requires forall o | 0 <= o < mb.size && !InSlots(slots, o) :: mem(Image(l, mb) + o) == ByteAt(l.w.mem, mb, o)
    ensures Load(mem, Image(l, mb) + t.at, t.len) == Load(l.w.mem, mb.ptr + t.at, t.len)
  {
    hide Image, Inv, IsReceiver, PageInfo, Decode;
    var got, sent := Read(mem, Image(l, mb) + t.at, t.len), Read(l.w.mem, mb.ptr + t.at, t.len);
    forall i | 0 <= i < t.len ensures got[i] == sent[i] {
      assert !InSlots(slots, t.at + i);
      assert mem(Image(l, mb) + (t.at + i)) == ByteAt(l.w.mem, mb, t.at + i);
    }
    assert got == sent;
  }

  lemma {:induction false} HeaderDelivered(l: Link, mb: Block, d: Delivery, c: Source, values: seq<Value>, batch: nat)
    requires c.IsCloned() && |c.Rows()| == |values| && l.Valid() && ReadyToSend(l.w, mb, c, values)
    requires MESSAGE <= mb.size && Delivered(l, mb, d, c.Rows(), values, batch)
    requires forall t <- AllSlots(c.Rows()) :: MESSAGE <= t.at
    ensures HeaderIs(d.mem, d.msg, c.Tag(), c.Operation(), c.Flags())
  {
    hide Image, DeclarationOf, RowsOf, Load, AllCloned, AllArrived, Inv, IsReceiver, PageInfo, InSlots, BaseFields;
    BaseSlots();
    var slots := Rewritten(c.Rows());
    assert forall t <- slots :: SlotsApart(t, Slot(TAG_AT, 8)) && SlotsApart(t, Slot(OPERATION_AT, 8));
    SlotDelivered(l, mb, d.mem, slots, Slot(TAG_AT, 4));
    SlotDelivered(l, mb, d.mem, slots, Slot(OPERATION_AT, 8));
    SlotDelivered(l, mb, d.mem, slots, Slot(FLAGS_AT, 4));
  }

  lemma {:induction false} BodyDelivered(l: Link, mb: Block, d: Delivery, c: Source, values: seq<Value>, batch: nat,
      o: nat)
    requires c.IsCloned() && |c.Rows()| == |values| && l.Valid() && ReadyToSend(l.w, mb, c, values)
    requires Delivered(l, mb, d, c.Rows(), values, batch) && MESSAGE <= o < mb.size && !InSlots(AllSlots(c.Rows()), o)
    ensures d.mem(d.msg + o) == c.mem(c.at + o)
  {
    hide Image, DeclarationOf, RowsOf, Load, AllCloned, AllArrived, Inv, IsReceiver, PageInfo, HeaderIs, BaseFields;
    BaseSlots();
    assert !InSlots(Rewritten(c.Rows()), o);
    assert ByteAt(l.w.mem, mb, o) == c.mem(c.at + o);
  }

  /** A message that was cloned for sending arrives, and denotes what the source of the clone denotes. */
  lemma {:induction false} MessageArrives(l: Link, mb: Block, c: Source, values: seq<Value>, batch: nat)
    requires c.IsCloned() && SourceHas(c.mem, c.at, c.Rows(), values) && RequiredPresent(c.Rows(), values)
    requires l.Valid() && ReadyToSend(l.w, mb, c, values) && batch < WORD
    ensures var r := FromBatch(l.r.b, l.info, l.r.mem, mb.ptr, batch);
            r.Some? && r.value.msg == Image(l, mb) && Arrived(r.value, mb.size, c, values, batch)
  {
    hide Image, HeaderIs, AllCloned, AllHeld, AllArrived, TableOk, FromBatch, DeclarationOf, RowsOf, BaseFields, Load,
      InSlots, AllSlots, Inv, IsReceiver, PageInfo, Denotes, Rewritten, IsRequest, RequestIndex;
    SourceFits(c);
    ClonedIsHeld(l.w, mb, c.Rows(), values);
    assert Load(l.w.mem, mb.ptr + TAG_AT, 4) == c.Tag() by { HeaderTag(l.w.mem, mb.ptr, c); }
    AnyMessageArrives(l, mb, c.Tag(), values, batch);
    var d := FromBatch(l.r.b, l.info, l.r.mem, mb.ptr, batch).value;
    SlotsWithin(MESSAGE, mb.size, c.Rows());
    HeaderDelivered(l, mb, d, c, values, batch);
    forall o | MESSAGE <= o < mb.size && !InSlots(AllSlots(c.Rows()), o) ensures d.mem(d.msg + o) == c.mem(c.at + o) {
      BodyDelivered(l, mb, d, c, values, batch, o);
    }
  }

  lemma {:induction false} HeaderTag(mem: Mem, msg: nat, c: Source)
    requires HeaderIs(mem, msg, c.Tag(), c.Operation(), c.Flags())
    ensures Load(mem, msg + TAG_AT, 4) == c.Tag()
  {
  }

  /** Row by row, a string is at the sender's pointer exactly when it is at the receiver's. */
  lemma {:induction false} StringsAgree(c: Source, d: Delivery, size: nat, values: seq<Value>, batch: nat, i: nat,
      s: seq<byte>)
    requires c.IsCloned() && SourceHas(c.mem, c.at, c.Rows(), values) && Arrived(d, size, c, values, batch)
    requires i < |c.Rows()| && (c.Rows()[i].kind.Pointer? || c.Rows()[i].kind.PointerOpt?)
    ensures CStringAt(c.mem, Load(c.mem, c.at + c.Rows()[i].off, 8), s)
       <==> CStringAt(d.mem, Load(d.mem, d.msg + c.Rows()[i].off, 8), s)
  {
    hide DeclarationOf, RowsOf, HeaderIs, Read, Load, InSlots;
    var f, v := c.Rows()[i], values[i];
    assert Denotes(c.mem, c.at, f, v) && FieldArrived(d.mem, d.msg, size, f, v);
    var p, q := Load(c.mem, c.at + f.off, 8), Load(d.mem, d.msg + f.off, 8);
    if v.Some? {
      if CStringAt(c.mem, p, s) { CStringUnique(c.mem, p, s, v.value); }
      if CStringAt(d.mem, q, s) { CStringUnique(d.mem, q, s, v.value); }
    }
  }

  // ---------------------------------------------------------------------------------------
  // Any bytes at all
  // ---------------------------------------------------------------------------------------

  /** The pointer of row `f`, if it is a row with one, is null and may be, or can be translated. */
  predicate RowResolves(b: State, info: seq<Item>, mem: Mem, msg: nat, f: Field) {
    if f.kind.SetNull? then true
    else
      var p := Load(mem, msg + (if f.kind.Packed() then f.ptrOff else f.off), 8);
      if p == 0 then !f.kind.Required() else FixPointer(b, info, p).Some?
  }

  lemma {:induction false} RowRestoredIff(b: State, info: seq<Item>, mem: Mem, msg: nat, size: nat, f: Field)
    requires FieldOk(size, f)
    ensures var r := RestoreField(b, info, mem, msg, f);
            && (r.Some? <==> RowResolves(b, info, mem, msg, f))
            && (r.Some? ==> MemKept(mem, r.value, msg, SlotsOf(f)))
  {
    hide MemKept, FixPointer, Read, Decode, Encode, Write;
    assert Slot(f.off, 8) in SlotsOf(f);
    MemKeptNothing(mem, msg, SlotsOf(f));
    var m0 := Write(mem, msg + f.off, Encode(0, 8));
    WriteMemKept(mem, msg, f.off, Encode(0, 8));
    if f.kind.Packed() {
      assert Slot(f.ptrOff, 8) in SlotsOf(f);
      MemKeptSlot(mem, m0, msg, [Slot(f.off, 8)], Slot(f.ptrOff, 8));
      MemKeptNothing(mem, msg, []);
      MemKeptTrans(mem, mem, m0, msg, [], [Slot(f.off, 8)], SlotsOf(f));
      var r := FixPointer(b, info, Load(m0, msg + f.ptrOff, 8));
      if r.Some? {
        var m1 := Write(m0, msg + f.ptrOff, Encode(r.value, 8));
        WriteMemKept(m0, msg, f.ptrOff, Encode(r.value, 8));
        MemKeptTrans(mem, m0, m1, msg, [Slot(f.off, 8)], [Slot(f.ptrOff, 8)], SlotsOf(f));
      }
    } else if f.kind.Pointer? || f.kind.PointerOpt? {
      var r := FixPointer(b, info, Load(mem, msg + f.off, 8));
      if r.Some? { WriteMemKept(mem, msg, f.off, Encode(r.value, 8)); }
    }
  }

  ghost predicate AllResolve(b: State, info: seq<Item>, mem: Mem, msg: nat, rows: seq<Field>) {
    forall f <- rows :: RowResolves(b, info, mem, msg, f)
  }

  lemma {:induction false} RowUnmoved(
      b: State, info: seq<Item>, mem: Mem, mem': Mem, msg: nat, slots: seq<Slot>, f: Field)
    requires MemKept(mem, mem', msg, slots) && forall s <- SlotsOf(f), t <- slots :: SlotsApart(t, s)
    ensures RowResolves(b, info, mem', msg, f) == RowResolves(b, info, mem, msg, f)
  {
    hide MemKept, FixPointer, Read, Decode;
    assert Slot(f.off, 8) in SlotsOf(f);
    MemKeptSlot(mem, mem', msg, slots, Slot(f.off, 8));
    if f.kind.Packed() {
      assert Slot(f.ptrOff, 8) in SlotsOf(f);
      MemKeptSlot(mem, mem', msg, slots, Slot(f.ptrOff, 8));
    }
  }

  /** `_RestoreMessage` over a well-formed table succeeds exactly when every row resolves. */
  lemma {:induction false} RestoredIff(b: State, info: seq<Item>, mem: Mem, msg: nat, size: nat, rows: seq<Field>)
    requires TableOk(size, rows)
    ensures RestoreFields(b, info, mem, msg, rows).Some? <==> AllResolve(b, info, mem, msg, rows)
    decreases |rows|
  {
    hide MemKept, RestoreField, RowResolves, FieldOk, FieldsApart;
    if rows != [] {
      var f, rest := rows[0], rows[1..];
      RowRestoredIff(b, info, mem, msg, size, f);
      assert AllResolve(b, info, mem, msg, rows)
        <==> RowResolves(b, info, mem, msg, f) && AllResolve(b, info, mem, msg, rest);
      var r := RestoreField(b, info, mem, msg, f);
      if r.Some? {
        RestoredIff(b, info, r.value, msg, size, rest);
        forall g <- rest ensures RowResolves(b, info, r.value, msg, g) == RowResolves(b, info, mem, msg, g) {
          ApartSlotwise(f, g);
          RowUnmoved(b, info, mem, r.value, msg, SlotsOf(f), g);
        }
      }
    }
  }

  lemma {:induction false} TableResolves(b: State, info: seq<Item>, m0: Mem, m1: Mem, m2: Mem, msg: nat, tag: nat)
    requires Known(tag) && Consistent(tag)
    requires MemKept(m0, m1, msg, OWN) && MemKept(m1, m2, msg, AllSlots(BaseFields()))
    ensures RestoreFields(b, info, m2, msg, RowsOf(tag)).Some? <==> AllResolve(b, info, m0, msg, RowsOf(tag))
  {
    hide MemKept, RestoreFields, RowResolves, RowsOf, DeclarationOf, TableOk, Within, BaseFields, Consistent;
    var rows := RowsOf(tag);
    if IndexOfTag(tag) == 0 {
      BareRows(tag);
      BaseRestored(b, info, m2, msg, MESSAGE);
      BareResolves(b, info, m0, msg);
    } else {
      RowsFit(tag, SizeOf(tag));
      RestoredIff(b, info, m2, msg, SizeOf(tag), rows);
      RowsMissOwn(SizeOf(tag), rows);
      RowsMissBase(MESSAGE, SizeOf(tag), rows);
      forall f <- rows ensures RowResolves(b, info, m2, msg, f) == RowResolves(b, info, m0, msg, f) {
        RowUnmoved(b, info, m0, m1, msg, OWN, f);
        RowUnmoved(b, info, m1, m2, msg, AllSlots(BaseFields()), f);
      }
    }
  }

  lemma {:induction false} BareResolves(b: State, info: seq<Item>, mem: Mem, msg: nat)
    ensures AllResolve(b, info, mem, msg, BaseFields())
  {
  }

  /**
    Whatever bytes were received: `__MessageFromBatch` succeeds exactly when the message pointer
    can be translated, the tag is one of the table, and the pointer of every row of the tables that
    concern it is null where it may be or can be translated.
   */
  lemma {:induction false} FromBatchIff(b: State, info: seq<Item>, mem: Mem, orig: nat, batch: nat)
    requires batch < WORD
    requires FixPointer(b, info, orig).Some? ==>
      var tag := Load(mem, FixPointer(b, info, orig).value + TAG_AT, 4);
      Consistent(tag) && !DeclarationOf(IndexOfTag(tag)).Unterminated?
    ensures FromBatch(b, info, mem, orig, batch).Some? <==>
      && FixPointer(b, info, orig).Some?
      && var msg := FixPointer(b, info, orig).value; var tag := Load(mem, msg + TAG_AT, 4);
      Known(tag) && AllResolve(b, info, mem, msg, RowsOf(tag))
  {
    hide MemKept, RestoreFields, AllResolve, RowsOf, DeclarationOf, BaseFields, Adopt, FixPointer, AllArrived,
      Consistent, Load, AllSlots;
    if FixPointer(b, info, orig).Some? {
      var msg := FixPointer(b, info, orig).value;
      var m1 := Adopt(mem, msg, batch);
      AdoptKept(mem, msg, batch);
      BaseRestored(b, info, m1, msg, MESSAGE);
      var m2 := RestoreFields(b, info, m1, msg, BaseFields()).value;
      TagStays(mem, m1, m2, msg);
      var tag := Load(mem, msg + TAG_AT, 4);
      if Known(tag) {
        TableResolves(b, info, mem, m1, m2, msg, tag);
        FromBatchUnfolds(b, info, mem, orig, batch, msg, m2, tag);
      }
    }
  }
}
