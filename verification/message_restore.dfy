/**
  The receiver's half of messages.c: `_RestoreMessage` walks the same tables over the received
  bytes, and what it leaves denotes what the sender's fields denoted.
 */
module MessageRestore {
  import opened Memory
  import opened BatchAllocator
  import opened BatchTransport
  import opened Messages

  /** Translate the pointer stored at `a`; a null one is an error only if it is required. */
  function FixSlot(b: State, info: seq<Item>, mem: Mem, a: nat, required: bool): Option<Mem> {
    var p := Load(mem, a, 8);
    if p == 0 then (if required then None else Some(mem))
    else match FixPointer(b, info, p)
      case None => None
      case Some(q) => Some(Write(mem, a, Encode(q, 8)))
  }

  /** One turn of `_RestoreMessage` with instance unpacking skipped. */
  function RestoreField(b: State, info: seq<Item>, mem: Mem, msg: nat, f: Field): Option<Mem> {
    match f.kind
    case SetNull => Some(Write(mem, msg + f.off, Encode(0, 8)))
    case Pointer | PointerOpt => FixSlot(b, info, mem, msg + f.off, f.kind.Required())
    case Instance | InstanceOpt =>
      FixSlot(b, info, Write(mem, msg + f.off, Encode(0, 8)), msg + f.ptrOff, f.kind.Required())
  }

  function RestoreFields(b: State, info: seq<Item>, mem: Mem, msg: nat, table: seq<Field>): Option<Mem>
    decreases |table|
  {
    if table == [] then Some(mem)
    else match RestoreField(b, info, mem, msg, table[0])
      case None => None
      case Some(mem') => RestoreFields(b, info, mem', msg, table[1..])
  }

  /** The pointer `p`, stored in a message of `size` bytes at `msg`, leads to `bytes` once translated. */
  ghost predicate LeadsTo(b: State, info: seq<Item>, mem: Mem, msg: nat, size: nat, p: nat, bytes: seq<byte>) {
    && p != 0 && FixPointer(b, info, p).Some?
    && var q := FixPointer(b, info, p).value;
       0 < q < WORD && Read(mem, q, |bytes|) == bytes && Apart(q, |bytes|, msg, size)
  }

  /** Field `f` as it arrived, before it is restored. */
  ghost predicate FieldCarried(b: State, info: seq<Item>, mem: Mem, msg: nat, size: nat, f: Field, v: Value) {
    match f.kind
    case SetNull => true
    case Pointer | PointerOpt =>
      (match v
       case Some(s) => LeadsTo(b, info, mem, msg, size, Load(mem, msg + f.off, 8), s + [0])
       case None => Load(mem, msg + f.off, 8) == 0)
    case Instance | InstanceOpt =>
      match v
      case Some(s) => && LeadsTo(b, info, mem, msg, size, Load(mem, msg + f.ptrOff, 8), s)
                      && Load(mem, msg + f.sizeOff, 4) == |s|
      case None => Load(mem, msg + f.ptrOff, 8) == 0
  }

  /** Field `f` restored: its pointer is valid in the receiver and leads to what `v` says. */
  ghost predicate FieldArrived(mem: Mem, msg: nat, size: nat, f: Field, v: Value) {
    match f.kind
    case SetNull => Load(mem, msg + f.off, 8) == 0
    case Pointer | PointerOpt =>
      (match v
       case Some(s) => PointsTo(mem, msg, size, Load(mem, msg + f.off, 8), s + [0])
       case None => Load(mem, msg + f.off, 8) == 0)
    case Instance | InstanceOpt =>
      && Load(mem, msg + f.off, 8) == 0
      && match v
         case Some(s) => && PointsTo(mem, msg, size, Load(mem, msg + f.ptrOff, 8), s)
                         && Load(mem, msg + f.sizeOff, 4) == |s|
         case None => Load(mem, msg + f.ptrOff, 8) == 0
  }

  /** `q` is the address of `bytes`, outside the message structure itself. */
  ghost predicate PointsTo(mem: Mem, msg: nat, size: nat, q: nat, bytes: seq<byte>) {
    q != 0 && Read(mem, q, |bytes|) == bytes && Apart(q, |bytes|, msg, size)
  }

  /** Only the named slots of the message at `msg` differ. */
  ghost predicate MemKept(mem: Mem, mem': Mem, msg: int, slots: seq<Slot>) {
    forall a {:trigger mem'(a)} :: !InSlots(slots, a - msg) ==> mem'(a) == mem(a)
  }

  lemma {:induction false} WriteMemKept(mem: Mem, msg: int, at: nat, bytes: seq<byte>)
    ensures MemKept(mem, Write(mem, msg + at, bytes), msg, [Slot(at, |bytes|)])
  {
    var mem' := Write(mem, msg + at, bytes);
    forall a | !InSlots([Slot(at, |bytes|)], a - msg) ensures mem'(a) == mem(a) {
      assert Slot(at, |bytes|) in [Slot(at, |bytes|)];
    }
  }

  lemma {:induction false} MemKeptTrans(m0: Mem, m1: Mem, m2: Mem, msg: int, s1: seq<Slot>, s2: seq<Slot>,
      all: seq<Slot>)
    requires MemKept(m0, m1, msg, s1) && MemKept(m1, m2, msg, s2)
    requires (forall s <- s1 :: s in all) && (forall s <- s2 :: s in all)
    ensures MemKept(m0, m2, msg, all)
  {
    forall a | !InSlots(all, a - msg) ensures m2(a) == m0(a) {
      assert !InSlots(s1, a - msg) && !InSlots(s2, a - msg);
    }
  }

  lemma {:induction false} MemKeptSlot(mem: Mem, mem': Mem, msg: int, slots: seq<Slot>, t: Slot)
    requires MemKept(mem, mem', msg, slots) && forall s <- slots :: SlotsApart(s, t)
    ensures Read(mem', msg + t.at, t.len) == Read(mem, msg + t.at, t.len)
  {
    var before, after := Read(mem, msg + t.at, t.len), Read(mem', msg + t.at, t.len);
    forall i | 0 <= i < t.len ensures after[i] == before[i] {
      assert !InSlots(slots, msg + t.at + i - msg);
    }
  }

  lemma {:induction false} MemKeptOutside(mem: Mem, mem': Mem, msg: int, size: nat, slots: seq<Slot>, q: int, n: nat)
    requires MemKept(mem, mem', msg, slots) && (forall s <- slots :: s.at + s.len <= size) && Apart(q, n, msg, size)
    ensures Read(mem', q, n) == Read(mem, q, n)
  {
    var before, after := Read(mem, q, n), Read(mem', q, n);
    forall i | 0 <= i < n ensures after[i] == before[i] {
      assert !InSlots(slots, q + i - msg);
    }
  }

  lemma {:induction false} WriteLoads(mem: Mem, a: int, n: nat)
    requires n < WORD
    ensures Load(Write(mem, a, Encode(n, 8)), a, 8) == n
  {
    ReadAfterWriteSame(mem, a, Encode(n, 8));
    LoadStored(n, 8);
  }

  lemma {:induction false} FixSlotWorks(
      b: State, info: seq<Item>, mem: Mem, msg: nat, size: nat, at: nat, bytes: seq<byte>, required: bool)
    requires at + 8 <= size && LeadsTo(b, info, mem, msg, size, Load(mem, msg + at, 8), bytes)
    ensures var r := FixSlot(b, info, mem, msg + at, required);
            && r.Some? && MemKept(mem, r.value, msg, [Slot(at, 8)])
            && PointsTo(r.value, msg, size, Load(r.value, msg + at, 8), bytes)
  {
    hide MemKept, FixPointer, Encode, Decode;
    var q := FixPointer(b, info, Load(mem, msg + at, 8)).value;
    WriteMemKept(mem, msg, at, Encode(q, 8));
    WriteLoads(mem, msg + at, q);
    MemKeptOutside(mem, Write(mem, msg + at, Encode(q, 8)), msg, size, [Slot(at, 8)], q, |bytes|);
  }

  lemma {:induction false} MemKeptNothing(mem: Mem, msg: int, slots: seq<Slot>)
    ensures MemKept(mem, mem, msg, slots)
  {
  }

  lemma {:induction false} LeadsToStays(
      b: State, info: seq<Item>, mem: Mem, mem': Mem, msg: nat, size: nat, slots: seq<Slot>, p: nat, bytes: seq<byte>)
    requires MemKept(mem, mem', msg, slots) && (forall s <- slots :: s.at + s.len <= size)
    ensures LeadsTo(b, info, mem, msg, size, p, bytes) ==> LeadsTo(b, info, mem', msg, size, p, bytes)
    ensures PointsTo(mem, msg, size, p, bytes) ==> PointsTo(mem', msg, size, p, bytes)
  {
    hide MemKept, FixPointer;
    if LeadsTo(b, info, mem, msg, size, p, bytes) {
      MemKeptOutside(mem, mem', msg, size, slots, FixPointer(b, info, p).value, |bytes|);
    }
    if PointsTo(mem, msg, size, p, bytes) {
      MemKeptOutside(mem, mem', msg, size, slots, p, |bytes|);
    }
  }

  lemma {:induction false} RestorePointer(b: State, info: seq<Item>, mem: Mem, msg: nat, size: nat, f: Field, v: Value)
    requires FieldOk(size, f) && FieldCarried(b, info, mem, msg, size, f, v) && (f.kind.Pointer? || f.kind.PointerOpt?)
    ensures var r := RestoreField(b, info, mem, msg, f);
            && (r.Some? <==> (f.kind.Required() ==> v.Some?))
            && (r.Some? ==> MemKept(mem, r.value, msg, SlotsOf(f)) && FieldArrived(r.value, msg, size, f, v))
  {
    hide MemKept, PointsTo, Read, Decode, Encode, Write, FixPointer;
    assert Slot(f.off, 8) in SlotsOf(f);
    if v.Some? {
      FixSlotWorks(b, info, mem, msg, size, f.off, v.value + [0], f.kind.Required());
    } else {
      MemKeptNothing(mem, msg, SlotsOf(f));
    }
  }

  lemma {:induction false} RestoreInstance(b: State, info: seq<Item>, mem: Mem, msg: nat, size: nat, f: Field, v: Value)
    requires FieldOk(size, f) && FieldCarried(b, info, mem, msg, size, f, v) && f.kind.Packed()
    ensures var r := RestoreField(b, info, mem, msg, f);
            && (r.Some? <==> (f.kind.Required() ==> v.Some?))
            && (r.Some? ==> MemKept(mem, r.value, msg, SlotsOf(f)) && FieldArrived(r.value, msg, size, f, v))
  {
    hide MemKept, LeadsTo, PointsTo, Encode, Decode, Read;
    var objAt, ptrAt, sizeAt := Slot(f.off, 8), Slot(f.ptrOff, 8), Slot(f.sizeOff, 4);
    assert SlotsOf(f) == [objAt, ptrAt, sizeAt];
    assert objAt in SlotsOf(f) && ptrAt in SlotsOf(f) && sizeAt in SlotsOf(f);
    var m0 := Write(mem, msg + f.off, Encode(0, 8));
    WriteMemKept(mem, msg, f.off, Encode(0, 8));
    WriteLoads(mem, msg + f.off, 0);
    MemKeptSlot(mem, m0, msg, [objAt], ptrAt);
    MemKeptSlot(mem, m0, msg, [objAt], sizeAt);
    if v.Some? {
      LeadsToStays(b, info, mem, m0, msg, size, [objAt], Load(mem, msg + f.ptrOff, 8), v.value);
      FixSlotWorks(b, info, m0, msg, size, f.ptrOff, v.value, f.kind.Required());
      var m1 := RestoreField(b, info, mem, msg, f).value;
      MemKeptTrans(mem, m0, m1, msg, [objAt], [ptrAt], SlotsOf(f));
      MemKeptSlot(m0, m1, msg, [ptrAt], objAt);
      MemKeptSlot(m0, m1, msg, [ptrAt], sizeAt);
    } else {
      MemKeptNothing(mem, msg, []);
      MemKeptTrans(mem, mem, m0, msg, [], [objAt], SlotsOf(f));
    }
  }

  lemma {:induction false} RestoreOne(b: State, info: seq<Item>, mem: Mem, msg: nat, size: nat, f: Field, v: Value)
    requires FieldOk(size, f) && FieldCarried(b, info, mem, msg, size, f, v)
    ensures var r := RestoreField(b, info, mem, msg, f);
            && (r.Some? <==> (f.kind.Required() ==> v.Some?))
            && (r.Some? ==> MemKept(mem, r.value, msg, SlotsOf(f)) && FieldArrived(r.value, msg, size, f, v))
  {
    hide MemKept, LeadsTo, PointsTo, FieldOk, FixSlot;
    match f.kind
    case SetNull =>
      WriteMemKept(mem, msg, f.off, Encode(0, 8));
      WriteLoads(mem, msg + f.off, 0);
    case Pointer | PointerOpt => RestorePointer(b, info, mem, msg, size, f, v);
    case Instance | InstanceOpt => RestoreInstance(b, info, mem, msg, size, f, v);
  }

  /** Overwriting other slots leaves a field as it is, before and after its own restoration. */
  lemma {:induction false} FieldUnmoved(
      b: State, info: seq<Item>, mem: Mem, mem': Mem, msg: nat, size: nat, slots: seq<Slot>, f: Field, v: Value)
    requires MemKept(mem, mem', msg, slots) && (forall s <- slots :: s.at + s.len <= size)
    requires forall s <- SlotsOf(f), t <- slots :: SlotsApart(t, s)
    ensures FieldCarried(b, info, mem, msg, size, f, v) ==> FieldCarried(b, info, mem', msg, size, f, v)
    ensures FieldArrived(mem, msg, size, f, v) ==> FieldArrived(mem', msg, size, f, v)
  {
    hide MemKept, LeadsTo, PointsTo, Read, Decode;
    assert Slot(f.off, 8) in SlotsOf(f);
    MemKeptSlot(mem, mem', msg, slots, Slot(f.off, 8));
    if f.kind.Packed() {
      assert Slot(f.ptrOff, 8) in SlotsOf(f) && Slot(f.sizeOff, 4) in SlotsOf(f);
      MemKeptSlot(mem, mem', msg, slots, Slot(f.ptrOff, 8));
      MemKeptSlot(mem, mem', msg, slots, Slot(f.sizeOff, 4));
      if v.Some? { LeadsToStays(b, info, mem, mem', msg, size, slots, Load(mem, msg + f.ptrOff, 8), v.value); }
    } else if v.Some? {
      LeadsToStays(b, info, mem, mem', msg, size, slots, Load(mem, msg + f.off, 8), v.value + [0]);
    }
  }

  ghost predicate AllCarried(b: State, info: seq<Item>, mem: Mem, msg: nat, size: nat, table: seq<Field>,
      values: seq<Value>)
    requires |table| == |values|
  {
    forall i | 0 <= i < |table| :: FieldCarried(b, info, mem, msg, size, table[i], values[i])
  }

  ghost predicate AllArrived(mem: Mem, msg: nat, size: nat, table: seq<Field>, values: seq<Value>)
    requires |table| == |values|
  {
    forall i | 0 <= i < |table| :: FieldArrived(mem, msg, size, table[i], values[i])
  }

  lemma {:induction false} SlotsInside(size: nat, f: Field)
    requires FieldOk(size, f)
    ensures forall s <- SlotsOf(f) :: s.at + s.len <= size
  {
  }

  lemma {:induction false} AllSlotsInside(size: nat, table: seq<Field>)
    requires TableOk(size, table)
    ensures forall s <- AllSlots(table) :: s.at + s.len <= size
  {
    if table != [] {
      AllSlotsInside(size, table[1..]);
      SlotsInside(size, table[0]);
    }
  }

  lemma {:induction false} RestStaysCarried(
      b: State, info: seq<Item>, mem: Mem, mem': Mem, msg: nat, size: nat, f: Field, table: seq<Field>,
          values: seq<Value>)
    requires |table| == |values| && MemKept(mem, mem', msg, SlotsOf(f)) && ApartFromAll(f, table) && FieldOk(size, f)
    requires AllCarried(b, info, mem, msg, size, table, values)
    ensures AllCarried(b, info, mem', msg, size, table, values)
  {
    hide MemKept, FieldCarried, FieldOk;
    SlotsInside(size, f);
    forall i | 0 <= i < |table| ensures FieldCarried(b, info, mem', msg, size, table[i], values[i]) {
      ApartSlotwise(f, table[i]);
      FieldUnmoved(b, info, mem, mem', msg, size, SlotsOf(f), table[i], values[i]);
    }
  }

  /**
    `_RestoreMessage` over fields that were carried fails exactly when a required one is missing;
    otherwise every field leads to its value and nothing but the table's slots has changed.
   */
  lemma {:induction false} RestoreAll(
      b: State, info: seq<Item>, mem: Mem, msg: nat, size: nat, table: seq<Field>, values: seq<Value>)
    requires |table| == |values| && TableOk(size, table)
    requires AllCarried(b, info, mem, msg, size, table, values)
    ensures var r := RestoreFields(b, info, mem, msg, table);
            && (r.Some? <==> RequiredPresent(table, values))
            && (r.Some? ==>
              MemKept(mem, r.value, msg, AllSlots(table)) && AllArrived(r.value, msg, size, table, values))
    decreases |table|
  {
    hide MemKept, FieldCarried, FieldArrived, RestoreField, FieldOk, FieldsApart;
    if table == [] {
      MemKeptNothing(mem, msg, []);
    } else {
      var f, v, rest, vs := table[0], values[0], table[1..], values[1..];
      RestoreOne(b, info, mem, msg, size, f, v);
      RequiredSplits(table, values);
      var r := RestoreField(b, info, mem, msg, f);
      if r.Some? {
        RestStaysCarried(b, info, mem, r.value, msg, size, f, rest, vs);
        RestoreAll(b, info, r.value, msg, size, rest, vs);
        var r2 := RestoreFields(b, info, r.value, msg, rest);
        if r2.Some? {
          MemKeptTrans(mem, r.value, r2.value, msg, SlotsOf(f), AllSlots(rest), AllSlots(table));
          SlotsOfOthersApart(f, rest);
          AllSlotsInside(size, rest);
          FieldUnmoved(b, info, r.value, r2.value, msg, size, AllSlots(rest), f, v);
        }
      }
    }
  }
}
