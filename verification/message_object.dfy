/**
  The loops of messages.c as they run: tables walked row by row, slots of the message overwritten
  in place.
 */
module MessageLoops {
  import opened Memory
  import opened BatchAllocator
  import opened BatchTransport
  import opened Messages
  import opened MessageRestore

  /** `Tcslen`; `s` is the string the caller knows to be there. */
  method StringLength(mem: Mem, p: nat, ghost s: seq<byte>) returns (n: nat)
    requires CStringAt(mem, p, s)
    ensures n == |s|
  {
    n := 0;
    while mem(p + n) != 0
      invariant n <= |s|
      decreases |s| - n
    {
      assert Read(mem, p, |s| + 1)[n] == (s + [0])[n];
      n := n + 1;
    }
    assert Read(mem, p, |s| + 1)[n] == (s + [0])[n];
  }

  /** A process that is building a batch. */
  class Sender {
    var b: State
    var mem: Mem
    ghost var blocks: set<Block>

    ghost function Now(): World
      reads this
    {
      World(b, blocks, mem)
    }

    constructor (w: State, m: Mem, ghost held: set<Block>)
      ensures Now() == World(w, held, m)
    {
      b, mem, blocks := w, m, held;
    }

    method Store(a: nat, bytes: seq<byte>)
      modifies this
      ensures Now() == Poke(old(Now()), a, bytes)
    {
      mem := Write(mem, a, bytes);
    }

    /** `Batch_Get` followed by `memcpy`. */
    method Copy(bytes: seq<byte>, addr: nat) returns (p: nat)
      modifies this
      ensures (Now(), p) == Alloc(old(Now()), bytes, addr)
    {
      ghost var w := Now();
      blocks := Step(w, GetOp(|bytes|, addr)).blocks;
      var (b', ptr) := Get(b, |bytes|, addr);
      b, p := b', ptr;
      Store(p, bytes);
    }

    /**
      `_CloneMessageFields`: from the message at `from` of memory `source` into the one at `msg`.
      `packed[i]` is what packing the instance of row i would give, if the row needs it.
     */
    method CloneMessageFields(
        source: Mem, from: nat, msg: nat, table: seq<Field>, packed: seq<seq<byte>>, addrs: seq<nat>,
        ghost values: seq<Value>) returns (ok: bool)
      requires |table| == |packed| == |addrs| == |values|
      requires forall i | 0 <= i < |table| :: Denotes(source, from, table[i], values[i])
      requires forall i | 0 <= i < |table| && table[i].kind.Packed() && Load(source, from + table[i].ptrOff, 8) == 0 ::
                 values[i].Some? ==> values[i].value == packed[i]
      modifies this
      ensures ok <==> CloneFields(old(Now()), msg, table, values, addrs).Some?
      ensures ok ==> CloneFields(old(Now()), msg, table, values, addrs) == Some(Now())
    {
      hide CloneField, Denotes, Load;
      var i := 0;
      while i < |table|
        invariant 0 <= i <= |table|
        invariant CloneFields(Now(), msg, table[i..], values[i..], addrs[i..])
               == CloneFields(old(Now()), msg, table, values, addrs)
      {
        ghost var w := Now();
        assert Denotes(source, from, table[i], values[i]);
        ok := CloneMessageField(source, from, msg, table[i], packed[i], addrs[i], values[i]);
        if !ok { return; }
        assert table[i..][1..] == table[i + 1..] && values[i..][1..] == values[i + 1..];
        assert addrs[i..][1..] == addrs[i + 1..];
        i := i + 1;
      }
      ok := true;
    }

    method CloneMessageField(
        source: Mem, from: nat, msg: nat, f: Field, packed: seq<byte>, addr: nat, ghost v: Value) returns (ok: bool)
      requires Denotes(source, from, f, v)
      requires f.kind.Packed() && Load(source, from + f.ptrOff, 8) == 0 && v.Some? ==> v.value == packed
      modifies this
      ensures ok <==> CloneField(old(Now()), msg, f, v, addr).Some?
      ensures ok ==> CloneField(old(Now()), msg, f, v, addr) == Some(Now())
    {
      hide Poke, Alloc, Encode, Decode;
      match f.kind {
        case SetNull =>
        case Pointer | PointerOpt =>
          var p := Load(source, from + f.off, 8);
          if p != 0 {
            var n := StringLength(source, p, v.value);
            var q := Copy(Read(source, p, n + 1), addr);
            Store(msg + f.off, Encode(q, 8));
          } else if f.kind == Pointer {
            return false;
          }
        case Instance | InstanceOpt =>
          Store(msg + f.off, Encode(0, 8));
          var p := Load(source, from + f.ptrOff, 8);
          if p != 0 {
            var n := Load(source, from + f.sizeOff, 4);
            Store(msg + f.sizeOff, Encode(n, 4));
            var q := Copy(Read(source, p, n), addr);
            Store(msg + f.ptrOff, Encode(q, 8));
          } else if Load(source, from + f.off, 8) != 0 {
            Store(msg + f.sizeOff, Encode(|packed|, 4));
            var q := Copy(packed, addr);
            Store(msg + f.ptrOff, Encode(q, 8));
          } else if f.kind == Instance {
            return false;
          }
      }
      ok := true;
    }
  }

  /** A process that has received a batch. */
  class Receiver {
    var mem: Mem

    constructor (m: Mem)
      ensures mem == m
    {
      mem := m;
    }

    /** `Batch_FixPointer` on a slot of the message, if it is not null. */
    method FixInPlace(b: State, info: seq<Item>, a: nat, required: bool) returns (ok: bool)
      modifies this
      ensures ok <==> FixSlot(b, info, old(mem), a, required).Some?
      ensures ok ==> FixSlot(b, info, old(mem), a, required) == Some(mem)
    {
      var p := Load(mem, a, 8);
      if p == 0 { return !required; }
      match FixPointer(b, info, p) {
        case None => return false;
        case Some(q) => mem := Write(mem, a, Encode(q, 8));
      }
      ok := true;
    }

    /** `_RestoreMessage` with instance unpacking skipped. */
    method RestoreMessage(b: State, info: seq<Item>, msg: nat, table: seq<Field>) returns (ok: bool)
      modifies this
      ensures ok <==> RestoreFields(b, info, old(mem), msg, table).Some?
      ensures ok ==> RestoreFields(b, info, old(mem), msg, table) == Some(mem)
    {
      hide FixSlot, Write, Encode;
      var i := 0;
      while i < |table|
        invariant 0 <= i <= |table|
        invariant RestoreFields(b, info, mem, msg, table[i..]) == RestoreFields(b, info, old(mem), msg, table)
      {
        var f := table[i];
        assert table[i..][0] == f && table[i..][1..] == table[i + 1..];
        match f.kind {
          case SetNull => mem := Write(mem, msg + f.off, Encode(0, 8));
          case Pointer | PointerOpt =>
            var fixed := FixInPlace(b, info, msg + f.off, f.kind.Required());
            if !fixed { return false; }
          case Instance | InstanceOpt =>
            mem := Write(mem, msg + f.off, Encode(0, 8));
            var fixed := FixInPlace(b, info, msg + f.ptrOff, f.kind.Required());
            if !fixed { return false; }
        }
        i := i + 1;
      }
      ok := true;
    }
  }
}
