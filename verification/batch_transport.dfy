/**
  Moving a batch to another process: the page descriptions of `Batch_GetPageInfo`, the list that
  `Batch_CreateBatchByPageInfo` rebuilds from them, and the address translation of
  `Batch_FixPointer`.
 */
module BatchTransport {
  import opened Memory
  import opened BatchAllocator

  datatype Option<T> = None | Some(value: T)

  /** `Header_BatchInfoItem`. */
  datatype Item = Item(ptr: nat, size: nat)

  /** Of the current page only the part below `avail` is sent. */
  function InfoOf(b: State, p: Page): Item
    requires Current(b, p) ==> p.Start() <= b.avail
  {
    Item(p.Start(), if Current(b, p) then b.avail - p.Start() else p.size)
  }

  lemma {:induction false} CursorInCurrent(b: State, p: Page)
    requires StateOk(b) && p in b.pages && Current(b, p)
    ensures CursorIn(b, p)
  {
    if p != CurrentPage(b) { PagesOfListApart(b.pages, p, CurrentPage(b)); }
  }

  /** `Batch_GetPageInfo`. */
  ghost function PageInfo(b: State): (info: seq<Item>)
    requires StateOk(b)
    ensures |info| == |b.pages|
  {
    assert forall p <- b.pages :: Current(b, p) ==> p.Start() <= b.avail by {
      forall p <- b.pages | Current(b, p) ensures p.Start() <= b.avail { CursorInCurrent(b, p); }
    }
    seq(|b.pages|, i requires 0 <= i < |b.pages| => InfoOf(b, b.pages[i]))
  }

  /** The page list rebuilt from `info`, page i at the heap address `addrs[i]`. */
  function RebuiltPages(info: seq<Item>, addrs: seq<nat>): (pages: seq<Page>)
    requires |info| == |addrs|
    ensures |pages| == |info|
  {
    seq(|info|, i requires 0 <= i < |info| => Page(addrs[i], false, info[i].size))
  }

  /** `Batch_CreateBatchByPageInfo` from a NULL batch. */
  function Rebuild(info: seq<Item>, addrs: seq<nat>): State
    requires |info| == |addrs|
  {
    Init(MAX_PAGES).(pages := RebuiltPages(info, addrs))
  }

  predicate Covers(it: Item, ptr: nat) {
    it.ptr <= ptr < it.ptr + it.size
  }

  /** The first description that covers `ptr`, or their number. */
  function FindItem(info: seq<Item>, ptr: nat): (i: nat)
    ensures i <= |info|
    ensures i < |info| ==> Covers(info[i], ptr)
    ensures forall j :: 0 <= j < i ==> !Covers(info[j], ptr)
  {
    if info == [] || Covers(info[0], ptr) then 0 else 1 + FindItem(info[1..], ptr)
  }

  /**
    `Batch_FixPointer`.  The page count less the number of descriptions is computed in an unsigned
    type: when it would be negative, or there are no descriptions, no page is found.
   */
  function FixPointer(b: State, info: seq<Item>, ptr: nat): Option<nat> {
    if |b.pages| < |info| then None
    else
      var i := FindItem(info, ptr);
      if i == |info| then None
      else Some(b.pages[|b.pages| - |info| + i].Start() + (ptr - info[i].ptr))
  }

  // ---------------------------------------------------------------------------------------
  // What survives in the receiver
  // ---------------------------------------------------------------------------------------

  function PayloadOf(mem: Mem, p: Page): seq<byte> {
    Read(mem, p.Start(), p.size)
  }

  /** `received` is the tail of the page list. */
  predicate Tail(received: seq<Page>, b: State) {
    |received| <= |b.pages| && b.pages[|b.pages| - |received|..] == received
  }

  lemma {:induction false} TailPage(received: seq<Page>, b: State, i: nat)
    requires Tail(received, b) && i < |received|
    ensures b.pages[|b.pages| - |received| + i] == received[i]
    ensures received[i] in b.pages && received[i] in received
  {
    assert b.pages[|b.pages| - |received|..][i] == received[i];
  }

  /**
    `received` is still the tail of the list, nothing is carved from it, no block of the receiver
    lies in it, and its bytes are those of `mem`.
   */
  ghost predicate Intact(received: seq<Page>, mem: Mem, r: World) {
    && Tail(received, r.b)
    && (forall p <- received :: !p.independent && !Current(r.b, p))
    && (forall x <- r.blocks :: x.home !in received)
    && (forall p <- received :: PayloadOf(r.mem, p) == PayloadOf(mem, p))
  }

  lemma {:induction false} CarveKeepsIntact(received: seq<Page>, mem: Mem, r: World, size: nat, addr: nat)
    requires Inv(r) && Intact(received, mem, r) && PathOf(r.b, size) == Carve
    ensures Intact(received, mem, Step(r, GetOp(size, addr)))
  {
    if size != 0 { assert CursorIn(r.b, CurrentPage(r.b)); }
  }

  lemma {:induction false} LinkKeepsIntact(received: seq<Page>, mem: Mem, r: World, size: nat, addr: nat)
    requires Intact(received, mem, r) && PathOf(r.b, size) != Carve && Enabled(r, GetOp(size, addr))
    ensures Intact(received, mem, Step(r, GetOp(size, addr)))
  {
    var r' := Step(r, GetOp(size, addr));
    var page := r'.b.pages[0];
    forall p <- received ensures p.addr != page.addr {
      assert p in r.b.pages;
      assert PageApart(page, p);
    }
    assert r'.b.pages[|r'.b.pages| - |received|..] == r.b.pages[|r.b.pages| - |received|..];
  }

  lemma {:induction false} RemoveKeepsTail(received: seq<Page>, pages: seq<Page>, i: nat)
    requires |received| <= |pages| && pages[|pages| - |received|..] == received
    requires i < |pages| && pages[i] !in received
    ensures |received| < |pages| && Remove(pages, i)[|pages| - 1 - |received|..] == received
  {
    var k := |pages| - |received|;
    assert forall j :: k <= j < |pages| ==> pages[j] == received[j - k];
    assert Remove(pages, i)[k - 1..] == pages[k..];
  }

  lemma {:induction false} PutKeepsIntact(received: seq<Page>, mem: Mem, r: World, ptr: nat)
    requires Intact(received, mem, r)
    ensures Intact(received, mem, Step(r, PutOp(ptr)))
  {
    hide IndexOf;
    if Put(r.b, ptr) != r.b {
      var i := IndexOf(r.b.pages, ptr);
      RemoveKeepsTail(received, r.b.pages, i);
      assert |Put(r.b, ptr).pages| == |r.b.pages| - 1;
    }
  }

  lemma {:induction false} WriteKeepsIntact(received: seq<Page>, mem: Mem, r: World, a: nat, bytes: seq<byte>)
    requires Inv(r) && Intact(received, mem, r) && Enabled(r, WriteOp(a, bytes))
    ensures Intact(received, mem, Step(r, WriteOp(a, bytes)))
  {
    forall p <- received ensures Apart(a, |bytes|, p.Start(), p.size) {
      assert p in r.b.pages;
      if InsideBlock(r, a, |bytes|) {
        var x :| x in r.blocks && x.ptr <= a && a + |bytes| <= x.ptr + x.size;
        PagesOfListApart(r.b.pages, p, x.home);
      }
    }
  }

  /** Whatever the receiver allocates, frees or writes, the pages it received stay as they arrived. */
  lemma {:induction false} RunKeepsIntact(received: seq<Page>, mem: Mem, r: World, ops: seq<Op>)
    requires Inv(r) && Intact(received, mem, r) && IsRun(r, ops)
    ensures Intact(received, mem, Run(r, ops)) && Inv(Run(r, ops))
    decreases |ops|
  {
    if ops != [] {
      match ops[0] {
        case GetOp(size, addr) =>
          if PathOf(r.b, size) == Carve { CarveKeepsIntact(received, mem, r, size, addr); }
          else { LinkKeepsIntact(received, mem, r, size, addr); }
        case PutOp(ptr) => PutKeepsIntact(received, mem, r, ptr);
        case WriteOp(a, bytes) => WriteKeepsIntact(received, mem, r, a, bytes);
      }
      StepKeepsInv(r, ops[0]);
      RunKeepsIntact(received, mem, Step(r, ops[0]), ops[1..]);
    }
  }

  // ---------------------------------------------------------------------------------------
  // The address isomorphism
  // ---------------------------------------------------------------------------------------

  /** Heap addresses for the rebuilt pages: non-null and non-overlapping. */
  ghost predicate GoodAddresses(info: seq<Item>, addrs: seq<nat>) {
    && |info| == |addrs|
    && (forall a <- addrs :: 0 < a)
    && PagesApart(RebuiltPages(info, addrs))
  }

  /** The bytes of each described page have been copied to the start of the rebuilt one. */
  ghost predicate Delivered(info: seq<Item>, sent: Mem, addrs: seq<nat>, got: Mem)
    requires |info| == |addrs|
  {
    forall i | 0 <= i < |info| ::
      Read(got, addrs[i] + PAGE_HEADER, info[i].size) == Read(sent, info[i].ptr, info[i].size)
  }

  ghost function Received(info: seq<Item>, addrs: seq<nat>, got: Mem): World
    requires |info| == |addrs|
  {
    World(Rebuild(info, addrs), {}, got)
  }

  lemma {:induction false} ReceivedIsIntact(info: seq<Item>, addrs: seq<nat>, got: Mem)
    requires GoodAddresses(info, addrs)
    ensures Inv(Received(info, addrs, got))
    ensures Intact(RebuiltPages(info, addrs), got, Received(info, addrs, got))
  {
    assert forall p <- RebuiltPages(info, addrs) :: p.addr in addrs;
  }

  lemma {:induction false} SamePageSameIndex(b: State, i: nat, j: nat)
    requires StateOk(b) && i < |b.pages| && j < |b.pages| && b.pages[i] == b.pages[j]
    ensures i == j
  {
  }

  /** The description that covers an address inside a live block is that of the block's page. */
  lemma {:induction false} ItemOfBlock(w: World, x: Block, k: nat) returns (i: nat)
    requires Inv(w) && x in w.blocks && k < x.size
    ensures i == FindItem(PageInfo(w.b), x.ptr + k) < |w.b.pages|
    ensures w.b.pages[i] == x.home && Covers(PageInfo(w.b)[i], x.ptr + k)
    ensures PageInfo(w.b)[i].ptr == x.home.Start()
  {
    var info := PageInfo(w.b);
    var j :| 0 <= j < |w.b.pages| && w.b.pages[j] == x.home;
    assert info[j] == InfoOf(w.b, x.home);
    assert Covers(info[j], x.ptr + k);
    i := FindItem(info, x.ptr + k);
    assert info[i] == InfoOf(w.b, w.b.pages[i]);
    if i != j {
      assert PageApart(w.b.pages[i], w.b.pages[j]);
      if Current(w.b, w.b.pages[i]) { CursorInCurrent(w.b, w.b.pages[i]); }
      assert false;
    }
  }

  /** Where byte `a` of the sender's page ends up. */
  ghost function ImageOf(info: seq<Item>, addrs: seq<nat>, a: nat): nat
    requires |info| == |addrs| && FindItem(info, a) < |info|
  {
    var i := FindItem(info, a);
    addrs[i] + PAGE_HEADER + (a - info[i].ptr)
  }

  /** An address the descriptions cover is translated to its image, where the sender's byte is found. */
  lemma {:induction false} CoveredIsTranslated(info: seq<Item>, sent: Mem, addrs: seq<nat>, got: Mem, r: World, a: nat)
    requires |info| == |addrs| && Delivered(info, sent, addrs, got)
    requires Intact(RebuiltPages(info, addrs), got, r)
    requires FindItem(info, a) < |info|
    ensures FixPointer(r.b, info, a) == Some(ImageOf(info, addrs, a))
    ensures r.mem(ImageOf(info, addrs, a)) == sent(a)
  {
    var received, i := RebuiltPages(info, addrs), FindItem(info, a);
    TailPage(received, r.b, i);
    var off := a - info[i].ptr;
    assert PayloadOf(r.mem, received[i])[off] == PayloadOf(got, received[i])[off];
    assert Read(got, addrs[i] + PAGE_HEADER, info[i].size)[off] == Read(sent, info[i].ptr, info[i].size)[off];
  }

  /** Interior offsets are preserved. */
  lemma {:induction false} ImageOfInterior(w: World, info: seq<Item>, addrs: seq<nat>, x: Block, k: nat)
    requires Inv(w) && info == PageInfo(w.b) && |addrs| == |info|
    requires x in w.blocks && k < x.size
    ensures FindItem(info, x.ptr) < |info| && FindItem(info, x.ptr + k) < |info|
    ensures ImageOf(info, addrs, x.ptr + k) == ImageOf(info, addrs, x.ptr) + k
  {
    var i := ItemOfBlock(w, x, k);
    var i0 := ItemOfBlock(w, x, 0);
    SamePageSameIndex(w.b, i, i0);
  }

  /** The receiver after it rebuilt the described pages, read their bytes and went on with `ops`. */
  ghost predicate IsReceiver(info: seq<Item>, sent: Mem, addrs: seq<nat>, ops: seq<Op>, r: World) {
    && GoodAddresses(info, addrs)
    && exists got ::
         && Delivered(info, sent, addrs, got)
         && IsRun(Received(info, addrs, got), ops)
         && r == Run(Received(info, addrs, got), ops)
  }

  lemma {:induction false} ReceiverIsIntact(info: seq<Item>, sent: Mem, addrs: seq<nat>, ops: seq<Op>, r: World)
    returns (got: Mem)
    requires IsReceiver(info, sent, addrs, ops, r)
    ensures Inv(r) && Delivered(info, sent, addrs, got) && Intact(RebuiltPages(info, addrs), got, r)
  {
    got :| && Delivered(info, sent, addrs, got) && IsRun(Received(info, addrs, got), ops)
           && r == Run(Received(info, addrs, got), ops);
    ReceivedIsIntact(info, addrs, got);
    RunKeepsIntact(RebuiltPages(info, addrs), got, Received(info, addrs, got), ops);
  }

  /**
    After transport and any further use of the received batch, `Batch_FixPointer` takes every
    address inside a block the sender held to the same offset from the block's image, and finds
    the sender's byte there.
   */
  lemma {:induction false} TransportPreservesBlocks(
      w: World, info: seq<Item>, addrs: seq<nat>, ops: seq<Op>, r: World, x: Block, k: nat)
    requires Inv(w) && info == PageInfo(w.b) && IsReceiver(info, w.mem, addrs, ops, r)
    requires x in w.blocks && k < x.size
    ensures FindItem(info, x.ptr) < |info|
    ensures FixPointer(r.b, info, x.ptr + k) == Some(ImageOf(info, addrs, x.ptr) + k)
    ensures r.mem(ImageOf(info, addrs, x.ptr) + k) == w.mem(x.ptr + k)
  {
    var got := ReceiverIsIntact(info, w.mem, addrs, ops, r);
    ImageOfInterior(w, info, addrs, x, k);
    CoveredIsTranslated(info, w.mem, addrs, got, r, x.ptr + k);
  }

  /** Distinct addresses in the sender's blocks have distinct images. */
  lemma {:induction false} TransportIsInjective(
      w: World, info: seq<Item>, addrs: seq<nat>, x: Block, j: nat, y: Block, k: nat)
    requires Inv(w) && info == PageInfo(w.b) && GoodAddresses(info, addrs)
    requires x in w.blocks && y in w.blocks && j < x.size && k < y.size
    requires x.ptr + j != y.ptr + k
    ensures FindItem(info, x.ptr + j) < |info| && FindItem(info, y.ptr + k) < |info|
    ensures ImageOf(info, addrs, x.ptr + j) != ImageOf(info, addrs, y.ptr + k)
  {
    var i1 := ItemOfBlock(w, x, j);
    var i2 := ItemOfBlock(w, y, k);
    var received := RebuiltPages(info, addrs);
    assert i1 < i2 ==> PageApart(received[i1], received[i2]);
    assert i2 < i1 ==> PageApart(received[i2], received[i1]);
  }

  /** Blocks the receiver allocates later never overlap an image. */
  lemma {:induction false} NewBlocksMissImages(
      w: World, info: seq<Item>, addrs: seq<nat>, ops: seq<Op>, r: World, x: Block, k: nat, y: Block)
    requires Inv(w) && info == PageInfo(w.b) && IsReceiver(info, w.mem, addrs, ops, r)
    requires x in w.blocks && k < x.size && y in r.blocks
    ensures FindItem(info, x.ptr + k) < |info|
    ensures !(y.ptr <= ImageOf(info, addrs, x.ptr + k) < y.End())
  {
    var got := ReceiverIsIntact(info, w.mem, addrs, ops, r);
    var i := ItemOfBlock(w, x, k);
    TailPage(RebuiltPages(info, addrs), r.b, i);
    PagesOfListApart(r.b.pages, RebuiltPages(info, addrs)[i], y.home);
  }

  /**
    Why blocks must not be empty: a request for no bytes returns the cursor, and a batch sent in
    that state describes no page that covers it, so the receiver cannot translate the pointer.
   */
  lemma {:induction false} EmptyBlockIsNotTranslated(b: State, addr: nat, r: State)
    requires StateOk(b)
    ensures Get(b, 0, addr) == (b, b.avail)
    ensures FixPointer(r, PageInfo(b), b.avail) == None
  {
    var info := PageInfo(b);
    var i := FindItem(info, b.avail);
    if i < |info| {
      assert info[i] == InfoOf(b, b.pages[i]);
      if b.end != 0 && b.pages[i] != CurrentPage(b) {
        PagesOfListApart(b.pages, b.pages[i], CurrentPage(b));
      }
    }
  }
}
