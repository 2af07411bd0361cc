/**
  The batch allocator of batch.c: the state of one `Batch`, its operations as functions of that
  state, and what every run of them keeps.
 */
module BatchAllocator {
  import opened Memory

  const PAGE_HEADER: nat := 16        // sizeof(Page) on a 64-bit target
  const BATCH_OBJECT: nat := 40       // sizeof(Batch)
  const BLOCK_SIZE: nat := 512
  const PAGE_SIZE: nat := 1024        // BATCH_PAGE_SIZE
  const MAX_PAGES: nat := 0xFFFF_FFFF // BATCH_MAX_PAGES

  /** A page header at `addr`, followed by `size` payload bytes. */
  datatype Page = Page(addr: nat, independent: bool, size: nat) {
    function Start(): nat { addr + PAGE_HEADER }
    function End(): nat { addr + PAGE_HEADER + size }
  }

  /** The fields of a `Batch`; `pages` is the linked list, most recently linked page first. */
  datatype State = State(avail: nat, end: nat, pages: seq<Page>, numPages: nat, maxPages: nat)

  function Init(maxPages: nat): State {
    State(0, 0, [], 0, maxPages)
  }

  function Round8(n: nat): (r: nat)
    ensures n <= r < n + 8 && r % 8 == 0
  {
    (n + 7) / 8 * 8
  }

  datatype Path = Carve | NewPage | Independent

  /** Which of the three branches of `__Batch_Get` serves a request. */
  function PathOf(b: State, size: nat): Path {
    var size8 := Round8(size);
    if size8 <= BLOCK_SIZE && size8 <= b.end - b.avail then Carve
    else if size8 <= BLOCK_SIZE && b.numPages < b.maxPages then NewPage
    else Independent
  }

  /** Bytes the request asks of the heap (none when it is carved from the current page). */
  function Demand(b: State, size: nat): nat {
    match PathOf(b, size)
    case Carve => 0
    case NewPage => PAGE_SIZE
    case Independent => PAGE_HEADER + Round8(size)
  }

  /** `__Batch_Get`; `addr` is what the heap returns if the request needs a page. */
  function Get(b: State, size: nat, addr: nat): (State, nat) {
    var size8 := Round8(size);
    match PathOf(b, size)
    case Carve =>
      (b.(avail := b.avail + size8), b.avail)
    case NewPage =>
      var page := Page(addr, false, PAGE_SIZE - PAGE_HEADER);
      (b.(pages := [page] + b.pages, avail := page.Start() + size8, end := addr + PAGE_SIZE,
          numPages := b.numPages + 1),
       page.Start())
    case Independent =>
      var page := Page(addr, true, size8);
      (b.(pages := [page] + b.pages), page.Start())
  }

  /** Index of the page whose payload starts at `ptr`, or the number of pages. */
  function IndexOf(pages: seq<Page>, ptr: nat): (i: nat)
    ensures i <= |pages|
    ensures i < |pages| ==> pages[i].Start() == ptr
    ensures forall j :: 0 <= j < i ==> pages[j].Start() != ptr
  {
    if pages == [] || pages[0].Start() == ptr then 0 else 1 + IndexOf(pages[1..], ptr)
  }

  function Remove<T>(s: seq<T>, i: nat): seq<T>
    requires i < |s|
  {
    s[..i] + s[i + 1..]
  }

  /** `Batch_Put`. */
  function Put(b: State, ptr: nat): State {
    var i := IndexOf(b.pages, ptr);
    if ptr != 0 && i < |b.pages| && b.pages[i].independent
    then b.(pages := Remove(b.pages, i))
    else b
  }

  // ---------------------------------------------------------------------------------------
  // Runs
  // ---------------------------------------------------------------------------------------

  /** A block a client holds: `size` bytes at `ptr`; `cap` bytes of page `home` were set aside for it. */
  datatype Block = Block(ptr: nat, size: nat, cap: nat, home: Page) {
    function End(): nat { ptr + cap }
  }

  /** A batch, the non-empty blocks its clients hold, and the memory of the process. */
  datatype World = World(b: State, blocks: set<Block>, mem: Mem)

  datatype Op =
    | GetOp(size: nat, addr: nat)
    | PutOp(ptr: nat)
    | WriteOp(ptr: nat, bytes: seq<byte>)

  /** Heap memory returned by the environment overlaps no page of this batch. */
  ghost predicate FreshRange(b: State, addr: nat, n: nat) {
    && 0 < addr && addr % 8 == 0
    && forall p <- b.pages :: Apart(addr, n, p.addr, PAGE_HEADER + p.size)
  }

  ghost predicate InsideBlock(w: World, a: nat, n: nat) {
    exists x <- w.blocks :: x.ptr <= a && a + n <= x.ptr + x.size
  }

  ghost predicate OutsidePages(b: State, a: nat, n: nat) {
    forall p <- b.pages :: Apart(a, n, p.addr, PAGE_HEADER + p.size)
  }

  /**
    What the environment may do: the heap returns fresh memory; anything may be passed to Put;
    the program writes into blocks it holds and into memory that is not the batch's.
   */
  ghost predicate Enabled(w: World, op: Op) {
    match op
    case GetOp(size, addr) => PathOf(w.b, size) != Carve ==> FreshRange(w.b, addr, Demand(w.b, size))
    case PutOp(_) => true
    case WriteOp(a, bytes) => InsideBlock(w, a, |bytes|) || OutsidePages(w.b, a, |bytes|)
  }

  /** The page a request is served from: the new head of the list, or the one `avail` points into. */
  ghost function ServedFrom(b: State, size: nat, addr: nat): Page {
    if PathOf(b, size) == Carve then CurrentPage(b) else Get(b, size, addr).0.pages[0]
  }

  ghost function NewBlock(b: State, size: nat, addr: nat): Block {
    Block(Get(b, size, addr).1, size, Round8(size), ServedFrom(b, size, addr))
  }

  ghost function Step(w: World, op: Op): World {
    match op
    case GetOp(size, addr) =>
      w.(b := Get(w.b, size, addr).0,
         blocks := if size == 0 then w.blocks else w.blocks + {NewBlock(w.b, size, addr)})
    case PutOp(ptr) =>
      w.(b := Put(w.b, ptr), blocks := set x <- w.blocks | x.ptr != ptr)
    case WriteOp(a, bytes) =>
      w.(mem := Write(w.mem, a, bytes))
  }

  ghost predicate IsRun(w: World, ops: seq<Op>)
    decreases |ops|
  {
    ops != [] ==> Enabled(w, ops[0]) && IsRun(Step(w, ops[0]), ops[1..])
  }

  ghost function Run(w: World, ops: seq<Op>): World
    decreases |ops|
  {
    if ops == [] then w else Run(Step(w, ops[0]), ops[1..])
  }

  // ---------------------------------------------------------------------------------------
  // The invariant
  // ---------------------------------------------------------------------------------------

  predicate PageApart(p: Page, q: Page) {
    Apart(p.addr, PAGE_HEADER + p.size, q.addr, PAGE_HEADER + q.size)
  }

  ghost predicate PagesApart(pages: seq<Page>) {
    forall i, j :: 0 <= i < j < |pages| ==> PageApart(pages[i], pages[j])
  }

  /** `p` is the page blocks are being carved from. */
  predicate Current(b: State, p: Page) {
    b.end == p.addr + PAGE_SIZE
  }

  predicate CursorIn(b: State, p: Page) {
    && Current(b, p) && !p.independent && p.size == PAGE_SIZE - PAGE_HEADER
    && p.Start() <= b.avail <= b.end
  }

  ghost predicate CursorOk(b: State) {
    b.avail == b.end == 0 || exists p <- b.pages :: CursorIn(b, p)
  }

  ghost function CurrentPage(b: State): (p: Page)
    ensures CursorOk(b) && b.end != 0 ==> p in b.pages && CursorIn(b, p)
  {
    if p :| p in b.pages && CursorIn(b, p) then p else Page(0, false, 0)
  }

  ghost predicate StateOk(b: State) {
    PagesApart(b.pages) && (forall p <- b.pages :: 0 < p.addr) && CursorOk(b)
  }

  /** A block lies in its page's payload, and alone there if the page is independent. */
  ghost predicate BlockOk(b: State, x: Block) {
    && x.home in b.pages
    && 0 < x.size <= x.cap
    && x.home.Start() <= x.ptr && x.End() <= x.home.End()
    && (Current(b, x.home) ==> x.End() <= b.avail)
    && (x.home.independent ==> x.ptr == x.home.Start())
  }

  predicate BlocksApart(x: Block, y: Block) {
    x.End() <= y.ptr || y.End() <= x.ptr
  }

  ghost predicate BlocksOk(b: State, blocks: set<Block>) {
    && (forall x <- blocks :: BlockOk(b, x))
    && (forall x <- blocks, y <- blocks :: x != y && x.home == y.home ==> BlocksApart(x, y))
  }

  ghost predicate Inv(w: World) {
    StateOk(w.b) && BlocksOk(w.b, w.blocks)
  }

  lemma {:induction false} CarveKeepsInv(w: World, size: nat, addr: nat)
    requires Inv(w) && PathOf(w.b, size) == Carve
    ensures Inv(Step(w, GetOp(size, addr)))
  {
    var w' := Step(w, GetOp(size, addr));
    if size != 0 {
      assert CursorIn(w'.b, CurrentPage(w.b));
    } else {
      assert w'.b == w.b;
    }
  }

  lemma {:induction false} LinkKeepsPages(b: State, page: Page)
    requires PagesApart(b.pages) && (forall p <- b.pages :: PageApart(page, p))
    ensures PagesApart([page] + b.pages)
  {
  }

  lemma {:induction false} LinkKeepsInv(w: World, size: nat, addr: nat)
    requires Inv(w) && PathOf(w.b, size) != Carve && Enabled(w, GetOp(size, addr))
    ensures Inv(Step(w, GetOp(size, addr)))
  {
    hide Round8;
    var b, w' := w.b, Step(w, GetOp(size, addr));
    var page := w'.b.pages[0];
    LinkKeepsPages(b, page);
    assert page in w'.b.pages && forall p <- b.pages :: p in w'.b.pages;
    if PathOf(b, size) == NewPage {
      assert CursorIn(w'.b, page);
    } else if b.end != 0 {
      assert CursorIn(w'.b, CurrentPage(b));
    }
    forall x <- w.blocks ensures x.home != page && BlockOk(w'.b, x) {
      assert PageApart(page, x.home);
    }
  }

  lemma {:induction false} RemoveKeepsPages(pages: seq<Page>, i: nat)
    requires PagesApart(pages) && i < |pages|
    ensures PagesApart(Remove(pages, i))
    ensures forall p :: p in Remove(pages, i) <==> p in pages && p != pages[i]
  {
    var rest := Remove(pages, i);
    assert forall j :: 0 <= j < |rest| ==> rest[j] == pages[if j < i then j else j + 1];
    forall p <- pages | p != pages[i] ensures p in rest {
      var j :| 0 <= j < |pages| && pages[j] == p;
      assert p == rest[if j < i then j else j - 1];
    }
    forall p <- rest ensures p != pages[i] {
      var j :| 0 <= j < |pages| && j != i && pages[j] == p;
      assert if j < i then PageApart(pages[j], pages[i]) else PageApart(pages[i], pages[j]);
    }
  }

  lemma {:induction false} PutKeepsInv(w: World, ptr: nat)
    requires Inv(w)
    ensures Inv(Step(w, PutOp(ptr)))
  {
    hide PagesApart, Remove, IndexOf;
    var b, w' := w.b, Step(w, PutOp(ptr));
    if w'.b != b {
      var i := IndexOf(b.pages, ptr);
      RemoveKeepsPages(b.pages, i);
      if b.end != 0 { assert CursorIn(w'.b, CurrentPage(b)); }
    }
  }

  /** Every step keeps the invariant ... */
  lemma {:induction false} StepKeepsInv(w: World, op: Op)
    requires Inv(w) && Enabled(w, op)
    ensures Inv(Step(w, op))
  {
    match op
    case GetOp(size, addr) =>
      if PathOf(w.b, size) == Carve { CarveKeepsInv(w, size, addr); } else { LinkKeepsInv(w, size, addr); }
    case PutOp(ptr) => PutKeepsInv(w, ptr);
    case WriteOp(_, _) =>
  }

  /** ... hence so does every run. */
  lemma {:induction false} RunKeepsInv(w: World, ops: seq<Op>)
    requires Inv(w) && IsRun(w, ops)
    ensures Inv(Run(w, ops))
    decreases |ops|
  {
    if ops != [] {
      StepKeepsInv(w, ops[0]);
      RunKeepsInv(Step(w, ops[0]), ops[1..]);
    }
  }

  // ---------------------------------------------------------------------------------------
  // Alignment, and the two results a client relies on
  // ---------------------------------------------------------------------------------------

  ghost predicate Aligned(w: World) {
    && w.b.avail % 8 == 0
    && (forall p <- w.b.pages :: p.addr % 8 == 0 && p.size % 8 == 0)
    && (forall x <- w.blocks :: x.ptr % 8 == 0)
  }

  lemma {:induction false} StepKeepsAligned(w: World, op: Op)
    requires Aligned(w) && Enabled(w, op)
    ensures Aligned(Step(w, op))
  {
    if op.GetOp? && PathOf(w.b, op.size) != Carve {
      assert (op.addr + PAGE_HEADER) % 8 == 0;
    }
  }

  lemma {:induction false} RunKeepsAligned(w: World, ops: seq<Op>)
    requires Aligned(w) && IsRun(w, ops)
    ensures Aligned(Run(w, ops))
    decreases |ops|
  {
    if ops != [] {
      StepKeepsAligned(w, ops[0]);
      RunKeepsAligned(Step(w, ops[0]), ops[1..]);
    }
  }

  /** The state of the process when a batch has just been initialised. */
  ghost function Start(maxPages: nat, mem: Mem): World {
    World(Init(maxPages), {}, mem)
  }

  /**
    Over any run, the blocks held are pairwise disjoint, 8-byte aligned and inside the payload
    of a page of the batch.
   */
  lemma {:induction false} AllocatorIsSafe(maxPages: nat, mem: Mem, ops: seq<Op>, w: World, x: Block, y: Block)
    requires IsRun(Start(maxPages, mem), ops) && w == Run(Start(maxPages, mem), ops)
    requires x in w.blocks && y in w.blocks
    ensures x != y ==> BlocksApart(x, y)
    ensures x.ptr % 8 == 0 && x.home.Start() % 8 == 0
    ensures x.home in w.b.pages && x.home.Start() <= x.ptr && x.ptr + x.size <= x.home.End()
  {
    hide Step, IsRun, Run;
    RunKeepsInv(Start(maxPages, mem), ops);
    RunKeepsAligned(Start(maxPages, mem), ops);
    LiveBlocksApart(w, x, y);
  }

  lemma {:induction false} LiveBlocksApart(w: World, x: Block, y: Block)
    requires Inv(w) && x in w.blocks && y in w.blocks
    ensures x != y ==> BlocksApart(x, y)
  {
    if x.home != y.home { PagesOfListApart(w.b.pages, x.home, y.home); }
  }

  lemma {:induction false} PagesOfListApart(pages: seq<Page>, p: Page, q: Page)
    requires PagesApart(pages) && p in pages && q in pages && p != q
    ensures PageApart(p, q)
  {
    var i :| 0 <= i < |pages| && pages[i] == p;
    var j :| 0 <= j < |pages| && pages[j] == q;
  }

  /**
    `Batch_Put` removes exactly the independent page whose payload starts at the pointer, if there
    is one, and otherwise changes nothing.
   */
  lemma {:induction false} PutIsExact(b: State, ptr: nat)
    requires StateOk(b)
    ensures forall p <- b.pages | p.independent && p.Start() == ptr ::
              multiset(Put(b, ptr).pages) == multiset(b.pages) - multiset{p} && p !in Put(b, ptr).pages
    ensures (forall p <- b.pages :: !p.independent || p.Start() != ptr) ==> Put(b, ptr) == b
    ensures Put(b, ptr) == b.(pages := Put(b, ptr).pages)
  {
    forall p <- b.pages | p.independent && p.Start() == ptr
      ensures multiset(Put(b, ptr).pages) == multiset(b.pages) - multiset{p} && p !in Put(b, ptr).pages
    {
      var i := IndexOf(b.pages, ptr);
      var k :| 0 <= k < |b.pages| && b.pages[k] == p;
      assert i == k;
      assert b.pages == b.pages[..i] + [p] + b.pages[i + 1..];
      assert p !in b.pages[..i];
      assert p !in b.pages[i + 1..];
    }
  }

  // ---------------------------------------------------------------------------------------
  // Pages
  // ---------------------------------------------------------------------------------------

  /** The pages that blocks are carved from. */
  function Shared(pages: seq<Page>): nat {
    if pages == [] then 0 else (if pages[0].independent then 0 else 1) + Shared(pages[1..])
  }

  /** The batch counts its shared pages, which are all of one size and no more than it may have. */
  ghost predicate Counted(b: State) {
    && b.numPages == Shared(b.pages) && b.numPages <= b.maxPages
    && forall p <- b.pages | !p.independent :: p.size == PAGE_SIZE - PAGE_HEADER
  }

  lemma {:induction false} RemoveCounted(pages: seq<Page>, i: nat)
    requires i < |pages| && pages[i].independent
    ensures Shared(Remove(pages, i)) == Shared(pages)
    decreases |pages|
  {
    if i > 0 {
      RemoveCounted(pages[1..], i - 1);
      assert Remove(pages, i) == [pages[0]] + Remove(pages[1..], i - 1);
      assert Remove(pages, i)[1..] == Remove(pages[1..], i - 1);
    } else {
      assert Remove(pages, i) == pages[1..];
    }
  }

  lemma {:induction false} StepKeepsCounted(w: World, op: Op)
    requires Counted(w.b)
    ensures Counted(Step(w, op).b)
  {
    hide Remove, IndexOf;
    match op
    case GetOp(size, addr) =>
      if PathOf(w.b, size) != Carve {
        var page := Get(w.b, size, addr).0.pages[0];
        assert ([page] + w.b.pages)[1..] == w.b.pages;
      }
    case PutOp(ptr) =>
      var i := IndexOf(w.b.pages, ptr);
      if Put(w.b, ptr) != w.b {
        RemoveCounted(w.b.pages, i);
        RemovedAreOld(w.b.pages, i);
      }
    case WriteOp(_, _) =>
  }

  lemma {:induction false} RemovedAreOld(pages: seq<Page>, i: nat)
    requires i < |pages|
    ensures forall p <- Remove(pages, i) :: p in pages
  {
  }

  /** Over any run a batch counts its shared pages, and never has more than it may. */
  lemma {:induction false} PagesAreCounted(maxPages: nat, mem: Mem, ops: seq<Op>)
    requires IsRun(Start(maxPages, mem), ops)
    ensures Counted(Run(Start(maxPages, mem), ops).b) && Run(Start(maxPages, mem), ops).b.maxPages == maxPages
  {
    CountedFrom(Start(maxPages, mem), ops);
  }

  lemma {:induction false} CountedFrom(w: World, ops: seq<Op>)
    requires Counted(w.b)
    ensures Counted(Run(w, ops).b) && Run(w, ops).b.maxPages == w.b.maxPages
    decreases |ops|
  {
    hide Step, Counted;
    if ops != [] {
      StepKeepsCounted(w, ops[0]);
      SameLimit(w, ops[0]);
      CountedFrom(Step(w, ops[0]), ops[1..]);
    }
  }

  lemma {:induction false} SameLimit(w: World, op: Op)
    ensures Step(w, op).b.maxPages == w.b.maxPages
  {
  }

  /**
    In any state in order: a request is served without the heap exactly when it has at most 512 bytes and
    the rest of the current page holds them; it takes a page of its own, of just its size rounded
    up, exactly when it is larger or does not fit and no further page is allowed.
   */
  lemma {:induction false} RequestsAreServed(b: State, size: nat, addr: nat)
    requires StateOk(b)
    ensures var (b', ptr) := Get(b, size, addr);
      var small, fits := size <= 512, b.avail + Round8(size) <= b.end;
      && (small && fits ==> b' == b.(avail := b.avail + Round8(size)) && ptr == b.avail)
      && (!(small && fits) ==> |b'.pages| == |b.pages| + 1 && b'.pages[1..] == b.pages)
      && (!(small && fits) ==> b'.pages[0].addr == addr && ptr == addr + PAGE_HEADER)
      && (!(small && fits) ==> (b'.pages[0].independent <==> !small || b.numPages >= b.maxPages))
      && (!(small && fits) && b'.pages[0].independent ==> b'.pages[0].size == Round8(size) && b'.avail == b.avail)
      && (!(small && fits) && !b'.pages[0].independent ==> b'.pages[0].size == 1008 && b'.avail == ptr + Round8(size))
  {
    assert size <= 512 <==> Round8(size) <= 512;
  }
}
