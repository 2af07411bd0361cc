/**
  `Batch` as batch.c runs it: fields updated in place, the page list walked in loops, pages taken
  from and returned to the heap.  Each method is tied to its function in BatchAllocator or
  BatchTransport.  The heap's operations demand that what they touch is allocated, so a method
  that verifies neither frees a page twice nor reads freed memory.
 */
module BatchObject {
  import opened Memory
  import A = BatchAllocator
  import T = BatchTransport

  /** [a, a+n) may be returned by an allocation: aligned, not null, apart from everything live. */
  ghost predicate FreeIn(live: map<nat, nat>, a: nat, n: nat) {
    0 < a && a % 8 == 0 && forall base <- live :: a != base && Apart(a, n, base, live[base])
  }

  /** The process heap: the length of every live allocation, by address. */
  class Heap {
    var live: map<nat, nat>

    /** [a, a+n) lies inside one live allocation. */
    ghost predicate Accessible(a: nat, n: nat)
      reads this
    {
      exists base <- live :: base <= a && a + n <= base + live[base]
    }

    ghost predicate Free(a: nat, n: nat)
      reads this
    {
      FreeIn(live, a, n)
    }

    method Malloc(a: nat, n: nat)
      requires Free(a, n)
      modifies this
      ensures live == old(live)[a := n]
    {
      live := live[a := n];
    }

    method Release(a: nat)
      requires a in live
      modifies this
      ensures live == old(live) - {a}
    {
      live := live - {a};
    }

    /** Every dereference in the code below passes here first. */
    method Touch(a: nat, n: nat)
      requires Accessible(a, n)
    {
    }
  }

  class Batch {
    var avail: nat
    var end: nat
    var pages: seq<A.Page>
    var numPages: nat
    var maxPages: nat

    ghost function State(): A.State
      reads this
    {
      A.State(avail, end, pages, numPages, maxPages)
    }

    /** Every page of the list is a live allocation that covers its payload. */
    ghost predicate Owns(heap: Heap)
      reads this, heap
    {
      forall p <- pages :: p.addr in heap.live && A.PAGE_HEADER + p.size <= heap.live[p.addr]
    }

    ghost predicate Valid(heap: Heap)
      reads this, heap
    {
      A.StateOk(State()) && Owns(heap)
    }

    constructor (max: nat)
      ensures State() == A.Init(max)
    {
      avail, end, pages, numPages, maxPages := 0, 0, [], 0, max;
    }

    /** `__Batch_Get`; `addr` is what the heap returns if it is asked. */
    method Get(heap: Heap, size: nat, addr: nat) returns (ptr: nat)
      requires Valid(heap)
      requires A.PathOf(State(), size) != A.Carve ==> heap.Free(addr, A.Demand(State(), size))
      modifies this, heap
      ensures (State(), ptr) == A.Get(old(State()), size, addr)
      ensures Valid(heap)
      ensures heap.live == if A.PathOf(old(State()), size) == A.Carve then old(heap.live)
                           else old(heap.live)[addr := A.Demand(old(State()), size)]
    {
      var size8 := A.Round8(size);
      GetKeepsState(heap, size, addr);
      if size8 <= A.BLOCK_SIZE && size8 <= end - avail {
        ptr := avail;
        avail := avail + size8;
        return;
      }
      if size8 <= A.BLOCK_SIZE && numPages < maxPages {
        heap.Malloc(addr, A.PAGE_SIZE);
        var page := A.Page(addr, false, A.PAGE_SIZE - A.PAGE_HEADER);
        pages := [page] + pages;
        ptr := page.Start();
        avail := ptr + size8;
        end := addr + A.PAGE_SIZE;
        numPages := numPages + 1;
        return;
      }
      heap.Malloc(addr, A.PAGE_HEADER + size8);
      var page := A.Page(addr, true, size8);
      pages := [page] + pages;
      ptr := page.Start();
    }

    lemma {:induction false} GetKeepsState(heap: Heap, size: nat, addr: nat)
      requires Valid(heap)
      requires A.PathOf(State(), size) != A.Carve ==> heap.Free(addr, A.Demand(State(), size))
      ensures A.StateOk(A.Get(State(), size, addr).0)
    {
      A.StepKeepsInv(A.World(State(), {}, _ => 0), A.GetOp(size, addr));
    }

    /** `Batch_Put`. */
    method Put(heap: Heap, ptr: nat)
      requires Valid(heap)
      modifies this, heap
      ensures State() == A.Put(old(State()), ptr)
      ensures Valid(heap)
      ensures heap.live == if State() == old(State()) then old(heap.live)
                           else old(heap.live) - {ptr - A.PAGE_HEADER}
    {
      if ptr == 0 { return; }
      var i := 0;
      while i < |pages|
        invariant 0 <= i <= |pages|
        invariant State() == old(State()) && heap.live == old(heap.live)
        invariant forall j :: 0 <= j < i ==> pages[j].Start() != ptr
      {
        assert pages[i].addr in heap.live;
        heap.Touch(pages[i].addr, A.PAGE_HEADER);
        if pages[i].Start() == ptr {
          assert i == A.IndexOf(pages, ptr);
          if pages[i].independent { FreePage(heap, i); }
          return;
        }
        i := i + 1;
      }
    }

    /** Take page `i` out of the list and give it back to the heap. */
    method FreePage(heap: Heap, i: nat)
      requires Valid(heap) && i < |pages| && pages[i].independent
      requires i == A.IndexOf(pages, pages[i].Start())
      modifies this, heap
      ensures State() == old(State()).(pages := A.Remove(old(pages), i)) != old(State())
      ensures Valid(heap)
      ensures heap.live == old(heap.live) - {old(pages[i].addr)}
    {
      A.PutKeepsInv(A.World(State(), {}, _ => 0), pages[i].Start());
      RemainingPagesDiffer(pages, i);
      var page := pages[i];
      pages := pages[..i] + pages[i + 1..];
      heap.Release(page.addr);
    }

    static lemma {:induction false} RemainingPagesDiffer(list: seq<A.Page>, i: nat)
      requires A.PagesApart(list) && i < |list|
      ensures forall p <- A.Remove(list, i) :: p in list && p.addr != list[i].addr
    {
      forall p <- A.Remove(list, i) ensures p in list && p.addr != list[i].addr {
        var k :| 0 <= k < |list| && k != i && list[k] == p;
        assert k < i ==> A.PageApart(list[k], list[i]);
        assert i < k ==> A.PageApart(list[i], list[k]);
      }
    }

    /**
      `Batch_Destroy` of the batch whose object is at address `self`: every page is freed exactly
      once, wherever the object itself lives, inside a page or not.
     */
    method Destroy(heap: Heap, self: nat)
      requires Valid(heap) && heap.Accessible(self, A.BATCH_OBJECT)
      modifies heap
      ensures heap.live == old(heap.live) - Addresses(pages)
    {
      heap.Touch(self, A.BATCH_OBJECT);
      var list := pages;
      var last: T.Option<nat> := T.None;
      var i := 0;
      while i < |list|
        invariant 0 <= i <= |list|
        invariant last.Some? ==> exists k | 0 <= k < i :: list[k].addr == last.value && SelfInside(self, list[k])
        invariant last.None? ==> heap.live == old(heap.live) - Addresses(list[..i])
        invariant last.Some? ==> heap.live == old(heap.live) - (Addresses(list[..i]) - {last.value})
      {
        hide Addresses;
        var p := list[i];
        NotYetFreed(list, i);
        assert p.addr in heap.live;
        heap.Touch(p.addr, A.PAGE_HEADER);
        if SelfInside(self, p) {
          last := T.Some(p.addr);
        } else {
          heap.Release(p.addr);
        }
        i := i + 1;
      }
      assert list[..|list|] == list;
      if last.Some? {
        heap.Release(last.value);
      }
    }

    static function Addresses(list: seq<A.Page>): set<nat> { set p <- list :: p.addr }

    static lemma {:induction false} NotYetFreed(list: seq<A.Page>, i: nat)
      requires A.PagesApart(list) && i < |list|
      ensures list[i].addr !in Addresses(list[..i])
      ensures Addresses(list[..i + 1]) == Addresses(list[..i]) + {list[i].addr}
    {
      assert list[..i + 1] == list[..i] + [list[i]];
      forall p <- list[..i] ensures p.addr != list[i].addr {
        var k :| 0 <= k < i && list[k] == p;
        assert A.PageApart(list[k], list[i]);
      }
    }

    /** The test by which `Batch_Destroy` recognises the page that holds the batch. */
    predicate SelfInside(self: nat, p: A.Page) {
      p.Start() <= self && self < p.addr + p.size
    }

    /** `__Batch_New`: the batch is the first block of its own first page. */
    static method New(heap: Heap, max: nat, addr: nat) returns (b: Batch, self: nat)
      requires heap.Free(addr, A.Demand(A.Init(max), A.BATCH_OBJECT))
      modifies heap
      ensures fresh(b) && (b.State(), self) == A.Get(A.Init(max), A.BATCH_OBJECT, addr)
      ensures b.Valid(heap) && heap.Accessible(self, A.BATCH_OBJECT)
      ensures |b.pages| == 1 && b.SelfInside(self, b.pages[0])
    {
      b := new Batch(max);
      self := b.Get(heap, A.BATCH_OBJECT, addr);
      assert addr in heap.live;
    }

    /**
      `Batch_CreateBatchByPageInfo` from a NULL batch: the list is built from its tail, the batch
      object being placed behind the payload of the page built first.
     */
    static method Create(heap: Heap, info: seq<T.Item>, addrs: seq<nat>) returns (b: Batch?, self: nat)
      requires GoodRegions(heap, info, addrs)
      modifies heap
      ensures b == null <==> info == []
      ensures b != null ==> fresh(b) && b.State() == T.Rebuild(info, addrs) && b.Valid(heap)
      ensures b != null ==> heap.Accessible(self, A.BATCH_OBJECT) && forall p <- b.pages :: !b.SelfInside(self, p)
      ensures heap.live == old(heap.live) + Regions(info, addrs, 0)
    {
      b, self := null, 0;
      var i := |info|;
      ghost var all := T.RebuiltPages(info, addrs);
      while i != 0
        invariant 0 <= i <= |info|
        invariant b == null <==> i == |info|
        invariant b != null ==> fresh(b) && b.State() == A.Init(A.MAX_PAGES).(pages := all[i..])
        invariant b != null ==> self == SelfOf(info, addrs)
        invariant heap.live == old(heap.live) + Regions(info, addrs, i)
      {
        i := i - 1;
        assert heap.Free(addrs[i], RegionLen(info, i)) by { StillFree(old(heap.live), info, addrs, i); }
        if b == null {
          var size8 := A.Round8(A.PAGE_HEADER + info[i].size);
          heap.Malloc(addrs[i], size8 + A.BATCH_OBJECT);
          self := addrs[i] + size8;
          b := new Batch(A.MAX_PAGES);
        } else {
          heap.Malloc(addrs[i], A.PAGE_HEADER + info[i].size);
        }
        UnionUpdate(old(heap.live), Regions(info, addrs, i + 1), addrs[i], RegionLen(info, i));
        b.pages := [A.Page(addrs[i], false, info[i].size)] + b.pages;
        assert all[i..] == [all[i]] + all[i + 1..];
      }
      assert all[0..] == all;
      if b != null { CreatedIsValid(heap, old(heap.live), b, info, addrs); }
    }

    static lemma {:induction false} CreatedIsValid(
        heap: Heap, was: map<nat, nat>, b: Batch, info: seq<T.Item>, addrs: seq<nat>)
      requires RegionsApart(info, addrs) && info != []
      requires heap.live == was + Regions(info, addrs, 0) && b.State() == T.Rebuild(info, addrs)
      ensures b.Valid(heap) && heap.Accessible(SelfOf(info, addrs), A.BATCH_OBJECT)
      ensures forall p <- b.pages :: !b.SelfInside(SelfOf(info, addrs), p)
    {
      RebuiltIsGood(info, addrs);
      RegionsHas(info, addrs, 0);
      assert addrs[|info| - 1] in heap.live;
      forall p <- b.pages
        ensures p.addr in heap.live && A.PAGE_HEADER + p.size <= heap.live[p.addr]
        ensures !b.SelfInside(SelfOf(info, addrs), p)
      {
        var k :| 0 <= k < |info| && b.pages[k] == p;
        SelfOutsidePayloads(info, addrs, k);
      }
    }

    /** `Batch_GetPageCount`. */
    method PageCount() returns (n: nat)
      ensures n == |pages|
    {
      n := 0;
      while n < |pages|
        invariant n <= |pages|
      {
        n := n + 1;
      }
    }

    /** `Batch_GetPageByIndex`: the position reached, |pages| standing for the end of the list. */
    method PageByIndex(index: nat) returns (p: nat)
      ensures p == if index < |pages| then index else |pages|
    {
      p := 0;
      var left := index;
      while p < |pages| && left != 0
        invariant p <= |pages| && p + left == index
      {
        left := left - 1;
        p := p + 1;
      }
    }

    /** `Batch_GetPageInfo`. */
    method GetPageInfo(heap: Heap) returns (info: seq<T.Item>)
      requires Valid(heap)
      ensures info == T.PageInfo(State())
    {
      info := [];
      var i := 0;
      while i < |pages|
        invariant 0 <= i <= |pages|
        invariant info == T.PageInfo(State())[..i]
      {
        var p := pages[i];
        assert p.addr in heap.live;
        heap.Touch(p.addr, A.PAGE_HEADER);
        if end == p.addr + A.PAGE_SIZE {
          T.CursorInCurrent(State(), p);
          info := info + [T.Item(p.Start(), avail - p.Start())];
        } else {
          info := info + [T.Item(p.Start(), p.size)];
        }
        i := i + 1;
      }
    }

    /** `Batch_FixPointer`; None leaves the pointer as it is and reports failure. */
    method FixPointer(info: seq<T.Item>, ptr: nat) returns (r: T.Option<nat>)
      requires |pages| + |info| < SIZE_T
      ensures r == T.FixPointer(State(), info, ptr)
    {
      var count := PageCount();
      var p := PageByIndex((count - |info|) % SIZE_T);
      if p == |pages| {
        return T.None;
      }
      var index := 0;
      while p < |pages| && index < |info|
        invariant index <= |info| && p == |pages| - |info| + index
        invariant forall j :: 0 <= j < index ==> !T.Covers(info[j], ptr)
      {
        var it := info[index];
        if it.ptr <= ptr && ptr < it.ptr + it.size {
          assert index == T.FindItem(info, ptr);
          return T.Some(pages[p].Start() + (ptr - it.ptr));
        }
        p, index := p + 1, index + 1;
      }
      return T.None;
    }
  }

  /** Bytes allocated for page `i` of a rebuilt list. */
  function RegionLen(info: seq<T.Item>, i: nat): nat
    requires i < |info|
  {
    if i == |info| - 1 then A.Round8(A.PAGE_HEADER + info[i].size) + A.BATCH_OBJECT
    else A.PAGE_HEADER + info[i].size
  }

  /** Where a rebuilt batch's own object sits. */
  function SelfOf(info: seq<T.Item>, addrs: seq<nat>): nat
    requires |info| == |addrs| && info != []
  {
    addrs[|info| - 1] + A.Round8(A.PAGE_HEADER + info[|info| - 1].size)
  }

  lemma {:induction false} UnionUpdate(m: map<nat, nat>, k: map<nat, nat>, a: nat, n: nat)
    ensures (m + k)[a := n] == m + k[a := n]
  {
  }

  /** The allocations made for pages `i` and on. */
  ghost function Regions(info: seq<T.Item>, addrs: seq<nat>, i: nat): map<nat, nat>
    requires |info| == |addrs| && i <= |info|
    decreases |info| - i
  {
    if i == |info| then map[] else Regions(info, addrs, i + 1)[addrs[i] := RegionLen(info, i)]
  }

  ghost predicate RegionsApart(info: seq<T.Item>, addrs: seq<nat>) {
    && |info| == |addrs|
    && (forall a <- addrs :: 0 < a)
    && (forall i, j :: 0 <= i < j < |info| ==> Apart(addrs[i], RegionLen(info, i), addrs[j], RegionLen(info, j)))
  }

  /** The heap's answers to the allocations of `Create`: free, and apart from each other. */
  ghost predicate GoodRegions(heap: Heap, info: seq<T.Item>, addrs: seq<nat>)
    reads heap
  {
    && RegionsApart(info, addrs)
    && (forall i :: 0 <= i < |info| ==> heap.Free(addrs[i], RegionLen(info, i)))
  }

  lemma {:induction false} RegionsHas(info: seq<T.Item>, addrs: seq<nat>, i: nat)
    requires RegionsApart(info, addrs) && i <= |info|
    ensures forall a :: a in Regions(info, addrs, i) <==> exists j :: i <= j < |info| && addrs[j] == a
    ensures forall j :: i <= j < |info| ==>
              addrs[j] in Regions(info, addrs, i) && Regions(info, addrs, i)[addrs[j]] == RegionLen(info, j)
    decreases |info| - i
  {
    if i < |info| {
      RegionsHas(info, addrs, i + 1);
      forall j | i < j < |info| ensures addrs[j] != addrs[i] {}
    }
  }

  lemma {:induction false} StillFree(was: map<nat, nat>, info: seq<T.Item>, addrs: seq<nat>, i: nat)
    requires RegionsApart(info, addrs) && i < |info| && FreeIn(was, addrs[i], RegionLen(info, i))
    ensures FreeIn(was + Regions(info, addrs, i + 1), addrs[i], RegionLen(info, i))
  {
    var rest := Regions(info, addrs, i + 1);
    RegionsHas(info, addrs, i + 1);
    forall base <- was + rest
      ensures addrs[i] != base && Apart(addrs[i], RegionLen(info, i), base, (was + rest)[base])
    {
      if base in rest {
        var j :| i + 1 <= j < |info| && addrs[j] == base;
        assert Apart(addrs[i], RegionLen(info, i), addrs[j], RegionLen(info, j));
      }
    }
  }

  lemma {:induction false} RebuiltIsGood(info: seq<T.Item>, addrs: seq<nat>)
    requires RegionsApart(info, addrs)
    ensures A.StateOk(T.Rebuild(info, addrs)) && T.GoodAddresses(info, addrs)
  {
    var pages := T.RebuiltPages(info, addrs);
    forall i, j | 0 <= i < j < |pages| ensures A.PageApart(pages[i], pages[j]) {
      assert Apart(addrs[i], RegionLen(info, i), addrs[j], RegionLen(info, j));
    }
    forall p <- pages ensures 0 < p.addr { assert p.addr in addrs; }
  }

  /** The object is behind the last payload and outside the other regions, so no page passes for its holder. */
  lemma {:induction false} SelfOutsidePayloads(info: seq<T.Item>, addrs: seq<nat>, i: nat)
    requires RegionsApart(info, addrs) && i < |info|
    ensures !(T.RebuiltPages(info, addrs)[i].Start() <= SelfOf(info, addrs) < addrs[i] + info[i].size)
  {
    var n := |info| - 1;
    assert i < n ==> Apart(addrs[i], RegionLen(info, i), addrs[n], RegionLen(info, n));
  }

  const SIZE_T: nat := 0x1_0000_0000_0000_0000
}
