/** Whole runs of the buddy allocator. */
module BuddyRuns {
  import opened Bits
  import opened BuddyState
  import opened BuddyTheory
  import opened BuddyAllocator
  import opened Util

  ghost predicate SameLists(l1: Lists, l2: Lists)
    requires |l1| == |l2| == MAX_ORDER - MIN_ORDER + 1
  {
    forall o, p: nat :: OrderIndex(l1, o) ==> (p in ListOf(l1, o) <==> p in ListOf(l2, o))
  }

  /** The free lists hold the root blocks and nothing else. */
  ghost predicate ListsAreRoots(pg: Pages, lists: Lists)
    requires |lists| == MAX_ORDER - MIN_ORDER + 1
  {
    forall o, p: nat :: OrderIndex(lists, o) ==>
      (p in ListOf(lists, o) <==> p < |pg| && pg[p].Managed() && pg[p].Root() == p && pg[p].r_ord == o)
  }

  /** Releasing a block just allocated restores the former set of free blocks. */
  lemma KfreeUndoesKalloc(pg0: Pages, l0: Lists, pg1: Pages, pg2: Pages, l2: Lists, p: nat, o: nat)
    requires |l0| == |l2| == MAX_ORDER - MIN_ORDER + 1
    requires Valid(pg0, l0) && Valid(pg2, l2) && SameRoots(pg0, pg2)
    requires Allocated(pg0, pg1, p, o) && Released(pg1, pg2, p)
    ensures SameLists(l0, l2)
  {
    hide Inv, SameRoots, SameLists;
    assert Live(pg2) == Live(pg0) by {
      hide Live;
      assert Live(pg2) == Live(pg0)[p := o] - {p};
    }
    hide Allocated, Released;
    LiveDeterminesFree(pg0, l0, pg2, l2);
    SameListsIntro(l0, l2);
  }

  lemma SameRootsTrans(a: Pages, b: Pages, c: Pages)
    requires SameRoots(a, b) && SameRoots(b, c)
    ensures SameRoots(a, c)
  {
  }

  method KallocThenKfree(a: BuddyAllocator, sz: nat)
    requires a.ValidState()
    modifies a`free_blocks, a.pgmap
    ensures a.ValidState() && SameLists(old(a.free_blocks), a.free_blocks)
  {
    ghost var pg0, l0 := a.pgmap[..], a.free_blocks;
    hide Inv, Pristine, SameRoots, SameLists;
    var r := a.Kalloc(sz);
    ghost var pg1 := a.pgmap[..];
    if r.None? {
      SameListsRefl(l0);
    } else {
      TakenPage(pg0, pg1, r.value / PAGESIZE, LeastOrder(sz, MIN_ORDER));
      a.Kfree(r);
      SameRootsTrans(pg0, pg1, a.pgmap[..]);
      KfreeUndoesKalloc(pg0, l0, pg1, a.pgmap[..], a.free_blocks, r.value / PAGESIZE, LeastOrder(sz, MIN_ORDER));
    }
  }

  lemma SameListsRefl(l: Lists)
    requires |l| == MAX_ORDER - MIN_ORDER + 1
    ensures SameLists(l, l)
  {
  }

  lemma TakenPage(pg: Pages, qg: Pages, p: nat, o: nat)
    requires Allocated(pg, qg, p, o)
    ensures p < |qg| && !qg[p].free && qg[p].returned && p in Live(qg)
  {
    assert p in Live(qg);
    assert In(p, p, PageCount(o));
  }

  /** With no live block every managed page is free, so coalescing has rebuilt the roots. */
  lemma NothingLiveIsRoots(pg: Pages, lists: Lists)
    requires Valid(pg, lists) && Live(pg) == map[]
    ensures ListsAreRoots(pg, lists)
  {
    forall x: nat | x < |pg| && pg[x].Managed() ensures pg[x].free {
      if !pg[x].free {
        TakenIsLive(pg, lists, x);
      }
    }
    AllFreeIsRoots(pg, lists);
  }

  datatype Op = Alloc(sz: nat) | Free(k: nat)

  method RunAlloc(a: BuddyAllocator, blks: seq<nat>, sz: nat) returns (blks': seq<nat>)
    requires a.ValidState() && Outstanding(a.pgmap[..], blks)
    modifies a`free_blocks, a.pgmap
    ensures a.ValidState() && a.pgmap == old(a.pgmap) && SameRoots(old(a.pgmap[..]), a.pgmap[..])
    ensures Outstanding(a.pgmap[..], blks')
  {
    ghost var pg := a.pgmap[..];
    hide Inv, Pristine, SameRoots;
    var r := a.Kalloc(sz);
    if r.Some? {
      BlockAdded(pg, a.pgmap[..], blks, r.value / PAGESIZE, LeastOrder(sz, MIN_ORDER));
      blks' := blks + [r.value / PAGESIZE];
    } else {
      blks' := blks;
    }
  }

  method RunFree(a: BuddyAllocator, blks: seq<nat>, k: nat) returns (blks': seq<nat>)
    requires a.ValidState() && Outstanding(a.pgmap[..], blks) && k < |blks|
    modifies a`free_blocks, a.pgmap
    ensures a.ValidState() && a.pgmap == old(a.pgmap) && SameRoots(old(a.pgmap[..]), a.pgmap[..])
    ensures Outstanding(a.pgmap[..], blks')
  {
    ghost var pg := a.pgmap[..];
    assert blks[k] in blks;
    LiveIsTaken(pg, a.free_blocks, blks[k]);
    hide Inv, Pristine, SameRoots;
    a.Kfree(Some(blks[k] * PAGESIZE));
    BlockRemoved(pg, a.pgmap[..], blks, k);
    blks' := RemoveAt(blks, k);
  }

  /** Any sequence of allocations and releases of outstanding blocks. When every block has been released, the free
      lists hold exactly the root blocks again, as at the start. */
  method Run(a: BuddyAllocator, ops: seq<Op>) returns (blks: seq<nat>)
    requires a.ValidState() && Live(a.pgmap[..]) == map[]
    modifies a`free_blocks, a.pgmap
    ensures a.ValidState() && a.pgmap == old(a.pgmap) && SameRoots(old(a.pgmap[..]), a.pgmap[..])
    ensures Outstanding(a.pgmap[..], blks)
    ensures blks == [] ==> ListsAreRoots(a.pgmap[..], a.free_blocks) && SameLists(old(a.free_blocks), a.free_blocks)
  {
    ghost var pg0, l0 := a.pgmap[..], a.free_blocks;
    hide Inv, Pristine;
    assert SameRoots(pg0, pg0);
    hide SameRoots, SameLists, ListsAreRoots, Live;
    blks := [];
    for i := 0 to |ops|
      invariant a.ValidState() && a.pgmap == old(a.pgmap) && SameRoots(pg0, a.pgmap[..])
      invariant Outstanding(a.pgmap[..], blks)
    {
      ghost var pg1 := a.pgmap[..];
      match ops[i] {
        case Alloc(sz) =>
          blks := RunAlloc(a, blks, sz);
          SameRootsTrans(pg0, pg1, a.pgmap[..]);
        case Free(k) =>
          if k < |blks| {
            blks := RunFree(a, blks, k);
            SameRootsTrans(pg0, pg1, a.pgmap[..]);
          }
      }
    }
    if blks == [] {
      NoneOutstanding(pg0, l0, a.pgmap[..], a.free_blocks);
    }
  }

  lemma NothingLiveAtStart(pg: Pages, lists: Lists)
    requires Valid(pg, lists) && AllFree(pg)
    ensures Live(pg) == map[]
  {
    forall p | p in Live(pg) ensures false {
      BlockFacts(pg, lists, p);
    }
  }

  lemma SameAvailable(pg: Pages, qg: Pages, ranges: seq<MemRange>)
    requires SameRoots(pg, qg)
    requires forall p :: 0 <= p < |pg| ==> (pg[p].Managed() <==> Available(ranges, p))
    ensures forall p :: 0 <= p < |qg| ==> (qg[p].Managed() <==> Available(ranges, p))
  {
  }

  lemma SameLargest(pg: Pages, qg: Pages, ranges: seq<MemRange>)
    requires SameRoots(pg, qg) && LargestFirst(pg, ranges)
    ensures LargestFirst(qg, ranges)
  {
  }

  /** Some available range has `n` bytes. */
  ghost predicate RangeHolds(ranges: seq<MemRange>, n: nat) {
    exists i :: 0 <= i < |ranges| && ranges[i].available && n <= ranges[i].last - ranges[i].first
  }

  /** With nothing allocated, a block of order `o` can be had exactly if some available range is that large. */
  lemma FreshFits(pg: Pages, lists: Lists, ranges: seq<MemRange>, o: nat)
    requires Valid(pg, lists) && AllFree(pg) && LargestFirst(pg, ranges) && RangesOk(ranges, |pg|)
    requires forall p :: 0 <= p < |pg| ==> (pg[p].Managed() <==> Available(ranges, p))
    requires MIN_ORDER <= o <= MAX_ORDER
    ensures HasFreeBlock(lists, o) <==> RangeHolds(ranges, Pow2(o))
  {
    AllFreeIsRoots(pg, lists);
    if HasFreeBlock(lists, o) {
      var k :| OrderIndex(lists, k) && o <= k && ListOf(lists, k) != [];
      assert ListOf(lists, k)[0] in ListOf(lists, k);
      hide *;
      RootInRange(pg, ranges, ListOf(lists, k)[0], o);
    }
    hide Inv, LargestFirst, AllFree, Pow2, RangesOk;
    if i :| 0 <= i < |ranges| && ranges[i].available && Pow2(o) <= ranges[i].last - ranges[i].first {
      Pow2Positive(o);
      RootAtStart(pg, lists, ranges, i);
      RootIsListed(lists, pg, ranges[i].first / PAGESIZE, o, ranges[i].last - ranges[i].first);
    }
  }

  lemma Pow2Positive(o: nat)
    ensures Pow2(o) > 0
  {
  }

  lemma RootIsListed(lists: Lists, pg: Pages, p: nat, o: nat, room: nat)
    requires |lists| == MAX_ORDER - MIN_ORDER + 1 && MIN_ORDER <= o && p < |pg| && pg[p].r_ord <= MAX_ORDER
    requires Pow2(o) <= room < Pow2(pg[p].r_ord + 1)
    requires OrderIndex(lists, pg[p].r_ord) ==> p in ListOf(lists, pg[p].r_ord)
    ensures HasFreeBlock(lists, o)
  {
    hide Pow2;
    var k := pg[p].r_ord;
    if k < o { Pow2Mono(k + 1, o); }
    assert OrderIndex(lists, k);
  }

  /** The range that a root block lies in is as large as the block. */
  lemma RootInRange(pg: Pages, ranges: seq<MemRange>, p: nat, o: nat)
    requires LargestFirst(pg, ranges) && p < |pg| && pg[p].Managed() && Available(ranges, p) && o <= pg[p].r_ord
    ensures RangeHolds(ranges, Pow2(o))
  {
    var i :| 0 <= i < |ranges| && ranges[i].available && ranges[i].first <= p * PAGESIZE < ranges[i].last;
    assert InRange(ranges[i], p);
    Pow2Mono(o, pg[p].r_ord);
  }

  /** The first page of an available range starts a root block. */
  lemma RootAtStart(pg: Pages, lists: Lists, ranges: seq<MemRange>, i: nat)
    requires Valid(pg, lists) && LargestFirst(pg, ranges) && RangesOk(ranges, |pg|)
    requires forall p :: 0 <= p < |pg| ==> (pg[p].Managed() <==> Available(ranges, p))
    requires i < |ranges| && ranges[i].available && ranges[i].first < ranges[i].last
    ensures var p := ranges[i].first / PAGESIZE;
            && p < |pg| && pg[p].Managed() && pg[p].Root() == p && pg[p].r_ord <= MAX_ORDER
            && ranges[i].last - ranges[i].first < Pow2(pg[p].r_ord + 1)
  {
    var p := ranges[i].first / PAGESIZE;
    assert p * PAGESIZE == ranges[i].first && p < |pg|;
    assert InRange(ranges[i], p) && Available(ranges, p);
    BlockFacts(pg, lists, p);
    hide Inv;
  }

  /** The first request after `init_kalloc` is met exactly if its block fits an available range. */
  method FirstKalloc(ranges: seq<MemRange>, sz: nat) returns (a: BuddyAllocator, r: Option<nat>)
    requires RangesOk(ranges, 512)
    ensures r.Some? <==> 0 < sz <= Pow2(MAX_ORDER) && RangeHolds(ranges, Pow2(LeastOrder(sz, MIN_ORDER)))
  {
    hide Inv, Pristine, HasFreeBlock, RangeHolds, Allocated, BestFit, Pow2, LeastOrder;
    a := new BuddyAllocator();
    a.InitKalloc(ranges);
    if 0 < sz <= Pow2(MAX_ORDER) {
      LeastOrderFits(sz);
      FreshFits(a.pgmap[..], a.free_blocks, ranges, LeastOrder(sz, MIN_ORDER));
    }
    r := a.Kalloc(sz);
  }

  lemma LeastOrderFits(sz: nat)
    requires sz <= Pow2(MAX_ORDER)
    ensures LeastOrder(sz, MIN_ORDER) <= MAX_ORDER
  {
    hide LeastOrder, Pow2;
    var o := LeastOrder(sz, MIN_ORDER);
    if o > MAX_ORDER { Pow2Mono(MAX_ORDER, o - 1); }
  }

  /** From `init_kalloc` on: whatever was allocated and released, exactly the available pages are managed, live blocks
      are those outstanding, and once there are none the free lists hold the root blocks that `init_kalloc` carved. */
  method RunFromStart(ranges: seq<MemRange>, ops: seq<Op>) returns (a: BuddyAllocator, blks: seq<nat>)
    requires RangesOk(ranges, 512)
    ensures a.ValidState() && Outstanding(a.pgmap[..], blks)
    ensures forall p :: 0 <= p < a.pgmap.Length ==> (a.pgmap[p].Managed() <==> Available(ranges, p))
    ensures LargestFirst(a.pgmap[..], ranges)
    ensures blks == [] ==> ListsAreRoots(a.pgmap[..], a.free_blocks)
  {
    a := new BuddyAllocator();
    a.InitKalloc(ranges);
    ghost var pg := a.pgmap[..];
    NothingLiveAtStart(pg, a.free_blocks);
    hide Inv, Pristine, ListsAreRoots, Live, SameRoots, LargestFirst;
    blks := Run(a, ops);
    SameAvailable(pg, a.pgmap[..], ranges);
    SameLargest(pg, a.pgmap[..], ranges);
  }

  /** Once nothing is outstanding the allocator is back where it started. */
  lemma NoneOutstanding(pg0: Pages, l0: Lists, pg: Pages, lists: Lists)
    requires |l0| == |lists| == MAX_ORDER - MIN_ORDER + 1
    requires Valid(pg0, l0) && Valid(pg, lists) && SameRoots(pg0, pg)
    requires Live(pg0) == map[] && Outstanding(pg, [])
    ensures ListsAreRoots(pg, lists) && SameLists(l0, lists)
  {
    hide Inv, SameRoots, SameLists;
    assert Live(pg) == map[] by {
      hide Live;
      assert forall p :: p !in Live(pg);
    }
    NothingLiveIsRoots(pg, lists);
    LiveDeterminesFree(pg0, l0, pg, lists);
    SameListsIntro(l0, lists);
  }

  lemma SameListsIntro(l1: Lists, l2: Lists)
    requires |l1| == |l2| == MAX_ORDER - MIN_ORDER + 1
    requires forall o, p: nat :: OrderIndex(l1, o) ==> (p in ListOf(l1, o) <==> p in ListOf(l2, o))
    ensures SameLists(l1, l2)
  {
  }

  /** `blks` lists the first pages of the live blocks, once each. */
  ghost predicate Outstanding(pg: Pages, blks: seq<nat>) {
    NoDup(blks) && forall p: nat :: p in blks <==> p in Live(pg)
  }

  lemma LiveIsTaken(pg: Pages, lists: Lists, p: nat)
    requires Valid(pg, lists) && p in Live(pg)
    ensures p < |pg| && !pg[p].free && pg[p].returned
  {
    BlockFacts(pg, lists, p);
  }

  lemma BlockAdded(pg: Pages, qg: Pages, blks: seq<nat>, p: nat, o: nat)
    requires Outstanding(pg, blks) && p !in Live(pg) && Live(qg) == Live(pg)[p := o]
    ensures Outstanding(qg, blks + [p])
  {
    hide Live;
  }

  lemma BlockRemoved(pg: Pages, qg: Pages, blks: seq<nat>, k: nat)
    requires Outstanding(pg, blks) && k < |blks| && Live(qg) == Live(pg) - {blks[k]}
    ensures Outstanding(qg, RemoveAt(blks, k))
  {
    hide Live;
    ListRemove(blks, k);
  }
}
