/** What the invariant of the buddy allocator means. */
module BuddyTheory {
  import opened Bits
  import opened BuddyState
  import opened BuddySteps

  ghost predicate SameRoots(pg: Pages, qg: Pages) {
    && |pg| == |qg|
    && forall p {:trigger pg[p]} {:trigger qg[p]} :: 0 <= p < |pg| ==>
         pg[p].r_ord == qg[p].r_ord && pg[p].r_addr == qg[p].r_addr
  }

  ghost predicate SameFree(pg: Pages, qg: Pages)
    requires |pg| == |qg|
  {
    forall p {:trigger pg[p]} {:trigger qg[p]} :: 0 <= p < |pg| && pg[p].Managed() ==> pg[p].free == qg[p].free
  }

  ghost predicate FreeRegion(pg: Pages, x: nat, o: nat) {
    && x < |pg| && pg[x].Managed() && pg[x].Root() <= x && MIN_ORDER <= o <= pg[x].r_ord
    && Aligned(x - pg[x].Root(), o - MIN_ORDER)
    && x + PageCount(o) <= |pg|
    && forall q :: In(q, x, PageCount(o)) ==> pg[q].free
  }

  lemma BlockFacts(pg: Pages, lists: Lists, p: nat)
    requires Valid(pg, lists) && p < |pg| && pg[p].Managed()
    ensures RootOk(pg, p) && BlockOk(pg, p, 0, 0) && MaximalAt(pg, p, 0, 0)
  {
  }

  /** The block around `p` contains the aligned region of any smaller order around `p`. */
  lemma Contains(b: Bapg, p: nat, o: nat)
    requires MIN_ORDER <= o <= b.ord && b.Root() <= p
    ensures var x := b.Root() + RoundDown(p - b.Root(), o - MIN_ORDER);
            HeadOf(b, p) <= x && x + PageCount(o) <= HeadOf(b, p) + PageCount(b.ord)
  {
    RoundDownNest(p - b.Root(), o - MIN_ORDER, b.ord - MIN_ORDER);
  }

  /** An aligned region whose pages are all free lies inside one free block: coalescing is maximal. */
  lemma {:induction false} WholeFree(pg: Pages, lists: Lists, x: nat, o: nat)
    requires Valid(pg, lists) && FreeRegion(pg, x, o)
    ensures pg[x].ord >= o
    decreases o
  {
    BlockFacts(pg, lists, x);
    hide RoundDown, Bit, Pow2;
    if o > MIN_ORDER {
      var n := PageCount(o - 1);
      var y := x + n;
      HalfCount(o);
      RegionHalves(pg, x, o);
      WholeFree(pg, lists, x, o - 1);
      WholeFree(pg, lists, y, o - 1);
      BlockFacts(pg, lists, y);
      hide Inv;
      NotSplit(pg, x, y, o);
    }
  }

  /** Two free halves are not both blocks of their own. */
  lemma NotSplit(pg: Pages, x: nat, y: nat, o: nat)
    requires FreeRegion(pg, x, o) && o > MIN_ORDER && y == x + PageCount(o - 1) < |pg| && pg[y].free
    requires BlockOk(pg, x, 0, 0) && MaximalAt(pg, x, 0, 0) && BlockOk(pg, y, 0, 0)
    requires pg[x].r_addr == pg[y].r_addr && o - 1 <= pg[x].ord && o - 1 <= pg[y].ord
    ensures pg[x].ord >= o
  {
    if pg[x].ord == o - 1 {
      BuddyOfHalf(pg[x], x, o - 1);
      HeadInside(pg[x], x, pg[x], x);
      hide RoundDown, Bit, Pow2;
      assert pg[y].ord >= o;
      BiggerBlock(pg, x, y, o);
    }
  }

  lemma RegionHalves(pg: Pages, x: nat, o: nat)
    requires FreeRegion(pg, x, o) && RootOk(pg, x) && o > MIN_ORDER
    ensures FreeRegion(pg, x, o - 1) && FreeRegion(pg, x + PageCount(o - 1), o - 1)
    ensures pg[x + PageCount(o - 1)].r_addr == pg[x].r_addr
  {
    var n, r := PageCount(o - 1), pg[x].Root();
    hide RoundDown, Pow2;
    HalfCount(o);
    Halves(x - r, o - 1 - MIN_ORDER);
    assert x + n - r == (x - r) + Pow2(o - 1 - MIN_ORDER);
    BlockInside(x - r, o - MIN_ORDER, pg[x].r_ord - MIN_ORDER);
    assert In(x + n, r, PageCount(pg[x].r_ord));
  }

  /** If the right half lies in a block of at least double size, so does the left half. */
  lemma BiggerBlock(pg: Pages, x: nat, y: nat, o: nat)
    requires o > MIN_ORDER && x < |pg| && y == x + PageCount(o - 1) < |pg|
    requires pg[x].r_addr == pg[y].r_addr && pg[x].Root() <= x
    requires Aligned(x - pg[x].Root(), o - MIN_ORDER)
    requires BlockOk(pg, y, 0, 0) && pg[y].ord >= o
    ensures pg[x].ord == pg[y].ord
  {
    HalfCount(o);
    AlignedBlockUnique(x - pg[x].Root(), y - pg[x].Root(), o - MIN_ORDER);
    Contains(pg[y], y, o);
    assert In(x, HeadOf(pg[y], y), PageCount(pg[y].ord));
  }

  /** Every page of a free block of one state lies in a free block of at least that order in any other state with the
      same roots and the same free pages. */
  lemma FreeBlockFits(pg: Pages, l1: Lists, qg: Pages, l2: Lists, p: nat)
    requires Valid(pg, l1) && Valid(qg, l2) && SameRoots(pg, qg) && SameFree(pg, qg)
    requires p < |pg| && pg[p].Managed() && pg[p].free
    ensures qg[p].ord >= pg[p].ord
  {
    var h, o := HeadOf(pg[p], p), pg[p].ord;
    BlockFacts(pg, l1, p);
    BlockPages(pg, p, 0, 0);
    HeadAligned(pg[p], p);
    assert pg[h].r_addr == pg[p].r_addr && pg[h].r_ord == pg[p].r_ord;
    assert qg[h].r_addr == pg[p].r_addr && qg[h].r_ord == pg[p].r_ord;
    forall q | In(q, h, PageCount(o)) ensures qg[q].free {
      assert pg[q].free && pg[q].Managed();
    }
    WholeFree(qg, l2, h, o);
    BlockFacts(qg, l2, h);
    hide Inv, Pow2, Bit, SameRoots, SameFree;
    Contains(qg[h], h, o);
    RoundsToSelf(qg[h], h, o);
    assert In(p, HeadOf(qg[h], h), PageCount(qg[h].ord));
  }

  lemma RoundsToSelf(b: Bapg, h: nat, o: nat)
    requires o >= MIN_ORDER && b.Root() <= h && Aligned(h - b.Root(), o - MIN_ORDER)
    ensures b.Root() + RoundDown(h - b.Root(), o - MIN_ORDER) == h
  {
  }

  /** Canonical form: two states of the allocator with the same roots and the same free pages have the same free
      blocks, whatever allocations and releases led to them. */
  lemma FreeBlocksAreCanonical(pg: Pages, l1: Lists, qg: Pages, l2: Lists)
    requires Valid(pg, l1) && Valid(qg, l2) && SameRoots(pg, qg) && SameFree(pg, qg)
    ensures forall o, p: nat :: OrderIndex(l1, o) ==> (p in ListOf(l1, o) <==> p in ListOf(l2, o))
  {
    forall o, p: nat | OrderIndex(l1, o) ensures p in ListOf(l1, o) <==> p in ListOf(l2, o) {
      assert ListOk(pg, ListOf(l1, o), o, 0, 0) && OrderIndex(l2, o) && ListOk(qg, ListOf(l2, o), o, 0, 0);
      if p < |pg| && pg[p].Managed() && pg[p].free {
        FreeBlockFits(pg, l1, qg, l2, p);
        FreeBlockFits(qg, l2, pg, l1, p);
        assert pg[p].r_addr == qg[p].r_addr;
      }
    }
  }

  /** When nothing is allocated, the free blocks are exactly the root blocks. */
  lemma AllFreeIsRoots(pg: Pages, lists: Lists)
    requires Valid(pg, lists)
    requires forall p :: 0 <= p < |pg| && pg[p].Managed() ==> pg[p].free
    ensures forall o, p: nat :: OrderIndex(lists, o) ==>
              (p in ListOf(lists, o) <==> p < |pg| && pg[p].Managed() && pg[p].Root() == p && pg[p].r_ord == o)
  {
    forall o, p: nat | OrderIndex(lists, o)
      ensures p in ListOf(lists, o) <==> p < |pg| && pg[p].Managed() && pg[p].Root() == p && pg[p].r_ord == o
    {
      assert ListOk(pg, ListOf(lists, o), o, 0, 0);
      if p < |pg| && pg[p].Managed() {
        BlockFacts(pg, lists, p);
        RootIsOneBlock(pg, lists, p);
      }
    }
  }

  lemma RootIsOneBlock(pg: Pages, lists: Lists, p: nat)
    requires Valid(pg, lists) && p < |pg| && pg[p].Managed() && RootOk(pg, p)
    requires forall q :: 0 <= q < |pg| && pg[q].Managed() ==> pg[q].free
    ensures pg[p].ord == pg[p].r_ord && HeadOf(pg[p], p) == pg[p].Root()
  {
    var r, o := pg[p].Root(), pg[p].r_ord;
    assert In(r, r, PageCount(o));
    assert pg[r].r_addr == pg[p].r_addr && pg[r].r_ord == o;
    ZeroAligned(o - MIN_ORDER);
    forall q | In(q, r, PageCount(o)) ensures pg[q].free {
      assert pg[q].Managed();
    }
    WholeFree(pg, lists, r, o);
    BlockFacts(pg, lists, r);
    AlignedBlockUnique(0, p - r, o - MIN_ORDER);
    HeadInside(pg[r], r, pg[r], r);
    assert In(p, HeadOf(pg[r], r), PageCount(pg[r].ord));
  }

  lemma {:induction false} ZeroAligned(k: nat)
    ensures Aligned(0, k)
  {
    if k > 0 { ZeroAligned(k - 1); }
  }

  // ----- Live allocations -----

  /** Blocks handed out and not yet released, by first page, with their orders. */
  ghost function Live(pg: Pages): map<nat, nat> {
    map p: nat | p < |pg| && pg[p].Managed() && pg[p].returned :: pg[p].ord
  }

  /** Live blocks are pairwise disjoint and consist of pages that are not free. */
  lemma LiveDisjoint(pg: Pages, lists: Lists, p: nat, q: nat, x: nat)
    requires Valid(pg, lists) && p in Live(pg) && q in Live(pg)
    requires In(x, p, PageCount(Live(pg)[p])) && In(x, q, PageCount(Live(pg)[q]))
    ensures p == q && x < |pg| && !pg[x].free
  {
    BlockFacts(pg, lists, p);
    BlockFacts(pg, lists, q);
    BlockPages(pg, p, 0, 0);
    BlockPages(pg, q, 0, 0);
  }

  /** Every managed page that is not free belongs to a live block. */
  lemma TakenIsLive(pg: Pages, lists: Lists, x: nat)
    requires Valid(pg, lists) && x < |pg| && pg[x].Managed() && !pg[x].free
    ensures exists p :: p in Live(pg) && In(x, p, PageCount(Live(pg)[p]))
  {
    BlockFacts(pg, lists, x);
    BlockPages(pg, x, 0, 0);
    var h := HeadOf(pg[x], x);
    assert pg[h].Managed();
    BlockFacts(pg, lists, h);
    assert h in Live(pg);
  }

  /** Two states with the same roots and the same live blocks have the same free blocks. */
  lemma LiveDeterminesFree(pg: Pages, l1: Lists, qg: Pages, l2: Lists)
    requires Valid(pg, l1) && Valid(qg, l2) && SameRoots(pg, qg) && Live(pg) == Live(qg)
    ensures forall o, p: nat :: OrderIndex(l1, o) ==> (p in ListOf(l1, o) <==> p in ListOf(l2, o))
  {
    forall x: nat | x < |pg| && pg[x].Managed() ensures pg[x].free == qg[x].free {
      assert qg[x].Managed();
      if !pg[x].free { LiveCovers(pg, l1, qg, l2, x); }
      if !qg[x].free { LiveCovers(qg, l2, pg, l1, x); }
    }
    FreeBlocksAreCanonical(pg, l1, qg, l2);
  }

  lemma LiveCovers(pg: Pages, l1: Lists, qg: Pages, l2: Lists, x: nat)
    requires Valid(pg, l1) && Valid(qg, l2) && SameRoots(pg, qg) && Live(pg) == Live(qg)
    requires x < |pg| && pg[x].Managed() && !pg[x].free
    ensures !qg[x].free
  {
    TakenIsLive(pg, l1, x);
    var p :| p in Live(pg) && In(x, p, PageCount(Live(pg)[p]));
    LiveDisjoint(qg, l2, p, p, x);
  }

  // ----- When a request can be met -----

  ghost predicate HasFreeBlock(lists: Lists, o: nat)
    requires |lists| == MAX_ORDER - MIN_ORDER + 1
  {
    exists k :: OrderIndex(lists, k) && o <= k && ListOf(lists, k) != []
  }

  /** Some free block is large enough exactly when some aligned region of that order is free. */
  lemma FitsIffRegionFree(pg: Pages, lists: Lists, o: nat)
    requires Valid(pg, lists) && MIN_ORDER <= o <= MAX_ORDER
    ensures HasFreeBlock(lists, o) <==> exists x: nat :: FreeRegion(pg, x, o)
  {
    if HasFreeBlock(lists, o) {
      var k :| OrderIndex(lists, k) && o <= k && ListOf(lists, k) != [];
      var h := ListOf(lists, k)[0];
      assert h in ListOf(lists, k);
      assert ListOk(pg, ListOf(lists, k), k, 0, 0);
      HeadRegion(pg, lists, h, o);
    }
    if x: nat :| FreeRegion(pg, x, o) {
      WholeFree(pg, lists, x, o);
      BlockFacts(pg, lists, x);
      BlockPages(pg, x, 0, 0);
      var h, k := HeadOf(pg[x], x), pg[x].ord;
      assert IsFreeHead(pg, h, k);
      assert OrderIndex(lists, k) && ListOk(pg, ListOf(lists, k), k, 0, 0);
    }
  }

  lemma HeadRegion(pg: Pages, lists: Lists, h: nat, o: nat)
    requires Valid(pg, lists) && h < |pg| && pg[h].Managed() && pg[h].free && HeadOf(pg[h], h) == h
    requires MIN_ORDER <= o <= pg[h].ord
    ensures FreeRegion(pg, h, o)
  {
    BlockFacts(pg, lists, h);
    HeadAligned(pg[h], h);
    Pow2Mono(o - MIN_ORDER, pg[h].ord - MIN_ORDER);
    AlignedWeaken(h - pg[h].Root(), o - MIN_ORDER, pg[h].ord - MIN_ORDER);
  }

  // ----- Adding a root block -----

  /** Pages that belong to no root block have the all-zero record. */
  ghost predicate Pristine(pg: Pages) {
    forall p :: 0 <= p < |pg| && !pg[p].Managed() ==> pg[p] == Bapg(false, false, 0, 0, 0)
  }

  ghost predicate AllFree(pg: Pages) {
    forall p :: 0 <= p < |pg| && pg[p].Managed() ==> pg[p].free
  }

  ghost predicate Unmanaged(pg: Pages, a: nat, n: nat) {
    a + n <= |pg| && forall p :: In(p, a, n) ==> !pg[p].Managed()
  }

  lemma AddRoot(pg: Pages, lists: Lists, a: nat, o: nat)
    requires Valid(pg, lists) && Pristine(pg) && AllFree(pg) && OrderIndex(lists, o)
    requires Unmanaged(pg, a, PageCount(o))
    ensures var pg' := SetRoot(pg, a, PageCount(o), o);
            Valid(pg', PushBack(lists, o, a)) && Pristine(pg') && AllFree(pg')
  {
    var n := PageCount(o);
    var pg' := SetRoot(pg, a, n, o);
    var l' := PushBack(lists, o, a);
    forall p: nat | p < |pg'| && pg'[p].Managed()
      ensures RootOk(pg', p) && BlockOk(pg', p, 0, 0) && MaximalAt(pg', p, 0, 0)
    {
      if In(p, a, n) {
        NewRootPage(pg, a, o, p);
      } else {
        BlockFacts(pg, lists, p);
        OldRootPage(pg, a, o, p);
      }
    }
    forall k | OrderIndex(l', k) ensures ListOk(pg', ListOf(l', k), k, 0, 0) {
      assert ListOk(pg, ListOf(lists, k), k, 0, 0);
      NewRootList(pg, lists, a, o, k);
    }
  }

  lemma NewRootPage(pg: Pages, a: nat, o: nat, p: nat)
    requires Pristine(pg) && MIN_ORDER <= o <= MAX_ORDER && Unmanaged(pg, a, PageCount(o)) && In(p, a, PageCount(o))
    ensures var pg' := SetRoot(pg, a, PageCount(o), o);
            HeadOf(pg'[p], p) == a && RootOk(pg', p) && BlockOk(pg', p, 0, 0) && MaximalAt(pg', p, 0, 0)
  {
    var pg' := SetRoot(pg, a, PageCount(o), o);
    ZeroAligned(o - MIN_ORDER);
    HeadInside(pg'[p], a, pg'[p], p);
    assert !pg[p].Managed();
  }

  lemma OldRootPage(pg: Pages, a: nat, o: nat, p: nat)
    requires MIN_ORDER <= o && Unmanaged(pg, a, PageCount(o)) && !In(p, a, PageCount(o))
    requires p < |pg| && pg[p].Managed() && RootOk(pg, p) && BlockOk(pg, p, 0, 0) && MaximalAt(pg, p, 0, 0)
    ensures var pg' := SetRoot(pg, a, PageCount(o), o);
            RootOk(pg', p) && BlockOk(pg', p, 0, 0) && MaximalAt(pg', p, 0, 0)
  {
    var pg' := SetRoot(pg, a, PageCount(o), o);
    forall q | In(q, pg[p].Root(), PageCount(pg[p].r_ord)) ensures pg'[q] == pg[q] {
      assert pg[q].Managed();
    }
    BlockPages(pg, p, 0, 0);
    if pg[p].free && HeadOf(pg[p], p) == p && pg[p].ord < pg[p].r_ord {
      HeadAligned(pg[p], p);
      BuddyFacts(pg, p, pg[p].ord);
      assert In(BuddyOf(pg[p], p), pg[p].Root(), PageCount(pg[p].r_ord));
    }
  }

  lemma NewRootList(pg: Pages, lists: Lists, a: nat, o: nat, k: nat)
    requires Pristine(pg) && OrderIndex(lists, o) && OrderIndex(lists, k) && Unmanaged(pg, a, PageCount(o))
    requires ListOk(pg, ListOf(lists, k), k, 0, 0)
    ensures ListOk(SetRoot(pg, a, PageCount(o), o), ListOf(PushBack(lists, o, a), k), k, 0, 0)
  {
    var pg' := SetRoot(pg, a, PageCount(o), o);
    var l, l' := ListOf(lists, k), ListOf(PushBack(lists, o, a), k);
    forall p: nat ensures p in l' <==> IsFreeHead(pg', p, k) {
      assert p in l <==> IsFreeHead(pg, p, k);
      if In(p, a, PageCount(o)) { NewRootPage(pg, a, o, p); }
    }
    assert !pg[a].Managed() && !IsFreeHead(pg, a, k);
  }
}
