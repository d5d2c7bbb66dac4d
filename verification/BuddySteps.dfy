/** What each step of an allocation or a release, split and merge included, does to the invariant. */
module BuddySteps {
  import opened Bits
  import opened BuddyState

  // ----- Taking a free block off its list opens a hole -----

  lemma TakeBlock(pg: Pages, lists: Lists, o: nat, i: nat)
    requires Valid(pg, lists) && OrderIndex(lists, o) && i < |ListOf(lists, o)|
    ensures var h := ListOf(lists, o)[i];
            && h < |pg| && Hole(pg, h, o) && Uniform(pg, h, o)
            && Inv(pg, DropAt(lists, o, i), h, PageCount(o))
  {
    var h := ListOf(lists, o)[i];
    assert h in ListOf(lists, o);
    assert IsFreeHead(pg, h, o);
    BlockIsHole(pg, lists, h);
    OthersAvoid(pg, lists, h, 0, 0);
    ListRemove(ListOf(lists, o), i);
    var l' := DropAt(lists, o, i);
    forall k | OrderIndex(lists, k) ensures ListOk(pg, ListOf(l', k), k, h, PageCount(o)) {
      forall p: nat ensures p in ListOf(l', k) <==> IsFreeHead(pg, p, k) && !In(p, h, PageCount(o)) {
        if IsFreeHead(pg, p, k) && In(p, h, PageCount(o)) { HeadsMeet(pg, lists, h, p); }
      }
    }
  }

  /** A free block has the shape of a hole. */
  lemma BlockIsHole(pg: Pages, lists: Lists, h: nat)
    requires Valid(pg, lists) && h < |pg| && pg[h].Managed() && HeadOf(pg[h], h) == h && pg[h].free
    ensures Hole(pg, h, pg[h].ord) && Uniform(pg, h, pg[h].ord)
  {
    BlockPages(pg, h, 0, 0);
    HeadAligned(pg[h], h);
    forall q | In(q, h, PageCount(pg[h].ord)) ensures !pg[q].returned && pg[q].free && pg[q].ord == pg[h].ord {
      assert pg[q].Managed();
      assert BlockOk(pg, q, 0, 0);
    }
  }

  /** A head inside another block is that block's head. */
  lemma HeadsMeet(pg: Pages, lists: Lists, h: nat, p: nat)
    requires Valid(pg, lists) && h < |pg| && pg[h].Managed() && HeadOf(pg[h], h) == h
    requires p < |pg| && HeadOf(pg[p], p) == p && In(p, h, PageCount(pg[h].ord))
    ensures p == h
  {
    BlockPages(pg, h, 0, 0);
  }

  /** Pages outside one block lie in blocks that do not meet it. */
  lemma OthersAvoid(pg: Pages, lists: Lists, h: nat, hs: nat, hn: nat)
    requires Inv(pg, lists, hs, hn) && h < |pg| && pg[h].Managed() && HeadOf(pg[h], h) == h
    requires hn == 0
    ensures forall p: nat, q ::
              (p < |pg| && pg[p].Managed() && !In(p, h, PageCount(pg[h].ord))
               && In(q, HeadOf(pg[p], p), PageCount(pg[p].ord))) ==> !In(q, h, PageCount(pg[h].ord))
  {
    forall p: nat, q | p < |pg| && pg[p].Managed() && !In(p, h, PageCount(pg[h].ord))
              && In(q, HeadOf(pg[p], p), PageCount(pg[p].ord))
      ensures !In(q, h, PageCount(pg[h].ord))
    {
      BlockPages(pg, p, hs, hn);
      BlockPages(pg, h, hs, hn);
    }
  }

  // ----- Buddies -----

  /** The buddy relation is symmetric, and both halves start inside the root. */
  lemma BuddyFacts(pg: Pages, p: nat, o: nat)
    requires p < |pg| && pg[p].Managed() && RootOk(pg, p)
    requires pg[p].ord == o && MIN_ORDER <= o < pg[p].r_ord
    requires Aligned(p - pg[p].Root(), o - MIN_ORDER)
    ensures var b := BuddyOf(pg[p], p);
            var m := if b < p then b else p;
            && pg[p].Root() <= m
            && m + PageCount(o + 1) <= pg[p].Root() + PageCount(pg[p].r_ord)
            && Aligned(m - pg[p].Root(), o + 1 - MIN_ORDER)
            && PageCount(o + 1) == 2 * PageCount(o)
            && (b == m || b == m + PageCount(o)) && (p == m || p == m + PageCount(o)) && b != p
            && Aligned(b - pg[p].Root(), o - MIN_ORDER)
  {
    hide Bit, Pow2, Aligned;
    Pair(p - pg[p].Root(), o - MIN_ORDER, pg[p].r_ord - MIN_ORDER);
  }

  /** Being the left (right) half of an aligned double block fixes the buddy. */
  lemma BuddyOfHalf(b: Bapg, m: nat, o: nat)
    requires b.Root() <= m && o >= MIN_ORDER && b.ord == o
    requires Aligned(m - b.Root(), o + 1 - MIN_ORDER)
    ensures BuddyOf(b, m) == m + PageCount(o)
    ensures BuddyOf(b, m + PageCount(o)) == m
    ensures Aligned(m - b.Root(), o - MIN_ORDER) && Aligned(m + PageCount(o) - b.Root(), o - MIN_ORDER)
  {
    Halves(m - b.Root(), o - MIN_ORDER);
    assert m + PageCount(o) - b.Root() == (m - b.Root()) + Pow2(o - MIN_ORDER);
  }

  // ----- Splitting a hole: its right half becomes a free block -----

  lemma HalfCount(o: nat)
    requires o > MIN_ORDER
    ensures PageCount(o) == 2 * PageCount(o - 1)
  {
  }

  function SplitPages(pg: Pages, h: nat, o: nat): (r: Pages)
    requires o > MIN_ORDER
    ensures |r| == |pg|
  {
    SetOrd(pg, h + PageCount(o - 1), PageCount(o - 1), o - 1)
  }

  lemma SplitPage(pg: Pages, lists: Lists, h: nat, o: nat, p: nat)
    requires Hole(pg, h, o) && o > MIN_ORDER && Inv(pg, lists, h, PageCount(o))
    requires p < |pg| && SplitPages(pg, h, o)[p].Managed()
    ensures var pg', n := SplitPages(pg, h, o), PageCount(o - 1);
            RootOk(pg', p) && (!In(p, h, n) ==> BlockOk(pg', p, h, n) && MaximalAt(pg', p, h, n))
  {
    var n := PageCount(o - 1);
    HalfCount(o);
    assert RootOk(pg, p);
    if In(p, h + n, n) {
      RightPage(pg, h, o, p);
    } else if !In(p, h, n) {
      assert BlockOk(pg, p, h, PageCount(o)) && MaximalAt(pg, p, h, PageCount(o));
      hide Inv, BlockOk, MaximalAt, PageCount;
      SplitBlock(pg, h, o, p);
      SplitMaximal(pg, h, o, p);
    }
  }

  lemma SplitHole(pg: Pages, lists: Lists, h: nat, o: nat)
    requires Hole(pg, h, o) && o > MIN_ORDER && OrderIndex(lists, o - 1)
    requires Inv(pg, lists, h, PageCount(o))
    ensures Hole(SplitPages(pg, h, o), h, o - 1)
    ensures Inv(SplitPages(pg, h, o), PushBack(lists, o - 1, h + PageCount(o - 1)), h, PageCount(o - 1))
  {
    var n := PageCount(o - 1);
    var pg' := SplitPages(pg, h, o);
    var l' := PushBack(lists, o - 1, h + n);
    HalfCount(o);
    HalfHole(pg, h, o);
    assert PageCount(o) == 2 * n;
    forall p: nat | p < |pg'| && pg'[p].Managed()
      ensures RootOk(pg', p) && (!In(p, h, n) ==> BlockOk(pg', p, h, n) && MaximalAt(pg', p, h, n))
    {
      SplitPage(pg, lists, h, o, p);
    }
    forall k | OrderIndex(l', k) ensures ListOk(pg', ListOf(l', k), k, h, n) {
      SplitList(pg, lists, h, o, k);
    }
    hide BlockOk, MaximalAt, RootOk, ListOk, PageCount, SplitPages;
  }

  lemma HalfHole(pg: Pages, h: nat, o: nat)
    requires Hole(pg, h, o) && o > MIN_ORDER
    ensures Hole(SplitPages(pg, h, o), h, o - 1)
  {
    HalfCount(o);
    AlignedWeaken(h - pg[h].Root(), o - 1 - MIN_ORDER, o - MIN_ORDER);
  }

  /** Every page of the right half belongs to one free block, whose buddy is the left half. */
  lemma RightPage(pg: Pages, h: nat, o: nat, p: nat)
    requires Hole(pg, h, o) && o > MIN_ORDER && In(p, h + PageCount(o - 1), PageCount(o - 1))
    ensures p < |pg| && HeadOf(SplitPages(pg, h, o)[p], p) == h + PageCount(o - 1)
    ensures BlockOk(SplitPages(pg, h, o), p, h, PageCount(o - 1))
    ensures MaximalAt(SplitPages(pg, h, o), p, h, PageCount(o - 1))
  {
    var n := PageCount(o - 1);
    HalfCount(o);
    var pg' := SplitPages(pg, h, o);
    var b := pg'[p];
    assert b.ord == o - 1 && b.free && !b.returned && b.r_addr == pg[h].r_addr;
    BuddyOfHalf(b, h, o - 1);
    HeadInside(b, h + n, b, p);
  }

  lemma SplitBlock(pg: Pages, h: nat, o: nat, p: nat)
    requires o > MIN_ORDER && h + PageCount(o) <= |pg|
    requires p < |pg| && !In(p, h, PageCount(o)) && BlockOk(pg, p, h, PageCount(o))
    ensures BlockOk(SplitPages(pg, h, o), p, h, PageCount(o - 1))
  {
    HalfCount(o);
  }

  lemma SplitMaximal(pg: Pages, h: nat, o: nat, p: nat)
    requires Hole(pg, h, o) && o > MIN_ORDER
    requires p < |pg| && pg[p].Managed() && !In(p, h, PageCount(o)) && RootOk(pg, p)
    requires MIN_ORDER <= pg[p].ord && MaximalAt(pg, p, h, PageCount(o))
    ensures MaximalAt(SplitPages(pg, h, o), p, h, PageCount(o - 1))
  {
    HalfCount(o);
    var n := PageCount(o - 1);
    if HeadOf(pg[p], p) == p && pg[p].ord == o - 1 && pg[p].ord < pg[p].r_ord && In(BuddyOf(pg[p], p), h + n, n) {
      HeadAligned(pg[p], p);
      BuddyInHole(pg, h, o, p);
    }
  }

  /** A block outside an aligned double block has its buddy outside it as well. */
  lemma BuddyOutside(b: Bapg, p: nat, h: nat, o: nat)
    requires o > MIN_ORDER && b.ord == o - 1 && b.Root() <= h && b.Root() <= p
    requires Aligned(h - b.Root(), o - MIN_ORDER) && Aligned(p - b.Root(), o - 1 - MIN_ORDER)
    requires !In(p, h, PageCount(o))
    ensures !In(BuddyOf(b, p), h, PageCount(o))
  {
    hide Bit, Pow2, Aligned;
    HalfCount(o);
    PairOutside(h - b.Root(), p - b.Root(), o - 1 - MIN_ORDER);
  }

  lemma BuddyInHole(pg: Pages, h: nat, o: nat, p: nat)
    requires Hole(pg, h, o) && o > MIN_ORDER
    requires p < |pg| && pg[p].Managed() && !In(p, h, PageCount(o)) && RootOk(pg, p)
    requires pg[p].ord == o - 1 && Aligned(p - pg[p].Root(), o - 1 - MIN_ORDER) && o - 1 < pg[p].r_ord
    ensures !In(BuddyOf(pg[p], p), h + PageCount(o - 1), PageCount(o - 1))
  {
    BuddyFacts(pg, p, o - 1);
    HalfCount(o);
    var b := BuddyOf(pg[p], p);
    if In(b, h, PageCount(o)) {
      assert pg[b].r_addr == pg[p].r_addr && pg[b].r_addr == pg[h].r_addr;
      BuddyOutside(pg[p], p, h, o);
    }
  }

  lemma SplitList(pg: Pages, lists: Lists, h: nat, o: nat, k: nat)
    requires Hole(pg, h, o) && o > MIN_ORDER && OrderIndex(lists, o - 1) && OrderIndex(lists, k)
    requires ListOk(pg, ListOf(lists, k), k, h, PageCount(o))
    ensures ListOk(SplitPages(pg, h, o), ListOf(PushBack(lists, o - 1, h + PageCount(o - 1)), k), k, h,
            PageCount(o - 1))
  {
    HalfCount(o);
    var n := PageCount(o - 1);
    var pg' := SplitPages(pg, h, o);
    var l, l' := ListOf(lists, k), ListOf(PushBack(lists, o - 1, h + n), k);
    forall p: nat ensures p in l' <==> IsFreeHead(pg', p, k) && !In(p, h, n) {
      assert p in l <==> IsFreeHead(pg, p, k) && !In(p, h, PageCount(o));
      if In(p, h + n, n) { RightPage(pg, h, o, p); }
    }
    assert h + n in l ==> !In(h + n, h, PageCount(o));
  }

  // ----- Closing a hole as an allocated block -----

  function AllocPages(pg: Pages, h: nat, o: nat): (r: Pages)
    requires h < |pg|
    ensures |r| == |pg|
    ensures forall i {:trigger r[i]} :: 0 <= i < |pg| ==>
              r[i] == if In(i, h, PageCount(o))
                  then pg[i].(free := false, ord := o, returned := i == h || pg[i].returned)
                      else pg[i]
  {
    SetOrd(SetFree(SetReturned(pg, h, true), h, PageCount(o), false), h, PageCount(o), o)
  }

  lemma CloseAllocated(pg: Pages, lists: Lists, h: nat, o: nat)
    requires Hole(pg, h, o) && Inv(pg, lists, h, PageCount(o))
    ensures Valid(AllocPages(pg, h, o), lists)
  {
    var n := PageCount(o);
    var pg' := AllocPages(pg, h, o);
    forall p: nat | p < |pg'| && pg'[p].Managed() ensures RootOk(pg', p) {
      assert RootOk(pg, p);
    }
    forall p: nat | p < |pg'| && pg'[p].Managed() ensures BlockOk(pg', p, 0, 0) && MaximalAt(pg', p, 0, 0) {
      if In(p, h, n) {
        AllocatedPage(pg, h, o, p);
      } else {
        assert BlockOk(pg, p, h, n) && MaximalAt(pg, p, h, n);
        AllocatedBlock(pg, h, o, p);
      }
    }
    forall k | OrderIndex(lists, k) ensures ListOk(pg', ListOf(lists, k), k, 0, 0) {
      assert ListOk(pg, ListOf(lists, k), k, h, n);
      forall p: nat ensures p in ListOf(lists, k) <==> IsFreeHead(pg', p, k) {
        if In(p, h, n) { assert !pg'[p].free; }
      }
    }
  }

  lemma AllocatedPage(pg: Pages, h: nat, o: nat, p: nat)
    requires Hole(pg, h, o) && In(p, h, PageCount(o))
    ensures BlockOk(AllocPages(pg, h, o), p, 0, 0) && MaximalAt(AllocPages(pg, h, o), p, 0, 0)
  {
    var pg' := AllocPages(pg, h, o);
    HeadInside(pg'[h], h, pg'[p], p);
    assert pg[p].r_addr == pg[h].r_addr;
  }

  lemma AllocatedBlock(pg: Pages, h: nat, o: nat, p: nat)
    requires h < |pg| && p < |pg| && !In(p, h, PageCount(o))
    requires BlockOk(pg, p, h, PageCount(o)) && MaximalAt(pg, p, h, PageCount(o))
    ensures BlockOk(AllocPages(pg, h, o), p, 0, 0) && MaximalAt(AllocPages(pg, h, o), p, 0, 0)
  {
  }

  // ----- Releasing an allocated block opens a hole -----

  function ReleasePages(pg: Pages, h: nat): (r: Pages)
    requires h < |pg|
    ensures |r| == |pg|
    ensures forall i {:trigger r[i]} :: 0 <= i < |pg| ==>
              r[i] == if In(i, h, PageCount(pg[h].ord)) then pg[i].(free := true, returned := i != h && pg[i].returned)
                      else pg[i]
  {
    SetFree(SetReturned(pg, h, false), h, PageCount(pg[h].ord), true)
  }

  lemma OpenAllocated(pg: Pages, lists: Lists, h: nat)
    requires Valid(pg, lists) && h < |pg| && pg[h].Managed() && !pg[h].free && pg[h].returned
    ensures var o := pg[h].ord; var pg' := ReleasePages(pg, h);
            && MIN_ORDER <= o <= MAX_ORDER
            && Hole(pg', h, o) && Uniform(pg', h, o) && Inv(pg', lists, h, PageCount(o))
  {
    var o, n := pg[h].ord, PageCount(pg[h].ord);
    var pg' := ReleasePages(pg, h);
    assert RootOk(pg, h) && BlockOk(pg, h, 0, 0);
    ReleasedHole(pg, lists, h);
    OthersAvoid(pg, lists, h, 0, 0);
    forall p: nat | p < |pg'| && pg'[p].Managed() ensures RootOk(pg', p) {
      assert RootOk(pg, p);
    }
    forall p: nat | p < |pg'| && pg'[p].Managed() && !In(p, h, n)
      ensures BlockOk(pg', p, h, n) && MaximalAt(pg', p, h, n)
    {
      assert BlockOk(pg, p, 0, 0) && MaximalAt(pg, p, 0, 0);
      ReleasedBlock(pg, h, p);
    }
    forall k | OrderIndex(lists, k) ensures ListOk(pg', ListOf(lists, k), k, h, n) {
      assert ListOk(pg, ListOf(lists, k), k, 0, 0);
      forall p: nat ensures p in ListOf(lists, k) <==> IsFreeHead(pg', p, k) && !In(p, h, n) {
        if In(p, h, n) { assert pg[p].free == pg[h].free; }
      }
    }
  }

  lemma ReleasedHole(pg: Pages, lists: Lists, h: nat)
    requires Valid(pg, lists) && h < |pg| && pg[h].Managed() && !pg[h].free && pg[h].returned
    ensures Hole(ReleasePages(pg, h), h, pg[h].ord) && Uniform(ReleasePages(pg, h), h, pg[h].ord)
  {
    var o := pg[h].ord;
    var pg' := ReleasePages(pg, h);
    assert RootOk(pg, h) && BlockOk(pg, h, 0, 0);
    BlockPages(pg, h, 0, 0);
    HeadAligned(pg[h], h);
    forall q | In(q, h, PageCount(o)) ensures !pg'[q].returned && pg'[q].ord == o {
      assert pg[q].Managed() && BlockOk(pg, q, 0, 0);
    }
    assert RootOk(pg', h);
  }

  lemma ReleasedBlock(pg: Pages, h: nat, p: nat)
    requires h < |pg| && p < |pg| && !In(p, h, PageCount(pg[h].ord))
    requires BlockOk(pg, p, 0, 0) && MaximalAt(pg, p, 0, 0)
    requires forall q :: In(q, HeadOf(pg[p], p), PageCount(pg[p].ord)) ==> !In(q, h, PageCount(pg[h].ord))
    ensures BlockOk(ReleasePages(pg, h), p, h, PageCount(pg[h].ord))
    ensures MaximalAt(ReleasePages(pg, h), p, h, PageCount(pg[h].ord))
  {
  }

  // ----- Closing a hole as a free block -----

  lemma CloseFree(pg: Pages, lists: Lists, h: nat, o: nat)
    requires Hole(pg, h, o) && Uniform(pg, h, o) && Inv(pg, lists, h, PageCount(o)) && OrderIndex(lists, o)
    requires o == pg[h].r_ord || (var b := BuddyOf(pg[h], h);
                                  !(0 <= b < |pg| && pg[b].free && pg[b].ord == o))
    ensures Valid(pg, PushBack(lists, o, h))
  {
    var n := PageCount(o);
    var l' := PushBack(lists, o, h);
    forall p: nat | p < |pg| && pg[p].Managed() ensures BlockOk(pg, p, 0, 0) && MaximalAt(pg, p, 0, 0) {
      if In(p, h, n) {
        HoleHead(pg, h, o, p);
      } else {
        assert RootOk(pg, p) && BlockOk(pg, p, h, n) && MaximalAt(pg, p, h, n);
        BuddyIsHole(pg, h, o, p);
      }
    }
    forall k | OrderIndex(l', k) ensures ListOk(pg, ListOf(l', k), k, 0, 0) {
      ClosedList(pg, lists, h, o, k);
    }
  }

  lemma HoleHead(pg: Pages, h: nat, o: nat, p: nat)
    requires Hole(pg, h, o) && Uniform(pg, h, o) && In(p, h, PageCount(o))
    requires o == pg[h].r_ord || (var b := BuddyOf(pg[h], h);
                                  !(0 <= b < |pg| && pg[b].free && pg[b].ord == o))
    ensures HeadOf(pg[p], p) == h && BlockOk(pg, p, 0, 0) && MaximalAt(pg, p, 0, 0)
  {
    HeadInside(pg[h], h, pg[p], p);
  }

  /** A block whose buddy meets an aligned block of the same order is that block's buddy. */
  lemma Mutual(b: Bapg, p: nat, h: nat, o: nat)
    requires o >= MIN_ORDER && b.ord == o && b.Root() <= h && b.Root() <= p
    requires Aligned(h - b.Root(), o - MIN_ORDER) && Aligned(p - b.Root(), o - MIN_ORDER)
    requires In(BuddyOf(b, p), h, PageCount(o))
    ensures BuddyOf(b, p) == h && BuddyOf(b, h) == p
  {
    hide Bit, Pow2, Aligned;
    PairMutual(h - b.Root(), p - b.Root(), o - MIN_ORDER);
  }

  lemma BuddyIsHole(pg: Pages, h: nat, o: nat, p: nat)
    requires Hole(pg, h, o) && Uniform(pg, h, o)
    requires o == pg[h].r_ord || (var b := BuddyOf(pg[h], h);
                                  !(0 <= b < |pg| && pg[b].free && pg[b].ord == o))
    requires p < |pg| && pg[p].Managed() && !In(p, h, PageCount(o)) && RootOk(pg, p)
    requires BlockOk(pg, p, h, PageCount(o)) && MaximalAt(pg, p, h, PageCount(o))
    ensures MaximalAt(pg, p, 0, 0)
  {
    var b := BuddyOf(pg[p], p);
    if pg[p].free && HeadOf(pg[p], p) == p && pg[p].ord == o && o < pg[p].r_ord && In(b, h, PageCount(o)) {
      HeadAligned(pg[p], p);
      BuddyRoot(pg, p, o);
      assert pg[b].r_addr == pg[h].r_addr && pg[b].r_ord == pg[h].r_ord;
      Mutual(pg[p], p, h, o);
    }
  }

  /** The buddy of a block lies in the same root. */
  lemma BuddyRoot(pg: Pages, p: nat, o: nat)
    requires p < |pg| && pg[p].Managed() && RootOk(pg, p)
    requires pg[p].ord == o && MIN_ORDER <= o < pg[p].r_ord
    requires Aligned(p - pg[p].Root(), o - MIN_ORDER)
    ensures var b := BuddyOf(pg[p], p);
            0 <= b < |pg| && pg[b].r_addr == pg[p].r_addr && pg[b].r_ord == pg[p].r_ord
  {
    BuddyFacts(pg, p, o);
    assert In(BuddyOf(pg[p], p), pg[p].Root(), PageCount(pg[p].r_ord));
  }

  lemma ClosedList(pg: Pages, lists: Lists, h: nat, o: nat, k: nat)
    requires Hole(pg, h, o) && Uniform(pg, h, o) && OrderIndex(lists, o) && OrderIndex(lists, k)
    requires ListOk(pg, ListOf(lists, k), k, h, PageCount(o))
    ensures ListOk(pg, ListOf(PushBack(lists, o, h), k), k, 0, 0)
  {
    var l, l' := ListOf(lists, k), ListOf(PushBack(lists, o, h), k);
    forall p: nat ensures p in l' <==> IsFreeHead(pg, p, k) {
      assert p in l <==> IsFreeHead(pg, p, k) && !In(p, h, PageCount(o));
      if In(p, h, PageCount(o)) { HeadInside(pg[h], h, pg[p], p); }
    }
    assert h in l ==> !In(h, h, PageCount(o));
  }

  // ----- Merging a hole with its free buddy -----

  function MergePages(pg: Pages, h: nat, b: nat, o: nat): (r: Pages)
    requires o >= MIN_ORDER
    ensures |r| == |pg|
    ensures forall i {:trigger r[i]} :: 0 <= i < |pg| ==>
              r[i] == if In(i, h, PageCount(o)) || In(i, b, PageCount(o)) then pg[i].(ord := o + 1) else pg[i]
  {
    SetOrd(SetOrd(pg, h, PageCount(o), o + 1), b, PageCount(o), o + 1)
  }

  /** A page outside the hole that heads an aligned block of its own order is listed as free. */
  lemma BuddyListed(pg: Pages, lists: Lists, h: nat, o: nat)
    requires Hole(pg, h, o) && Uniform(pg, h, o) && Inv(pg, lists, h, PageCount(o)) && OrderIndex(lists, o)
    requires o < pg[h].r_ord
    ensures var b := BuddyOf(pg[h], h);
            && 0 <= b < |pg| && pg[b].r_addr == pg[h].r_addr && pg[b].r_ord == pg[h].r_ord
            && b + PageCount(o) <= |pg| && !In(b, h, PageCount(o))
            && (pg[b].free && pg[b].ord == o ==>
                  b in ListOf(lists, o) && BlockOk(pg, b, h, PageCount(o)) && HeadOf(pg[b], b) == b)
  {
    BuddyRoot(pg, h, o);
    BuddyFacts(pg, h, o);
    var b := BuddyOf(pg[h], h);
    if pg[b].free && pg[b].ord == o {
      HeadInside(pg[b], b, pg[b], b);
      assert BlockOk(pg, b, h, PageCount(o));
      assert IsFreeHead(pg, b, o);
    }
  }

  ghost predicate CanMerge(pg: Pages, h: nat, b: int, o: nat) {
    && Hole(pg, h, o) && Uniform(pg, h, o) && o < pg[h].r_ord
    && b == BuddyOf(pg[h], h) && 0 <= b < |pg|
    && pg[b].Managed() && pg[b].free && pg[b].ord == o && RootOk(pg, b)
    && BlockOk(pg, b, h, PageCount(o)) && HeadOf(pg[b], b) == b
    && (b == h + PageCount(o) || h == b + PageCount(o))
  }

  lemma BuddyMerges(pg: Pages, lists: Lists, h: nat, o: nat)
    requires Hole(pg, h, o) && Uniform(pg, h, o) && Inv(pg, lists, h, PageCount(o)) && OrderIndex(lists, o)
    requires o < pg[h].r_ord
    requires var b := BuddyOf(pg[h], h); 0 <= b < |pg| && pg[b].free && pg[b].ord == o
    ensures CanMerge(pg, h, BuddyOf(pg[h], h), o)
    ensures forall q :: In(q, BuddyOf(pg[h], h), PageCount(o)) ==> !pg[q].returned
  {
    BuddyListed(pg, lists, h, o);
    BuddyFacts(pg, h, o);
    var b := BuddyOf(pg[h], h);
    assert RootOk(pg, b);
    forall q | In(q, b, PageCount(o)) ensures !pg[q].returned {
      BlockPages(pg, b, h, PageCount(o));
      assert BlockOk(pg, q, h, PageCount(o));
    }
  }

  lemma MergeHole(pg: Pages, lists: Lists, h: nat, o: nat, i: nat)
    requires Hole(pg, h, o) && Uniform(pg, h, o) && Inv(pg, lists, h, PageCount(o)) && OrderIndex(lists, o)
    requires o < pg[h].r_ord
    requires var b := BuddyOf(pg[h], h); 0 <= b < |pg| && pg[b].free && pg[b].ord == o
    requires i < |ListOf(lists, o)| && ListOf(lists, o)[i] == BuddyOf(pg[h], h)
    ensures var b := BuddyOf(pg[h], h); var m := if b < h then b else h;
            var pg' := MergePages(pg, h, b, o);
            && Hole(pg', m, o + 1) && Uniform(pg', m, o + 1)
            && Inv(pg', DropAt(lists, o, i), m, PageCount(o + 1))
  {
    BuddyMerges(pg, lists, h, o);
    var b: nat := BuddyOf(pg[h], h);
    var m := if b < h then b else h;
    var pg', l' := MergePages(pg, h, b, o), DropAt(lists, o, i);
    MergedHole(pg, h, o);
    forall p: nat | p < |pg'| && pg'[p].Managed()
      ensures RootOk(pg', p)
      ensures !In(p, m, PageCount(o + 1)) ==>
              BlockOk(pg', p, m, PageCount(o + 1)) && MaximalAt(pg', p, m, PageCount(o + 1))
    {
      MergedPage(pg, lists, h, b, o, p);
    }
    forall k | OrderIndex(l', k) ensures ListOk(pg', ListOf(l', k), k, m, PageCount(o + 1)) {
      MergedLists(pg, lists, h, o, i, k);
    }
  }

  lemma MergedPage(pg: Pages, lists: Lists, h: nat, b: nat, o: nat, p: nat)
    requires Inv(pg, lists, h, PageCount(o)) && CanMerge(pg, h, b, o)
    requires p < |pg| && pg[p].Managed()
    ensures var m := if b < h then b else h; var n := PageCount(o + 1);
            var pg' := MergePages(pg, h, b, o);
            RootOk(pg', p) && (!In(p, m, n) ==> BlockOk(pg', p, m, n) && MaximalAt(pg', p, m, n))
  {
    var m := if b < h then b else h;
    HalfCount(o + 1);
    MergedRoot(pg, h, b, o, p);
    if !In(p, m, PageCount(o + 1)) {
      assert !In(p, h, PageCount(o)) && !In(p, b, PageCount(o));
      assert BlockOk(pg, p, h, PageCount(o)) && MaximalAt(pg, p, h, PageCount(o));
      hide Inv, BlockOk, MaximalAt, RootOk, PageCount, MergePages;
      AvoidsBuddy(pg, h, o, p);
      MergedBlock(pg, h, b, o, p);
    }
    hide *;
  }

  lemma MergedRoot(pg: Pages, h: nat, b: nat, o: nat, p: nat)
    requires o >= MIN_ORDER && p < |pg| && RootOk(pg, p)
    ensures RootOk(MergePages(pg, h, b, o), p)
  {
  }

  lemma MergedLists(pg: Pages, lists: Lists, h: nat, o: nat, i: nat, k: nat)
    requires Inv(pg, lists, h, PageCount(o)) && OrderIndex(lists, o) && OrderIndex(lists, k)
    requires i < |ListOf(lists, o)| && CanMerge(pg, h, ListOf(lists, o)[i], o)
    ensures var b := ListOf(lists, o)[i]; var m := if b < h then b else h;
            ListOk(MergePages(pg, h, b, o), ListOf(DropAt(lists, o, i), k), k, m, PageCount(o + 1))
  {
    assert ListOk(pg, ListOf(lists, k), k, h, PageCount(o)) && ListOk(pg, ListOf(lists, o), o, h, PageCount(o));
    BuddyRoot(pg, h, o);
    MergedList(pg, lists, h, o, i, k);
  }

  lemma MergedHole(pg: Pages, h: nat, o: nat)
    requires Hole(pg, h, o) && Uniform(pg, h, o) && o < pg[h].r_ord
    requires var b := BuddyOf(pg[h], h); 0 <= b < |pg| && pg[b].free && pg[b].ord == o
    requires BlockOk(pg, BuddyOf(pg[h], h), h, PageCount(o))
    requires HeadOf(pg[BuddyOf(pg[h], h)], BuddyOf(pg[h], h)) == BuddyOf(pg[h], h)
    requires forall q :: In(q, BuddyOf(pg[h], h), PageCount(o)) ==> q < |pg| && !pg[q].returned
    ensures var b := BuddyOf(pg[h], h); var m := if b < h then b else h;
            Hole(MergePages(pg, h, b, o), m, o + 1) && Uniform(MergePages(pg, h, b, o), m, o + 1)
  {
    hide RoundDown, Bit, Pow2;
    BuddyFacts(pg, h, o);
    BuddyRoot(pg, h, o);
  }

  /** Blocks outside the hole and outside its buddy do not meet the buddy. */
  lemma AvoidsBuddy(pg: Pages, h: nat, o: nat, p: nat)
    requires Hole(pg, h, o) && o < pg[h].r_ord && pg[h].ord == o
    requires var b := BuddyOf(pg[h], h);
             && 0 <= b < |pg| && pg[b].ord == o && pg[b].Managed() && HeadOf(pg[b], b) == b
             && RootOk(pg, b) && BlockOk(pg, b, h, PageCount(o)) && !In(p, b, PageCount(o))
    requires p < |pg| && pg[p].Managed() && RootOk(pg, p) && BlockOk(pg, p, h, PageCount(o))
    ensures forall q :: In(q, HeadOf(pg[p], p), PageCount(pg[p].ord)) ==> !In(q, BuddyOf(pg[h], h), PageCount(o))
  {
    BlockPages(pg, p, h, PageCount(o));
    BlockPages(pg, BuddyOf(pg[h], h), h, PageCount(o));
  }

  lemma MergedBlock(pg: Pages, h: nat, b: nat, o: nat, p: nat)
    requires o >= MIN_ORDER && h < |pg| && b < |pg| && (b == h + PageCount(o) || h == b + PageCount(o))
    requires p < |pg| && BlockOk(pg, p, h, PageCount(o)) && MaximalAt(pg, p, h, PageCount(o))
    requires !In(p, h, PageCount(o)) && !In(p, b, PageCount(o))
    requires forall q :: In(q, HeadOf(pg[p], p), PageCount(pg[p].ord)) ==> !In(q, b, PageCount(o))
    ensures var m := if b < h then b else h;
            BlockOk(MergePages(pg, h, b, o), p, m, 2 * PageCount(o))
            && MaximalAt(MergePages(pg, h, b, o), p, m, 2 * PageCount(o))
  {
  }

  lemma MergedList(pg: Pages, lists: Lists, h: nat, o: nat, i: nat, k: nat)
    requires Hole(pg, h, o) && OrderIndex(lists, o) && OrderIndex(lists, k)
    requires ListOk(pg, ListOf(lists, o), o, h, PageCount(o)) && ListOk(pg, ListOf(lists, k), k, h, PageCount(o))
    requires i < |ListOf(lists, o)|
    requires var b := ListOf(lists, o)[i];
             (b == h + PageCount(o) || h == b + PageCount(o)) && pg[b].r_addr == pg[h].r_addr
             && RootOk(pg, b) && BlockOk(pg, b, h, PageCount(o))
    ensures var b := ListOf(lists, o)[i]; var m := if b < h then b else h;
            ListOk(MergePages(pg, h, b, o), ListOf(DropAt(lists, o, i), k), k, m, 2 * PageCount(o))
  {
    var n := PageCount(o);
    var l := ListOf(lists, k);
    var b := ListOf(lists, o)[i];
    assert b in ListOf(lists, o);
    var m := if b < h then b else h;
    var pg' := MergePages(pg, h, b, o);
    var l' := ListOf(DropAt(lists, o, i), k);
    ListRemove(ListOf(lists, o), i);
    BlockPages(pg, b, h, n);
    forall p: nat ensures p in l' <==> IsFreeHead(pg', p, k) && !In(p, m, 2 * n) {
      assert p in l <==> IsFreeHead(pg, p, k) && !In(p, h, n);
      if In(p, b, n) && IsFreeHead(pg, p, k) { assert p == b && k == o; }
    }
  }
}
