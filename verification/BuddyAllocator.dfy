/** The buddy half of the kernel allocator, updating page records and free lists in place. */
module BuddyAllocator {
  import opened Bits
  import opened BuddyState
  import opened BuddySteps
  import opened BuddyTheory
  import opened Util

  /** The number of halvings that take `sz0` to 0, less one: the floor of its binary logarithm. */
  method Halvings(sz0: nat) returns (ord: nat)
    ensures if sz0 == 0 then ord == 0 else Pow2(ord) <= sz0 < Pow2(ord + 1)
  {
    var sz := sz0;
    ord := 0;
    sz := sz / 2;
    assert (sz0 == 0 || sz0 >= Pow2(0)) && sz == Shr(sz0, 1);
    while sz != 0
      invariant if sz0 == 0 then ord == 0 && sz == 0 else sz0 >= Pow2(ord)
      invariant sz == Shr(sz0, ord + 1)
      decreases sz
    {
      hide Shr, Pow2;
      ShrZero(sz0, ord + 1);
      ShrStep(sz0, ord + 1);
      ord := ord + 1;
      sz := sz / 2;
    }
    ShrZero(sz0, ord + 1);
  }

  lemma ZeroOrder()
    ensures And(0xFFFF_FFFF_FFFF_FFFF, 0) == 0 && Pow2(0) == 1
  {
  }

  /** Least order, in bytes, of a block that holds `sz` bytes. */
  method Order(sz: nat, setMin: bool) returns (ord: nat)
    ensures Pow2(ord) >= sz
    ensures setMin ==> ord >= MIN_ORDER
    ensures ord == 0 || Pow2(ord - 1) < sz || (setMin && ord == MIN_ORDER)
  {
    hide Pow2, And;
    ZeroOrder();
    var y := if sz == 0 then 0xFFFF_FFFF_FFFF_FFFF else sz - 1;
    ord := Halvings(sz);
    if sz > 0 { PowerOfTwoTest(sz, ord); }
    if ord > 0 { Pow2Half(ord); }
    Pow2Mono(ord, if ord >= MIN_ORDER then ord else MIN_ORDER);
    Pow2Mono(ord + 1, if ord + 1 >= MIN_ORDER then ord + 1 else MIN_ORDER);
    var exact := And(y, if sz == 0 then 0 else y + 1) == 0;
    if exact {
      if setMin { return if ord >= MIN_ORDER then ord else MIN_ORDER; }
      return ord;
    } else {
      if setMin { return if ord + 1 >= MIN_ORDER then ord + 1 else MIN_ORDER; }
      return ord + 1;
    }
  }

  /** `1 + log2(num)` halvings counted in `sz`, so the floor of `log2(num)` when called with `sz == 1`. */
  function LargestFittingOrd(num: nat, sz: nat): (r: nat)
    requires sz > 0
    ensures if num == 0 then r == 0 else sz - 1 <= r && Pow2(r - (sz - 1)) <= num < Pow2(r - (sz - 1) + 1)
  {
    if num == 1 then sz - 1 else if num == 0 then 0 else LargestFittingOrd(num / 2, sz + 1)
  }

  datatype MemRange = MemRange(first: nat, last: nat, available: bool)

  /** What `init_kalloc` asserts about, or is handed in, the physical memory map. */
  ghost predicate RangesOk(ranges: seq<MemRange>, npages: nat) {
    && (forall i :: 0 <= i < |ranges| ==> ranges[i].first <= ranges[i].last)
    && (forall i, j :: 0 <= i < j < |ranges| ==> ranges[i].last <= ranges[j].first)
    && (forall i :: 0 <= i < |ranges| && ranges[i].available ==>
          ranges[i].first % PAGESIZE == 0 && ranges[i].last % PAGESIZE == 0 && ranges[i].last <= npages * PAGESIZE)
  }

  /** Page `p` lies in an available range. */
  ghost predicate Available(ranges: seq<MemRange>, p: nat) {
    exists i :: 0 <= i < |ranges| && ranges[i].available && ranges[i].first <= p * PAGESIZE < ranges[i].last
  }

  /** Page record `b` is that of a root block inside `[first, last)` that takes more than half of what there is from
      its own start to the end of the range. */
  predicate RootFits(b: Bapg, first: nat, last: nat) {
    first <= b.r_addr < last && Pow2(b.r_ord) <= last - b.r_addr < Pow2(b.r_ord + 1)
  }

  /** The pages of each available range are in root blocks that are as large as fits, from its start on. */
  ghost predicate LargestFirst(pg: Pages, ranges: seq<MemRange>) {
    forall i, p: nat :: 0 <= i < |ranges| && p < |pg| && InRange(ranges[i], p) ==>
      RootFits(pg[p], ranges[i].first, ranges[i].last)
  }

  predicate InRange(r: MemRange, p: nat) { r.available && r.first <= p * PAGESIZE < r.last }

  lemma LargestStep(pg: Pages, pg': Pages, ranges: seq<MemRange>, k: nat)
    requires k < |ranges| && LargestFirst(pg, ranges[..k]) && |pg'| == |pg| && RangesOk(ranges, |pg|)
    requires forall p: nat :: p < |pg| ==>
               if InRange(ranges[k], p) then RootFits(pg'[p], ranges[k].first, ranges[k].last) else pg'[p] == pg[p]
    ensures LargestFirst(pg', ranges[..k + 1])
  {
    hide RootFits;
    forall i, p: nat | 0 <= i < k + 1 && p < |pg| && InRange(ranges[i], p)
      ensures RootFits(pg'[p], ranges[i].first, ranges[i].last)
    {
      assert i < k ==> ranges[..k][i] == ranges[i] && ranges[i].last <= ranges[k].first;
    }
  }

  lemma AvailableStep(ranges: seq<MemRange>, k: nat, p: nat)
    requires k < |ranges|
    ensures Available(ranges[..k + 1], p) <==>
              Available(ranges[..k], p) ||
              (ranges[k].available && ranges[k].first <= p * PAGESIZE < ranges[k].last)
  {
    if Available(ranges[..k], p) {
      var i :| 0 <= i < k && ranges[..k][i].available && ranges[..k][i].first <= p * PAGESIZE < ranges[..k][i].last;
      assert ranges[..k + 1][i] == ranges[i];
    }
    if ranges[k].available && ranges[k].first <= p * PAGESIZE < ranges[k].last {
      assert ranges[..k + 1][k] == ranges[k];
    }
    if Available(ranges[..k + 1], p) {
      var i :| 0 <= i < k + 1 && ranges[..k + 1][i].available
               && ranges[..k + 1][i].first <= p * PAGESIZE < ranges[..k + 1][i].last;
      if i < k { assert ranges[..k][i] == ranges[i]; }
    }
  }

  /** Only the orders of pages that are free on both sides may differ. */
  ghost predicate OnlyOrders(pg: Pages, qg: Pages) {
    && |pg| == |qg|
    && forall k {:trigger qg[k]} :: 0 <= k < |pg| ==>
         qg[k] == pg[k].(ord := qg[k].ord) && (!pg[k].free || pg[k].returned ==> qg[k] == pg[k])
  }

  /** The difference an allocation of the block of order `o` at page `p` makes. */
  ghost predicate Allocated(pg: Pages, qg: Pages, p: nat, o: nat) {
    && |pg| == |qg| && p + PageCount(o) <= |pg|
    && p !in Live(pg) && Live(qg) == Live(pg)[p := o]
    && forall q :: 0 <= q < |pg| ==>
         if In(q, p, PageCount(o)) then pg[q].Managed() && pg[q].free && !qg[q].free else qg[q].free == pg[q].free
  }

  lemma AllocatedFrom(pg: Pages, mid: Pages, p: nat, o: nat)
    requires OnlyOrders(pg, mid) && Hole(mid, p, o)
    requires Pristine(pg)
    ensures Allocated(pg, AllocPages(mid, p, o), p, o)
    ensures SameRoots(pg, AllocPages(mid, p, o)) && Pristine(AllocPages(mid, p, o))
  {
    var qg := AllocPages(mid, p, o);
    assert In(p, p, PageCount(o));
    forall q: nat | q < |pg| ensures q in Live(qg) <==> q == p || q in Live(pg) {
      if In(q, p, PageCount(o)) { assert !mid[q].returned; }
    }
    forall q | q in Live(pg) ensures Live(qg)[q] == Live(pg)[q] {
      assert mid[q] == pg[q] && !In(q, p, PageCount(o));
    }
    assert Live(qg) == Live(pg)[p := o];
  }

  /** The difference releasing the live block at page `p` makes. */
  ghost predicate Released(pg: Pages, qg: Pages, p: nat) {
    && |pg| == |qg| && p in Live(pg) && Live(qg) == Live(pg) - {p}
    && forall q :: 0 <= q < |pg| ==>
         if In(q, p, PageCount(Live(pg)[p])) then !pg[q].free && qg[q].free else qg[q].free == pg[q].free
  }

  lemma ReleasedFrom(pg: Pages, mid: Pages, qg: Pages, p: nat)
    requires p < |pg| && pg[p].Managed() && !pg[p].free && pg[p].returned && Pristine(pg)
    requires BlockOk(pg, p, 0, 0)
    requires mid == ReleasePages(pg, p) && OnlyOrders(mid, qg)
    requires forall q :: In(q, p, PageCount(pg[p].ord)) ==> q < |pg| && pg[q].Managed()
    ensures Released(pg, qg, p) && SameRoots(pg, qg) && Pristine(qg)
  {
    assert p in Live(pg);
    assert In(p, p, PageCount(pg[p].ord));
    forall q: nat | q < |pg| ensures q in Live(qg) <==> q in Live(pg) && q != p {
      assert qg[q] == mid[q].(ord := qg[q].ord);
    }
    forall q | q in Live(qg) ensures Live(qg)[q] == Live(pg)[q] {
      assert qg[q] == mid[q];
    }
    assert Live(qg) == Live(pg) - {p};
    forall q | 0 <= q < |pg|
      ensures if In(q, p, PageCount(Live(pg)[p])) then !pg[q].free && qg[q].free else qg[q].free == pg[q].free
    {
      assert qg[q] == mid[q].(ord := qg[q].ord);
    }
  }

  /** Writing the order over a hole keeps it a hole. */
  lemma SetHoleOrd(pg: Pages, lists: Lists, h: nat, o: nat)
    requires Hole(pg, h, o) && Inv(pg, lists, h, PageCount(o))
    ensures var pg' := SetOrd(pg, h, PageCount(o), o);
            Hole(pg', h, o) && Inv(pg', lists, h, PageCount(o)) && OnlyOrders(pg, pg')
  {
    var n, pg' := PageCount(o), SetOrd(pg, h, PageCount(o), o);
    forall p: nat | p < |pg'| && pg'[p].Managed() ensures RootOk(pg', p) {
      assert RootOk(pg, p);
    }
    forall p: nat | p < |pg'| && pg'[p].Managed() && !In(p, h, n)
      ensures BlockOk(pg', p, h, n) && MaximalAt(pg', p, h, n)
    {
      assert BlockOk(pg, p, h, n) && MaximalAt(pg, p, h, n);
    }
    forall k | OrderIndex(lists, k) ensures ListOk(pg', ListOf(lists, k), k, h, n) {
      assert ListOk(pg, ListOf(lists, k), k, h, n);
      SetOrdList(pg, h, n, o, ListOf(lists, k), k);
    }
  }

  lemma SetOrdList(pg: Pages, h: nat, n: nat, o: nat, list: seq<nat>, k: nat)
    requires h + n <= |pg| && ListOk(pg, list, k, h, n)
    ensures ListOk(SetOrd(pg, h, n, o), list, k, h, n)
  {
    var pg' := SetOrd(pg, h, n, o);
    forall p: nat ensures p in list <==> IsFreeHead(pg', p, k) && !In(p, h, n) {
    }
  }

  lemma RequestOrder(sz: nat, ord: nat)
    requires 0 < sz <= Pow2(MAX_ORDER)
    requires Pow2(ord) >= sz && (ord == 0 || Pow2(ord - 1) < sz)
    ensures (if ord >= MIN_ORDER then ord else MIN_ORDER) == LeastOrder(sz, MIN_ORDER) <= MAX_ORDER
  {
    hide Pow2, LeastOrder;
    if ord < MIN_ORDER {
      Pow2Mono(ord, MIN_ORDER);
      LeastOrderUnique(sz, MIN_ORDER, MIN_ORDER);
    } else {
      LeastOrderUnique(sz, MIN_ORDER, ord);
    }
    if ord > MAX_ORDER { Pow2Mono(MAX_ORDER, ord - 1); }
  }

  /** Page `p` starts the block at the front of the first list, from order `o` upward, that has one. */
  ghost predicate BestFit(lists: Lists, o: nat, p: nat)
    requires |lists| == MAX_ORDER - MIN_ORDER + 1
  {
    exists k :: OrderIndex(lists, k) && o <= k && ListOf(lists, k) != [] && ListOf(lists, k)[0] == p &&
      forall j :: OrderIndex(lists, j) && o <= j < k ==> ListOf(lists, j) == []
  }

  /** The block that holds page `p` is last on its free list. */
  ghost predicate LastListed(lists: Lists, p: nat) {
    exists k :: OrderIndex(lists, k) && EndsWith(ListOf(lists, k), k, p)
  }

  predicate EndsWith(l: seq<nat>, k: nat, p: nat) { l != [] && In(p, l[|l| - 1], PageCount(k)) }

  /** A page of a block is in the block merged from it and its buddy. */
  lemma StillInside(b: Bapg, h: nat, o: nat, p: nat)
    requires b.ord == o >= MIN_ORDER && In(p, h, PageCount(o)) && b.Root() <= h && BuddyOf(b, h) >= 0
    ensures var m := if BuddyOf(b, h) < h then BuddyOf(b, h) else h; In(p, m, PageCount(o + 1))
  {
    HalfCount(o + 1);
    hide PageCount;
  }

  lemma PushedLast(lists: Lists, o: nat, b: nat, p: nat)
    requires OrderIndex(lists, o) && In(p, b, PageCount(o))
    ensures LastListed(PushBack(lists, o, b), p)
  {
    hide PageCount;
    assert OrderIndex(PushBack(lists, o, b), o) && EndsWith(ListOf(PushBack(lists, o, b), o), o, p);
  }

  /** Each free list is in ascending order, below page `n`. */
  ghost predicate Ascending(lists: Lists, n: nat) {
    forall k :: OrderIndex(lists, k) ==> AscendingTo(ListOf(lists, k), n)
  }

  ghost predicate AscendingTo(l: seq<nat>, n: nat) {
    (forall i, j :: 0 <= i < j < |l| ==> l[i] < l[j]) && forall i :: 0 <= i < |l| ==> l[i] < n
  }

  /** The state before `init_kalloc`. */
  lemma NothingYet(pg: Pages, lists: Lists, ranges: seq<MemRange>)
    requires lists == seq(MAX_ORDER - MIN_ORDER + 1, _ => [])
    requires forall p :: 0 <= p < |pg| ==> pg[p] == Bapg(false, false, 0, 0, 0)
    ensures Valid(pg, lists) && Pristine(pg) && AllFree(pg) && LargestFirst(pg, ranges[..0])
    ensures Ascending(lists, |pg|) && BelowRanges(lists, ranges, 0)
  {
    assert forall o :: OrderIndex(lists, o) ==> ListOf(lists, o) == [];
  }

  lemma ListPerOrder(pg: Pages, lists: Lists, h: nat, n: nat)
    requires Inv(pg, lists, h, n)
    ensures |lists| == MAX_ORDER - MIN_ORDER + 1
  {
  }

  lemma AscendingFurther(lists: Lists, n: nat, m: nat)
    requires Ascending(lists, n) && n <= m
    ensures Ascending(lists, m)
  {
    forall k | OrderIndex(lists, k) ensures AscendingTo(ListOf(lists, k), m) {
      assert AscendingTo(ListOf(lists, k), n);
    }
  }

  /** Past one range, the lists are below those that follow. */
  lemma PastRange(lists: Lists, ranges: seq<MemRange>, i: nat, npages: nat)
    requires RangesOk(ranges, npages) && i < |ranges| && ranges[i].available
    requires Ascending(lists, ranges[i].last / PAGESIZE)
    ensures Ascending(lists, npages) && BelowRanges(lists, ranges, i + 1)
  {
    AscendingFurther(lists, ranges[i].last / PAGESIZE, npages);
    forall j | i < j < |ranges| ensures Ascending(lists, ranges[j].first / PAGESIZE) {
      AscendingFurther(lists, ranges[i].last / PAGESIZE, ranges[j].first / PAGESIZE);
    }
  }

  ghost predicate BelowRanges(lists: Lists, ranges: seq<MemRange>, i: nat) {
    forall j :: i <= j < |ranges| ==> Ascending(lists, ranges[j].first / PAGESIZE)
  }

  lemma PushedAscending(lists: Lists, o: nat, b: nat, n: nat)
    requires OrderIndex(lists, o) && Ascending(lists, b) && b < n
    ensures Ascending(PushBack(lists, o, b), n)
  {
    forall k | OrderIndex(lists, k) ensures AscendingTo(ListOf(PushBack(lists, o, b), k), n) {
      assert AscendingTo(ListOf(lists, k), b);
    }
  }

  lemma OnlyOrdersRefl(a: Pages)
    ensures OnlyOrders(a, a)
  {
  }

  lemma OnlyOrdersTrans(a: Pages, b: Pages, c: Pages)
    requires OnlyOrders(a, b) && OnlyOrders(b, c)
    ensures OnlyOrders(a, c)
  {
  }

  /** Least order of at least `o` whose blocks hold `sz` bytes. */
  function LeastOrder(sz: nat, o: nat): (r: nat)
    ensures r >= o && Pow2(r) >= sz
    ensures r > o ==> Pow2(r - 1) < sz
    decreases sz - Pow2(o)
  {
    if Pow2(o) >= sz then o else LeastOrder(sz, o + 1)
  }

  lemma LeastOrderUnique(sz: nat, o: nat, r: nat)
    requires r >= o && Pow2(r) >= sz && (r > o ==> Pow2(r - 1) < sz)
    ensures LeastOrder(sz, o) == r
  {
    var l := LeastOrder(sz, o);
    if l < r { Pow2Mono(l, r - 1); }
    if r < l { Pow2Mono(r, l - 1); }
  }

  class BuddyAllocator {
    var pgmap: array<Bapg>
    var free_blocks: Lists

    ghost predicate ValidState()
      reads this, pgmap
    {
      |free_blocks| == MAX_ORDER - MIN_ORDER + 1 && Valid(pgmap[..], free_blocks) && Pristine(pgmap[..])
    }

    /** Zeroed page records, empty lists: the state before `init_kalloc`. */
    constructor ()
      ensures fresh(pgmap) && pgmap.Length == 512
      ensures forall p :: 0 <= p < 512 ==> pgmap[p] == Bapg(false, false, 0, 0, 0)
      ensures free_blocks == seq(MAX_ORDER - MIN_ORDER + 1, _ => [])
    {
      pgmap := new Bapg[512](_ => Bapg(false, false, 0, 0, 0));
      free_blocks := seq(MAX_ORDER - MIN_ORDER + 1, _ => []);
    }

    // ----- The loops over page records -----

    method MarkRoot(lo: nat, n: nat, ord: nat)
      requires lo + n <= pgmap.Length
      modifies pgmap
      ensures pgmap[..] == SetRoot(old(pgmap[..]), lo, n, ord)
    {
      var i := lo;
      while i < lo + n
        invariant lo <= i <= lo + n
        invariant forall k :: 0 <= k < pgmap.Length ==>
          pgmap[k] == if lo <= k < i then Bapg(true, old(pgmap[k]).returned, ord, ord, lo * PAGESIZE) else old(pgmap[k])
      {
        pgmap[i] := pgmap[i].(free := true, ord := ord, r_ord := ord, r_addr := lo * PAGESIZE);
        i := i + 1;
      }
      assert pgmap[..] == SetRoot(old(pgmap[..]), lo, n, ord);
    }

    method MarkOrd(lo: nat, n: nat, ord: nat)
      requires lo + n <= pgmap.Length
      modifies pgmap
      ensures pgmap[..] == SetOrd(old(pgmap[..]), lo, n, ord)
    {
      var i := lo;
      while i < lo + n
        invariant lo <= i <= lo + n
        invariant forall k :: 0 <= k < pgmap.Length ==>
          pgmap[k] == if lo <= k < i then old(pgmap[k]).(ord := ord) else old(pgmap[k])
      {
        pgmap[i] := pgmap[i].(ord := ord);
        i := i + 1;
      }
      assert pgmap[..] == SetOrd(old(pgmap[..]), lo, n, ord);
    }

    method MarkFree(lo: nat, n: nat)
      requires lo + n <= pgmap.Length
      modifies pgmap
      ensures pgmap[..] == SetFree(old(pgmap[..]), lo, n, true)
    {
      var i := lo;
      while i < lo + n
        invariant lo <= i <= lo + n
        invariant forall k :: 0 <= k < pgmap.Length ==>
          pgmap[k] == if lo <= k < i then old(pgmap[k]).(free := true) else old(pgmap[k])
      {
        pgmap[i] := pgmap[i].(free := true);
        i := i + 1;
      }
      assert pgmap[..] == SetFree(old(pgmap[..]), lo, n, true);
    }

    method MarkTaken(lo: nat, n: nat, ord: nat)
      requires lo + n <= pgmap.Length
      modifies pgmap
      ensures pgmap[..] == SetOrd(SetFree(old(pgmap[..]), lo, n, false), lo, n, ord)
    {
      var i := lo;
      while i < lo + n
        invariant lo <= i <= lo + n
        invariant forall k :: 0 <= k < pgmap.Length ==>
          pgmap[k] == if lo <= k < i then old(pgmap[k]).(free := false, ord := ord) else old(pgmap[k])
      {
        pgmap[i] := pgmap[i].(free := false, ord := ord);
        i := i + 1;
      }
      assert pgmap[..] == SetOrd(SetFree(old(pgmap[..]), lo, n, false), lo, n, ord);
    }

    /** Raise the order of two blocks of `n` pages of order `ord`, page by page. */
    method RaiseOrds(blk: nat, buddy: nat, n: nat, ghost ord: nat)
      requires ord >= MIN_ORDER && n == PageCount(ord)
      requires blk + n <= buddy || buddy + n <= blk
      requires blk + n <= pgmap.Length && buddy + n <= pgmap.Length
      requires forall k :: In(k, blk, n) || In(k, buddy, n) ==> pgmap[k].ord == ord
      modifies pgmap
      ensures pgmap[..] == MergePages(old(pgmap[..]), blk, buddy, ord)
    {
      var it, it2 := blk, buddy;
      while it < blk + n
        invariant blk <= it <= blk + n && it2 - buddy == it - blk
        invariant forall k :: 0 <= k < pgmap.Length ==>
          pgmap[k] == if blk <= k < it || buddy <= k < it2 then old(pgmap[k]).(ord := ord + 1) else old(pgmap[k])
      {
        pgmap[it] := pgmap[it].(ord := pgmap[it].ord + 1);
        pgmap[it2] := pgmap[it2].(ord := pgmap[it2].ord + 1);
        it, it2 := it + 1, it2 + 1;
      }
      assert pgmap[..] == MergePages(old(pgmap[..]), blk, buddy, ord);
    }

    // ----- init_kalloc -----

    /** Turn unmanaged pages into one free root block. */
    method AddRootBlock(lo: nat, n: nat, ord: nat)
      requires ValidState() && AllFree(pgmap[..]) && MIN_ORDER <= ord <= MAX_ORDER
      requires n == PageCount(ord) && Unmanaged(pgmap[..], lo, n) && Ascending(free_blocks, lo)
      modifies this`free_blocks, pgmap
      ensures pgmap == old(pgmap) && ValidState() && AllFree(pgmap[..])
      ensures pgmap[..] == SetRoot(old(pgmap[..]), lo, n, ord) && Ascending(free_blocks, lo + n)
    {
      AddRoot(pgmap[..], free_blocks, lo, ord);
      assert n > 0;
      PushedAscending(free_blocks, ord, lo, lo + n);
      hide Inv, Pristine, AllFree, Ascending, PageCount;
      MarkRoot(lo, n, ord);
      free_blocks := PushBack(free_blocks, ord, lo);
    }

    /** Carve `[first, last)` into root blocks, largest power of two first. */
    method AddRange(first: nat, last: nat)
      requires ValidState() && AllFree(pgmap[..]) && pgmap.Length <= 512
      requires first <= last && first % PAGESIZE == 0 && last % PAGESIZE == 0 && last <= pgmap.Length * PAGESIZE
      requires forall p :: 0 <= p < pgmap.Length && pgmap[p].Managed() ==> p * PAGESIZE < first
      requires Ascending(free_blocks, first / PAGESIZE)
      modifies this`free_blocks, pgmap
      ensures pgmap == old(pgmap) && ValidState() && AllFree(pgmap[..])
      ensures forall p :: 0 <= p < pgmap.Length ==>
                (pgmap[p].Managed() <==> old(pgmap[p].Managed()) || first <= p * PAGESIZE < last)
      ensures forall p :: 0 <= p < pgmap.Length ==>
                if first <= p * PAGESIZE < last then RootFits(pgmap[p], first, last) else pgmap[p] == old(pgmap[p])
      ensures Ascending(free_blocks, last / PAGESIZE)
    {
      hide Inv, Pristine, AllFree, Pow2, PageCount, LargestFittingOrd, Ascending;
      var curr_addr := first;
      var remaining_size: nat := last - first;
      while remaining_size != 0
        invariant first <= curr_addr && curr_addr + remaining_size == last && curr_addr % PAGESIZE == 0
        invariant ValidState() && AllFree(pgmap[..]) && Ascending(free_blocks, curr_addr / PAGESIZE)
        invariant forall p :: 0 <= p < pgmap.Length ==>
          (pgmap[p].Managed() <==> old(pgmap[p].Managed()) || first <= p * PAGESIZE < curr_addr)
        invariant forall p :: 0 <= p < pgmap.Length ==>
          if first <= p * PAGESIZE < curr_addr then RootFits(pgmap[p], first, last) else pgmap[p] == old(pgmap[p])
        decreases remaining_size
      {
        ghost var before := pgmap[..];
        var ord := LargestFittingOrd(remaining_size, 1);
        CarveStep(curr_addr, remaining_size, ord);
        var current_size := Pow2(ord);
        var lo, n := curr_addr / PAGESIZE, current_size / PAGESIZE;
        AddRootBlock(lo, n, ord);
        forall p | 0 <= p < pgmap.Length
          ensures pgmap[p].Managed() <==> before[p].Managed() || In(p, lo, n)
        {
          assert pgmap[..][p] == pgmap[p];
        }
        curr_addr := curr_addr + current_size;
        remaining_size := remaining_size - current_size;
      }
    }

    method InitKalloc(ranges: seq<MemRange>)
      requires RangesOk(ranges, pgmap.Length) && pgmap.Length <= 512
      requires free_blocks == seq(MAX_ORDER - MIN_ORDER + 1, _ => [])
      requires forall p :: 0 <= p < pgmap.Length ==> pgmap[p] == Bapg(false, false, 0, 0, 0)
      modifies this`free_blocks, pgmap
      ensures pgmap == old(pgmap) && ValidState() && AllFree(pgmap[..])
      ensures forall p :: 0 <= p < pgmap.Length ==> (pgmap[p].Managed() <==> Available(ranges, p))
      ensures LargestFirst(pgmap[..], ranges) && Ascending(free_blocks, pgmap.Length)
    {
      hide Inv, Pristine, AllFree, LargestFirst, Ascending;
      NothingYet(pgmap[..], free_blocks, ranges);
      var range := 0;
      while range < |ranges|
        invariant 0 <= range <= |ranges|
        invariant ValidState() && AllFree(pgmap[..])
        invariant forall p :: 0 <= p < pgmap.Length ==> (pgmap[p].Managed() <==> Available(ranges[..range], p))
        invariant LargestFirst(pgmap[..], ranges[..range])
        invariant Ascending(free_blocks, pgmap.Length) && BelowRanges(free_blocks, ranges, range)
      {
        ghost var before := pgmap[..];
        if ranges[range].available {
          AddRange(ranges[range].first, ranges[range].last);
          PastRange(free_blocks, ranges, range, pgmap.Length);
        }
        LargestStep(before, pgmap[..], ranges, range);
        forall p | 0 <= p < pgmap.Length
          ensures Available(ranges[..range + 1], p) <==>
            Available(ranges[..range], p) ||
            (ranges[range].available && ranges[range].first <= p * PAGESIZE < ranges[range].last)
        {
          AvailableStep(ranges, range, p);
        }
        range := range + 1;
      }
      assert ranges[..|ranges|] == ranges;
    }

    // ----- kalloc -----

    method PopFront(ord: nat) returns (p: nat)
      requires OrderIndex(free_blocks, ord) && ListOf(free_blocks, ord) != []
      modifies this`free_blocks
      ensures p == ListOf(old(free_blocks), ord)[0]
      ensures free_blocks == DropAt(old(free_blocks), ord, 0)
    {
      p := free_blocks[ord - MIN_ORDER][0];
      free_blocks := DropAt(free_blocks, ord, 0);
    }

    /** Chop the hole at `new_blk` in two, freeing the right half. */
    method SplitOnce(new_blk: nat, nb_ord: nat)
      requires MIN_ORDER < nb_ord <= MAX_ORDER
      requires Hole(pgmap[..], new_blk, nb_ord) && Inv(pgmap[..], free_blocks, new_blk, PageCount(nb_ord))
      modifies this`free_blocks, pgmap
      ensures pgmap == old(pgmap)
      ensures Hole(pgmap[..], new_blk, nb_ord - 1) && Inv(pgmap[..], free_blocks, new_blk, PageCount(nb_ord - 1))
      ensures OnlyOrders(old(pgmap[..]), pgmap[..])
    {
      hide Inv, PushBack, PageCount;
      ghost var before := pgmap[..];
      ListPerOrder(before, free_blocks, new_blk, PageCount(nb_ord));
      SplitHole(before, free_blocks, new_blk, nb_ord);
      HalfCount(nb_ord);
      var split_page := new_blk + PageCount(nb_ord - 1);
      MarkOrd(split_page, PageCount(nb_ord - 1), nb_ord - 1);
      free_blocks := PushBack(free_blocks, nb_ord - 1, split_page);
    }

    /** Chop the hole at `new_blk` down from order `from` to order `ord`, freeing the right halves. */
    method SplitDown(new_blk: nat, from: nat, ord: nat)
      requires MIN_ORDER <= ord <= from <= MAX_ORDER
      requires Hole(pgmap[..], new_blk, from) && Inv(pgmap[..], free_blocks, new_blk, PageCount(from))
      modifies this`free_blocks, pgmap
      ensures pgmap == old(pgmap)
      ensures Hole(pgmap[..], new_blk, ord) && Inv(pgmap[..], free_blocks, new_blk, PageCount(ord))
      ensures OnlyOrders(old(pgmap[..]), pgmap[..])
    {
      var nb_ord := from;
      while nb_ord > ord
        invariant ord <= nb_ord <= from
        invariant Hole(pgmap[..], new_blk, nb_ord) && Inv(pgmap[..], free_blocks, new_blk, PageCount(nb_ord))
        invariant OnlyOrders(old(pgmap[..]), pgmap[..])
      {
        SplitOnce(new_blk, nb_ord);
        nb_ord := nb_ord - 1;
      }
    }

    /** Find a block of order `ord`, splitting a larger one if need be; its pages form the hole. */
    method TakeOrder(ord: nat) returns (blk: Option<nat>)
      requires ValidState() && OrderIndex(free_blocks, ord)
      modifies this`free_blocks, pgmap
      ensures pgmap == old(pgmap)
      ensures blk.None? <==> !HasFreeBlock(old(free_blocks), ord)
      ensures blk.None? ==> pgmap[..] == old(pgmap[..]) && free_blocks == old(free_blocks)
      ensures blk.None? ==> ValidState() && SameRoots(old(pgmap[..]), pgmap[..])
      ensures blk.Some? ==> Hole(pgmap[..], blk.value, ord) && Inv(pgmap[..], free_blocks, blk.value, PageCount(ord))
      ensures blk.Some? ==> BestFit(old(free_blocks), ord, blk.value)
      ensures OnlyOrders(old(pgmap[..]), pgmap[..])
    {
      blk := None;
      if free_blocks[ord - MIN_ORDER] == [] {
        var nb_ord := ord;
        while nb_ord < MAX_ORDER
          invariant ord <= nb_ord <= MAX_ORDER && blk.None?
          invariant pgmap[..] == old(pgmap[..]) && free_blocks == old(free_blocks)
          invariant forall k: nat :: OrderIndex(free_blocks, k) && ord <= k <= nb_ord ==> ListOf(free_blocks, k) == []
        {
          nb_ord := nb_ord + 1;
          if free_blocks[nb_ord - MIN_ORDER] != [] {
            assert ListOf(free_blocks, nb_ord) != [];
            TakeBlock(pgmap[..], free_blocks, nb_ord, 0);
            var new_blk := PopFront(nb_ord);
            SplitDown(new_blk, nb_ord, ord);
            SetHoleOrd(pgmap[..], free_blocks, new_blk, ord);
            MarkOrd(new_blk, PageCount(ord), ord);
            blk := Some(new_blk);
            break;
          }
        }
      } else {
        assert ListOf(free_blocks, ord) != [];
        TakeBlock(pgmap[..], free_blocks, ord, 0);
        var p := PopFront(ord);
        blk := Some(p);
      }
    }

    /** Hand out the block in the hole. */
    method Commit(p: nat, ord: nat, ghost pg: Pages)
      requires Hole(pgmap[..], p, ord) && Inv(pgmap[..], free_blocks, p, PageCount(ord))
      requires OnlyOrders(pg, pgmap[..]) && Pristine(pg)
      modifies pgmap
      ensures ValidState() && SameRoots(pg, pgmap[..]) && Allocated(pg, pgmap[..], p, ord)
    {
      ghost var before := pgmap[..];
      CloseAllocated(before, free_blocks, p, ord);
      AllocatedFrom(pg, before, p, ord);
      pgmap[p] := pgmap[p].(returned := true);
      MarkTaken(p, PageCount(ord), ord);
      assert pgmap[..] == AllocPages(before, p, ord);
    }

    method AllocOrder(ord: nat) returns (r: Option<nat>)
      requires ValidState() && OrderIndex(free_blocks, ord)
      modifies this`free_blocks, pgmap
      ensures pgmap == old(pgmap) && ValidState() && SameRoots(old(pgmap[..]), pgmap[..])
      ensures r.None? <==> !HasFreeBlock(old(free_blocks), ord)
      ensures r.None? ==> pgmap[..] == old(pgmap[..]) && free_blocks == old(free_blocks)
      ensures r.Some? ==> r.value % PAGESIZE == 0 && BestFit(old(free_blocks), ord, r.value / PAGESIZE)
      ensures r.Some? ==> Allocated(old(pgmap[..]), pgmap[..], r.value / PAGESIZE, ord)
    {
      hide Inv, Pristine, SameRoots, Allocated, OnlyOrders, Hole, HasFreeBlock, BestFit;
      var blk := TakeOrder(ord);
      if blk.None? {
        r := None;
      } else {
        Commit(blk.value, ord, old(pgmap[..]));
        r := Some(blk.value * PAGESIZE);
      }
    }

    method Kalloc(sz: nat) returns (r: Option<nat>)
      requires ValidState()
      modifies this`free_blocks, pgmap
      ensures pgmap == old(pgmap) && ValidState() && SameRoots(old(pgmap[..]), pgmap[..])
      ensures r.None? <==> sz == 0 || sz > Pow2(MAX_ORDER) || !HasFreeBlock(old(free_blocks), LeastOrder(sz, MIN_ORDER))
      ensures r.None? ==> pgmap[..] == old(pgmap[..]) && free_blocks == old(free_blocks)
      ensures r.Some? ==> r.value % PAGESIZE == 0
      ensures r.Some? ==> Allocated(old(pgmap[..]), pgmap[..], r.value / PAGESIZE, LeastOrder(sz, MIN_ORDER))
      ensures r.Some? ==> BestFit(old(free_blocks), LeastOrder(sz, MIN_ORDER), r.value / PAGESIZE)
    {
      hide Inv, Pristine, Pow2, LeastOrder, HasFreeBlock, BestFit;
      assert SameRoots(pgmap[..], pgmap[..]);
      hide SameRoots, Allocated;
      if sz == 0 || sz > Pow2(MAX_ORDER) {
        r := None;
      } else {
        var ord := Order(sz, false);
        RequestOrder(sz, ord);
        ord := if ord >= MIN_ORDER then ord else MIN_ORDER;
        r := AllocOrder(ord);
      }
    }

    // ----- kfree -----

    /** Position of page `p` on the free list of order `ord`. */
    method FindOnList(ord: nat, p: nat) returns (i: nat)
      requires OrderIndex(free_blocks, ord) && p in ListOf(free_blocks, ord)
      ensures i < |ListOf(free_blocks, ord)| && ListOf(free_blocks, ord)[i] == p
    {
      i := 0;
      while free_blocks[ord - MIN_ORDER][i] != p
        invariant i < |ListOf(free_blocks, ord)|
        invariant p in ListOf(free_blocks, ord)[i..]
        decreases |ListOf(free_blocks, ord)| - i
      {
        i := i + 1;
      }
    }

    method BuddyToTheLeft(blk: nat) returns (left: bool)
      requires blk < pgmap.Length && pgmap[blk].ord >= MIN_ORDER
      requires pgmap[blk].r_addr % PAGESIZE == 0 && pgmap[blk].Root() <= blk
      ensures left <==> Bit(blk - pgmap[blk].Root(), pgmap[blk].ord - MIN_ORDER)
    {
      var addr := blk * PAGESIZE;
      var tnorm_addr := addr - pgmap[blk].r_addr;
      BitShift(blk - pgmap[blk].Root(), pgmap[blk].ord - MIN_ORDER, MIN_ORDER);
      assert Pow2(12) == 4096;
      assert tnorm_addr == Pow2(12) * (blk - pgmap[blk].Root());
      left := Bit(tnorm_addr, pgmap[blk].ord);
    }

    /** Either list the block in the hole, or merge it with its free buddy into a larger hole. */
    method CoalesceStep(blk: nat, ghost o: nat, ghost p: nat) returns (done: bool, blk': nat)
      requires Hole(pgmap[..], blk, o) && Uniform(pgmap[..], blk, o) && In(p, blk, PageCount(o))
      requires Inv(pgmap[..], free_blocks, blk, PageCount(o))
      modifies this`free_blocks, pgmap
      ensures pgmap == old(pgmap) && OnlyOrders(old(pgmap[..]), pgmap[..])
      ensures done ==> Valid(pgmap[..], free_blocks) && LastListed(free_blocks, p)
      ensures blk' < pgmap.Length && (!done ==> In(p, blk', PageCount(o + 1)))
      ensures !done ==> o < old(pgmap[blk].r_ord) && pgmap[blk'].r_ord == old(pgmap[blk].r_ord)
      ensures !done ==> Hole(pgmap[..], blk', o + 1) && Uniform(pgmap[..], blk', o + 1)
      ensures !done ==> Inv(pgmap[..], free_blocks, blk', PageCount(o + 1))
    {
      ghost var before := pgmap[..];
      assert In(blk, blk, PageCount(o));
      assert before[blk].ord == o && OrderIndex(free_blocks, o);
      PushedLast(free_blocks, o, blk, p);
      if pgmap[blk].ord == pgmap[blk].r_ord {
        CloseFree(before, free_blocks, blk, o);
        free_blocks := PushBack(free_blocks, pgmap[blk].ord, blk);
        return true, blk;
      }
      BuddyListed(before, free_blocks, blk, o);
      var left := BuddyToTheLeft(blk);
      var n := PageCount(pgmap[blk].ord);
      var buddy := if left then blk - n else blk + n;
      assert buddy == BuddyOf(before[blk], blk);
      if pgmap[buddy].free && pgmap[buddy].ord == pgmap[blk].ord {
        done := false;
        StillInside(before[blk], blk, o, p);
        blk' := Adjoin(blk, buddy, o);
      } else {
        CloseFree(before, free_blocks, blk, o);
        free_blocks := PushBack(free_blocks, pgmap[blk].ord, blk);
        done, blk' := true, blk;
      }
    }

    /** Take the free buddy off its list and raise the order of both blocks. */
    method Adjoin(blk: nat, buddy: nat, ghost o: nat) returns (blk': nat)
      requires Hole(pgmap[..], blk, o) && Uniform(pgmap[..], blk, o) && OrderIndex(free_blocks, o)
      requires Inv(pgmap[..], free_blocks, blk, PageCount(o))
      requires o < pgmap[blk].r_ord && pgmap[blk].ord == o && BuddyOf(pgmap[blk], blk) == buddy
      requires buddy < pgmap.Length && pgmap[buddy].free && pgmap[buddy].ord == o
      modifies this`free_blocks, pgmap
      ensures pgmap == old(pgmap) && OnlyOrders(old(pgmap[..]), pgmap[..])
      ensures blk' < pgmap.Length && pgmap[blk'].r_ord == old(pgmap[blk].r_ord)
      ensures blk' == if buddy < blk then buddy else blk
      ensures Hole(pgmap[..], blk', o + 1) && Uniform(pgmap[..], blk', o + 1)
      ensures Inv(pgmap[..], free_blocks, blk', PageCount(o + 1))
    {
      ghost var before := pgmap[..];
      BuddyListed(before, free_blocks, blk, o);
      BuddyMerges(before, free_blocks, blk, o);
      var i := FindOnList(pgmap[blk].ord, buddy);
      MergeHole(before, free_blocks, blk, o, i);
      free_blocks := DropAt(free_blocks, pgmap[blk].ord, i);
      RaiseOrds(blk, buddy, PageCount(pgmap[blk].ord), o);
      blk' := if buddy < blk then buddy else blk;
    }

    /** Merge the block in the hole at `start` with free buddies as far up as possible, then list it. */
    method Coalesce(start: nat, ghost start_ord: nat)
      requires Hole(pgmap[..], start, start_ord) && Uniform(pgmap[..], start, start_ord)
      requires Inv(pgmap[..], free_blocks, start, PageCount(start_ord))
      modifies this`free_blocks, pgmap
      ensures pgmap == old(pgmap) && Valid(pgmap[..], free_blocks) && OnlyOrders(old(pgmap[..]), pgmap[..])
      ensures LastListed(free_blocks, start)
    {
      hide Inv, LastListed, PageCount;
      OnlyOrdersRefl(pgmap[..]);
      assert start < pgmap.Length;
      hide Hole, Uniform, OnlyOrders;
      var blk, done := start, false;
      ghost var o := start_ord;
      while !done
        invariant 0 <= blk < pgmap.Length
        invariant !done ==> Hole(pgmap[..], blk, o) && Uniform(pgmap[..], blk, o) && In(start, blk, PageCount(o))
        invariant !done ==> Inv(pgmap[..], free_blocks, blk, PageCount(o))
        invariant done ==> Valid(pgmap[..], free_blocks) && LastListed(free_blocks, start)
        invariant OnlyOrders(old(pgmap[..]), pgmap[..])
        decreases !done, pgmap[blk].r_ord - o
      {
        ghost var before := pgmap[..];
        done, blk := CoalesceStep(blk, o, start);
        OnlyOrdersTrans(old(pgmap[..]), before, pgmap[..]);
        o := o + 1;
      }
    }

    /** Mark the block at `blk` as free and not handed out. */
    method Unmark(blk: nat)
      requires blk < pgmap.Length && blk + PageCount(pgmap[blk].ord) <= pgmap.Length
      modifies pgmap
      ensures pgmap[..] == ReleasePages(old(pgmap[..]), blk)
    {
      pgmap[blk] := pgmap[blk].(returned := false);
      MarkFree(blk, PageCount(pgmap[blk].ord));
    }

    /** The preconditions are the checks `kfree` asserts: page-aligned, not free, returned by `kalloc`. */
    method Kfree(ptr: Option<nat>)
      requires ValidState()
      requires ptr.Some? ==> ptr.value % PAGESIZE == 0 && ptr.value / PAGESIZE < pgmap.Length
      requires ptr.Some? ==> !pgmap[ptr.value / PAGESIZE].free && pgmap[ptr.value / PAGESIZE].returned
      modifies this`free_blocks, pgmap
      ensures pgmap == old(pgmap) && ValidState() && SameRoots(old(pgmap[..]), pgmap[..])
      ensures ptr.None? ==> pgmap[..] == old(pgmap[..]) && free_blocks == old(free_blocks)
      ensures ptr.Some? ==> Released(old(pgmap[..]), pgmap[..], ptr.value / PAGESIZE)
      ensures ptr.Some? ==> LastListed(free_blocks, ptr.value / PAGESIZE)
    {
      if ptr.None? {
        return;
      }
      hide BuddyAllocator.ValidState, SameRoots, Released, LastListed;
      Release(ptr.value / PAGESIZE);
    }

    method Release(blk: nat)
      requires ValidState() && blk < pgmap.Length && !pgmap[blk].free && pgmap[blk].returned
      modifies this`free_blocks, pgmap
      ensures pgmap == old(pgmap) && ValidState() && SameRoots(old(pgmap[..]), pgmap[..])
      ensures Released(old(pgmap[..]), pgmap[..], blk) && LastListed(free_blocks, blk)
    {
      ghost var pg := pgmap[..];
      hide Inv, Uniform, Pristine, Released, OnlyOrders, SameRoots, ReleasePages;
      OpenAllocated(pg, free_blocks, blk);
      Unmark(blk);
      ghost var mid := pgmap[..];
      hide *;
      Coalesce(blk, pg[blk].ord);
      ReleasedFrom(pg, mid, pgmap[..], blk);
    }
  }

  lemma {:induction false} PageBytes(o: nat)
    requires o >= MIN_ORDER
    ensures Pow2(o) == PAGESIZE * PageCount(o)
  {
    if o > MIN_ORDER { PageBytes(o - 1); } else { assert Pow2(12) == 4096; }
  }

  /** A page-aligned size of at most 512 pages fits orders 12 to 21. */
  lemma OrderRange(size: nat, ord: nat)
    requires 0 < size <= 512 * PAGESIZE && size % PAGESIZE == 0
    requires Pow2(ord) <= size < Pow2(ord + 1)
    ensures MIN_ORDER <= ord <= MAX_ORDER && Pow2(ord) == PAGESIZE * PageCount(ord)
  {
    PageBytes(12);
    PageBytes(22);
    assert PageCount(22) == 1024;
    if ord < MIN_ORDER { Pow2Mono(ord + 1, MIN_ORDER); }
    if ord > MAX_ORDER { Pow2Mono(22, ord); }
    PageBytes(ord);
  }

  /** The block carved off the front of a page-aligned range is page-aligned and fits. */
  lemma CarveStep(curr: nat, size: nat, ord: nat)
    requires curr % PAGESIZE == 0 && size % PAGESIZE == 0 && 0 < size <= 512 * PAGESIZE
    requires ord == LargestFittingOrd(size, 1)
    ensures MIN_ORDER <= ord <= MAX_ORDER && Pow2(ord) <= size
    ensures Pow2(ord) / PAGESIZE == PageCount(ord) && Pow2(ord) % PAGESIZE == 0
    ensures curr / PAGESIZE * PAGESIZE == curr
    ensures (curr / PAGESIZE + PageCount(ord)) * PAGESIZE == curr + Pow2(ord)
  {
    OrderRange(size, ord);
  }
}
