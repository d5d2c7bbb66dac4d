/** Page records and free lists as values, and the invariant that ties them together. */
module BuddyState {
  import opened Bits
  import opened Util

  const PAGESIZE := 4096
  const MIN_ORDER := 12
  const MAX_ORDER := 21

  /** One record per physical page. */
  datatype Bapg = Bapg(free: bool, returned: bool, ord: nat, r_ord: nat, r_addr: nat)
  {
    /** Pages that no root block covers keep the all-zero record. */
    predicate Managed() { r_ord >= MIN_ORDER }

    function Root(): nat { r_addr / PAGESIZE }
  }

  type Pages = seq<Bapg>
  type Lists = seq<seq<nat>>

  /** Number of pages in a block of order `o`. */
  function PageCount(o: nat): (n: nat)
    ensures n >= 1
  {
    if o < MIN_ORDER then 1 else Pow2(o - MIN_ORDER)
  }

  /** First page of the block that page `p`, with record `b`, belongs to. */
  function HeadOf(b: Bapg, p: nat): (h: nat)
    ensures h <= p < h + PageCount(b.ord)
  {
    if p < b.Root() || b.ord < MIN_ORDER then p
    else b.Root() + RoundDown(p - b.Root(), b.ord - MIN_ORDER)
  }

  /** First page of the other half of the parent of the block at `p`. */
  function BuddyOf(b: Bapg, p: nat): int {
    if p < b.Root() || b.ord < MIN_ORDER then -1
    else if Bit(p - b.Root(), b.ord - MIN_ORDER) then p - PageCount(b.ord)
    else p + PageCount(b.ord)
  }

  predicate In(p: int, start: nat, count: nat) { start <= p < start + count }

  ghost predicate RootOk(pg: Pages, p: nat)
    requires p < |pg|
  {
    var b := pg[p];
    && b.r_addr % PAGESIZE == 0
    && b.r_ord <= MAX_ORDER
    && b.Root() <= p < b.Root() + PageCount(b.r_ord) <= |pg|
    && forall q :: In(q, b.Root(), PageCount(b.r_ord)) ==> pg[q].r_addr == b.r_addr && pg[q].r_ord == b.r_ord
  }

  ghost predicate BlockOk(pg: Pages, p: nat, hs: nat, hn: nat)
    requires p < |pg|
  {
    var b := pg[p];
    && MIN_ORDER <= b.ord <= b.r_ord
    && HeadOf(b, p) + PageCount(b.ord) <= |pg|
    && (forall q :: In(q, HeadOf(b, p), PageCount(b.ord)) ==>
          !In(q, hs, hn) && pg[q].ord == b.ord && pg[q].free == b.free)
    && (b.returned <==> !b.free && HeadOf(b, p) == p)
  }

  predicate IsFreeHead(pg: Pages, p: int, o: nat) {
    0 <= p < |pg| && pg[p].Managed() && pg[p].free && pg[p].ord == o && HeadOf(pg[p], p) == p
  }

  ghost predicate ListOk(pg: Pages, l: seq<nat>, o: nat, hs: nat, hn: nat) {
    && NoDup(l)
    && forall p: nat :: p in l <==> IsFreeHead(pg, p, o) && !In(p, hs, hn)
  }

  predicate OrderIndex(lists: Lists, o: nat) {
    MIN_ORDER <= o <= MAX_ORDER && |lists| == MAX_ORDER - MIN_ORDER + 1
  }

  /** The free list of order `o`. */
  function ListOf(lists: Lists, o: nat): seq<nat>
    requires OrderIndex(lists, o)
  {
    lists[o - MIN_ORDER]
  }

  ghost predicate ListsOk(pg: Pages, lists: Lists, hs: nat, hn: nat) {
    && |lists| == MAX_ORDER - MIN_ORDER + 1
    && forall o :: OrderIndex(lists, o) ==> ListOk(pg, ListOf(lists, o), o, hs, hn)
  }

  /** No two free blocks outside the hole are buddies of the same order. */
  ghost predicate MaximalAt(pg: Pages, p: nat, hs: nat, hn: nat)
    requires p < |pg|
  {
    pg[p].free && HeadOf(pg[p], p) == p && pg[p].ord < pg[p].r_ord ==>
      var b := BuddyOf(pg[p], p);
      !(0 <= b < |pg| && !In(b, hs, hn) && pg[b].free && pg[b].ord == pg[p].ord)
  }

  /** The invariant, with a hole of `hn` pages at `hs` in which a block is being built; `hn == 0` is the invariant
      between calls. */
  ghost predicate Inv(pg: Pages, lists: Lists, hs: nat, hn: nat) {
    && (forall p: nat :: p < |pg| && pg[p].Managed() ==> RootOk(pg, p))
    && (forall p: nat :: p < |pg| && pg[p].Managed() && !In(p, hs, hn) ==>
          BlockOk(pg, p, hs, hn) && MaximalAt(pg, p, hs, hn))
    && ListsOk(pg, lists, hs, hn)
  }

  ghost predicate Valid(pg: Pages, lists: Lists) {
    Inv(pg, lists, 0, 0)
  }

  /** The hole is a free dyadic block of order `o` at `h`. */
  ghost predicate Hole(pg: Pages, h: nat, o: nat) {
    && h + PageCount(o) <= |pg|
    && pg[h].Managed() && RootOk(pg, h)
    && MIN_ORDER <= o <= pg[h].r_ord
    && Aligned(h - pg[h].Root(), o - MIN_ORDER)
    && forall q :: In(q, h, PageCount(o)) ==>
         pg[q].free && !pg[q].returned && pg[q].r_addr == pg[h].r_addr && pg[q].r_ord == pg[h].r_ord
  }

  ghost predicate Uniform(pg: Pages, h: nat, o: nat)
    requires h + PageCount(o) <= |pg|
  {
    forall q :: In(q, h, PageCount(o)) ==> pg[q].ord == o
  }

  // ----- Updates made by the loops over page records -----

  function SetOrd(pg: Pages, lo: nat, n: nat, o: nat): (r: Pages)
    ensures |r| == |pg|
    ensures forall i :: 0 <= i < |pg| ==> r[i] == if In(i, lo, n) then pg[i].(ord := o) else pg[i]
  {
    seq(|pg|, i requires 0 <= i < |pg| => if In(i, lo, n) then pg[i].(ord := o) else pg[i])
  }

  function SetFree(pg: Pages, lo: nat, n: nat, free: bool): (r: Pages)
    ensures |r| == |pg|
    ensures forall i :: 0 <= i < |pg| ==> r[i] == if In(i, lo, n) then pg[i].(free := free) else pg[i]
  {
    seq(|pg|, i requires 0 <= i < |pg| => if In(i, lo, n) then pg[i].(free := free) else pg[i])
  }

  function SetRoot(pg: Pages, lo: nat, n: nat, o: nat): (r: Pages)
    ensures |r| == |pg|
    ensures forall i :: 0 <= i < |pg| ==>
              r[i] == if In(i, lo, n) then Bapg(true, pg[i].returned, o, o, lo * PAGESIZE) else pg[i]
  {
    seq(|pg|, i requires 0 <= i < |pg| =>
      if In(i, lo, n) then Bapg(true, pg[i].returned, o, o, lo * PAGESIZE) else pg[i])
  }

  function SetReturned(pg: Pages, p: nat, v: bool): Pages
    requires p < |pg|
  {
    pg[p := pg[p].(returned := v)]
  }

  function SetList(lists: Lists, o: nat, l: seq<nat>): (r: Lists)
    requires OrderIndex(lists, o)
    ensures |r| == |lists|
    ensures forall k :: OrderIndex(lists, k) ==> ListOf(r, k) == if k == o then l else ListOf(lists, k)
  {
    lists[o - MIN_ORDER := l]
  }

  function PushBack(lists: Lists, o: nat, p: nat): Lists
    requires OrderIndex(lists, o)
  {
    SetList(lists, o, ListOf(lists, o) + [p])
  }

  function RemoveAt(l: seq<nat>, i: nat): (r: seq<nat>)
    requires i < |l|
  {
    l[..i] + l[i + 1..]
  }

  function DropAt(lists: Lists, o: nat, i: nat): Lists
    requires OrderIndex(lists, o) && i < |ListOf(lists, o)|
  {
    SetList(lists, o, RemoveAt(ListOf(lists, o), i))
  }

  // ----- Small facts about blocks -----

  lemma ListRemove(l: seq<nat>, i: nat)
    requires i < |l| && NoDup(l)
    ensures NoDup(RemoveAt(l, i))
    ensures forall p :: p in RemoveAt(l, i) <==> p in l && p != l[i]
  {
    var r := RemoveAt(l, i);
    forall p ensures p in r <==> p in l && p != l[i] {
      if p in l && p != l[i] {
        var j :| 0 <= j < |l| && l[j] == p;
        if j < i { assert r[j] == p; } else { assert r[j - 1] == p; }
      }
    }
  }

  /** A page record with the same order and root as the block's head has that head. */
  lemma HeadInside(b: Bapg, h: nat, c: Bapg, q: nat)
    requires b.ord >= MIN_ORDER && b.Root() <= h
    requires c.ord == b.ord && c.r_addr == b.r_addr
    requires Aligned(h - b.Root(), b.ord - MIN_ORDER) && In(q, h, PageCount(b.ord))
    ensures HeadOf(c, q) == h
  {
    AlignedBlockUnique(h - b.Root(), q - b.Root(), b.ord - MIN_ORDER);
  }

  /** The head of a block is aligned relative to its root block. */
  lemma HeadAligned(b: Bapg, p: nat)
    requires b.ord >= MIN_ORDER && b.Root() <= p
    ensures b.Root() <= HeadOf(b, p)
    ensures Aligned(HeadOf(b, p) - b.Root(), b.ord - MIN_ORDER)
  {
    RoundDownAligned(p - b.Root(), b.ord - MIN_ORDER);
  }

  /** All pages of a block share its root record and its head. */
  lemma BlockPages(pg: Pages, p: nat, hs: nat, hn: nat)
    requires p < |pg| && pg[p].Managed() && RootOk(pg, p) && BlockOk(pg, p, hs, hn)
    ensures forall q {:trigger pg[q]} :: In(q, HeadOf(pg[p], p), PageCount(pg[p].ord)) ==>
              && In(q, pg[p].Root(), PageCount(pg[p].r_ord))
              && pg[q].r_addr == pg[p].r_addr && pg[q].r_ord == pg[p].r_ord
              && HeadOf(pg[q], q) == HeadOf(pg[p], p)
  {
    var b := pg[p];
    HeadAligned(b, p);
    BlockInside(p - b.Root(), b.ord - MIN_ORDER, b.r_ord - MIN_ORDER);
    forall q {:trigger pg[q]} | In(q, HeadOf(b, p), PageCount(b.ord))
      ensures In(q, b.Root(), PageCount(b.r_ord)) && pg[q].r_addr == b.r_addr && pg[q].r_ord == b.r_ord
              && HeadOf(pg[q], q) == HeadOf(b, p)
    {
      HeadInside(b, HeadOf(b, p), pg[q], q);
    }
  }
}
