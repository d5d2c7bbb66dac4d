/** Freeing the page tables of a process while iterating over them. */
module PtFree {
  import opened PageTable
  import opened PtPositions
  import opened PtRemoval
  import opened Vmiter
  import opened PtIter
  import opened Util

  /** In the lower half of the address space, whose tables belong to the process. */
  predicate LowPos(p: Pos)
    requires p.Ok()
  {
    Begin(p) < 0x400_0000
  }

  lemma LowEnds(p: Pos)
    requires p.Ok()
    ensures LowPos(p) <==> End(p) <= 0x400_0000
  {
  }

  lemma LowIff(va: nat, level: nat)
    requires va < VA_NONCANONEND && 1 <= level <= 3
    ensures Pos(level, Block(va, level)).Ok()
    ensures LowPos(Pos(level, Block(va, level))) <==> va < VA_LOWEND
  {
    BlockFits(va, level);
  }

  /** The table pages at the positions `fp`. */
  ghost function Pages(m: Tables, root: nat, fp: seq<Pos>): seq<nat>
    requires forall i :: 0 <= i < |fp| ==> fp[i].Ok() && HasTable(m, root, fp[i])
  {
    seq(|fp|, i requires 0 <= i < |fp| => Child(m, root, fp[i]))
  }

  /** Positions of `m0` in order. */
  ghost predicate InOrder(m0: Tables, root: nat, fp: seq<Pos>) {
    && (forall i :: 0 <= i < |fp| ==> fp[i].Ok() && HasTable(m0, root, fp[i]))
    && (forall i, j :: 0 <= i < j < |fp| ==> Before(fp[i], fp[j]))
  }

  /** Exactly the tables at `fp` have been freed; the others are where they were. */
  ghost predicate FreedExactly(m0: Tables, m: Tables, root: nat, fp: seq<Pos>) {
    forall r: Pos :: r.Ok() ==>
      (HasTable(m, root, r) <==> HasTable(m0, root, r) && r !in fp)
      && (HasTable(m, root, r) ==> Child(m, root, r) == Child(m0, root, r))
  }

  /** Freeing has come to `(s, l)`: what was freed lies up to there, in the lower half, and what remains after. */
  ghost predicate FreedUpTo(m: Tables, root: nat, fp: seq<Pos>, s: nat, l: nat) {
    && (forall r: Pos :: r.Ok() && HasTable(m, root, r) ==> Later(r, s, l))
    && (forall i :: 0 <= i < |fp| ==> fp[i].Ok() && LowPos(fp[i]) && !Later(fp[i], s, l))
  }

  /** One more table freed. */
  lemma FreeStep(m0: Tables, m: Tables, lv: map<nat, nat>, root: nat, fp: seq<Pos>, s: nat, l: nat, c: Pos)
    requires Tree(m, lv) && root in lv && lv[root] == 3
    requires InOrder(m0, root, fp) && FreedExactly(m0, m, root, fp) && FreedUpTo(m, root, fp, s, l)
    requires First(m, root, s, l, c) && LowPos(c)
    ensures Child(m, root, c) == Child(m0, root, c)
    ensures var m' := Removed(m, Slot(m, root, c).value, c.q % 512, Child(m, root, c));
            InOrder(m0, root, fp + [c]) && FreedExactly(m0, m', root, fp + [c]) &&
                FreedUpTo(m', root, fp + [c], End(c), c.level)
  {
    var m' := Removed(m, Slot(m, root, c).value, c.q % 512, Child(m, root, c));
    var fp' := fp + [c];
    forall r: Pos | r.Ok()
      ensures HasTable(m', root, r) <==> HasTable(m, root, r) && r != c
      ensures HasTable(m', root, r) ==> Child(m', root, r) == Child(m, root, r) && Later(r, End(c), c.level)
    {
      RemoveAt(m, lv, root, c, r);
      if HasTable(m, root, r) && Below(r, c) { BelowIsBefore(r, c); }
    }
    hide Removed, Slot, HasTable, Child;
    forall i | 0 <= i < |fp| ensures Before(fp[i], c) { }
  }

  /** Freeing is complete when the iterator has left the lower half. */
  lemma FreeDone(m: Tables, root: nat, fp: seq<Pos>, s: nat, l: nat, c: Pos, r: Pos)
    requires FreedUpTo(m, root, fp, s, l) && First(m, root, s, l, c) && !LowPos(c)
    requires r.Ok() && LowPos(r)
    ensures !HasTable(m, root, r)
  {
    LowEnds(r);
    LowEnds(c);
  }

  const LAST_KEY := 0x800_0000 * 4 + 3

  /** The order of ends and levels as numbers. */
  function Key(s: nat, l: nat): nat { s * 4 + l }

  lemma KeyGrows(c: Pos, s: nat, l: nat)
    requires c.Ok() && l <= 3 && Later(c, s, l)
    ensures Key(s, l) < Key(End(c), c.level) <= LAST_KEY
  {
    LastEnd(c);
  }

  /** Free the table pages of the lower half: `for (ptiter it(p); it.low(); it.next()) it.kfree_ptp();`. Each is freed
      exactly once, in an order that puts every table before those above it, and no page is read after it was freed:
      the memory no longer has it. */
  method FreeTables(mem: Memory, pt: nat) returns (ghost fp: seq<Pos>)
    requires mem.Valid() && pt in mem.lv && mem.lv[pt] == 3
    modifies mem
    ensures mem.Valid()
    ensures InOrder(old(mem.m), pt, fp) && FreedExactly(old(mem.m), mem.m, pt, fp)
    ensures forall r: Pos :: r.Ok() ==> (r in fp <==> HasTable(old(mem.m), pt, r) && LowPos(r))
    ensures mem.freed == old(mem.freed) + Pages(old(mem.m), pt, fp)
  {
    ghost var m0, freed0 := mem.m, mem.freed;
    var it := new PtIter(mem, pt);
    ghost var s: nat, l: nat := 0, 0;
    fp := [];
    StartsAfterNothing(m0, pt);
    hide InOrder, FreedExactly, FreedUpTo, First, NoneLater, Tree, Key, Later, End, HasTable, Block;
    assert freed0 == freed0 + Pages(m0, pt, fp);
    while it.Low()
      invariant it.mem == mem && it.pt == pt && it.va <= VA_NONCANONEND && it.Rooted()
      invariant if it.va < VA_NONCANONEND then it.Placed() &&
                First(mem.m, pt, s, l, it.Here()) else NoneLater(mem.m, pt, s, l)
      invariant InOrder(m0, pt, fp) && FreedExactly(m0, mem.m, pt, fp) && FreedUpTo(mem.m, pt, fp, s, l)
      invariant (forall i :: 0 <= i < |fp| ==> fp[i].Ok() && HasTable(m0, pt, fp[i])) &&
                mem.freed == freed0 + Pages(m0, pt, fp)
      invariant Key(s, l) <= LAST_KEY && l <= 3
      decreases LAST_KEY - Key(s, l)
    {
      fp := FreeTurn(it, m0, fp, s, l, freed0);
      KeyGrows(fp[|fp| - 1], s, l);
      s, l := End(fp[|fp| - 1]), fp[|fp| - 1].level;
    }
    if it.va < VA_NONCANONEND { LowIff(it.va, it.level); }
    Complete(m0, mem.m, pt, fp, s, l, if it.va < VA_NONCANONEND then Some(it.Here()) else None);
  }

  lemma StartsAfterNothing(m0: Tables, root: nat)
    ensures InOrder(m0, root, []) && FreedExactly(m0, m0, root, []) && FreedUpTo(m0, root, [], 0, 0)
  {
  }

  lemma Complete(m0: Tables, m: Tables, root: nat, fp: seq<Pos>, s: nat, l: nat, c: Option<Pos>)
    requires FreedExactly(m0, m, root, fp) && FreedUpTo(m, root, fp, s, l) && InOrder(m0, root, fp)
    requires if c.Some? then First(m, root, s, l, c.value) && c.value.Ok() &&
             !LowPos(c.value) else NoneLater(m, root, s, l)
    ensures forall r: Pos :: r.Ok() ==> (r in fp <==> HasTable(m0, root, r) && LowPos(r))
  {
    forall r: Pos | r.Ok() ensures r in fp <==> HasTable(m0, root, r) && LowPos(r) {
      if LowPos(r) && c.Some? { FreeDone(m, root, fp, s, l, c.value, r); }
    }
  }

  /** One turn of the loop. */
  method FreeTurn(it: PtIter, ghost m0: Tables, ghost fp: seq<Pos>, ghost s: nat, ghost l: nat, ghost freed0: seq<nat>)
    returns (ghost fp': seq<Pos>)
    requires it.Placed() && it.Low() && First(it.mem.m, it.pt, s, l, it.Here())
    requires InOrder(m0, it.pt, fp) && FreedExactly(m0, it.mem.m, it.pt, fp) && FreedUpTo(it.mem.m, it.pt, fp, s, l)
    requires (forall i :: 0 <= i < |fp| ==> fp[i].Ok() && HasTable(m0, it.pt, fp[i])) &&
             it.mem.freed == freed0 + Pages(m0, it.pt, fp)
    modifies it, it.mem
    ensures it.Rooted() && |fp'| == |fp| + 1 && fp'[|fp|].Ok() && Later(fp'[|fp|], s, l) && LowPos(fp'[|fp|])
    ensures it.va <= VA_NONCANONEND
    ensures var s', l' := End(fp'[|fp|]), fp'[|fp|].level;
            && InOrder(m0, it.pt, fp') && FreedExactly(m0, it.mem.m, it.pt, fp') &&
                 FreedUpTo(it.mem.m, it.pt, fp', s', l')
            && if it.va < VA_NONCANONEND then it.Placed() &&
                 First(it.mem.m, it.pt, s', l', it.Here()) else NoneLater(it.mem.m, it.pt, s', l')
    ensures (forall i :: 0 <= i < |fp'| ==> fp'[i].Ok() && HasTable(m0, it.pt, fp'[i])) &&
            it.mem.freed == freed0 + Pages(m0, it.pt, fp')
  {
    ghost var m, c := it.mem.m, it.Here();
    LowIff(it.va, it.level);
    FreeStep(m0, m, it.mem.lv, it.pt, fp, s, l, c);
    it.KfreePtp();
    fp' := fp + [c];
    assert InOrder(m0, it.pt, fp');
    assert Pages(m0, it.pt, fp') == Pages(m0, it.pt, fp) + [Child(m0, it.pt, c)];
    hide InOrder, FreedExactly, FreedUpTo, First, NoneLater, Tree;
    it.Next();
  }

  /** No page is freed twice. */
  lemma FreedOnce(m0: Tables, lv: map<nat, nat>, root: nat, fp: seq<Pos>, i: nat, j: nat)
    requires Tree(m0, lv) && root in lv && lv[root] == 3 && InOrder(m0, root, fp) && i < j < |fp|
    ensures Pages(m0, root, fp)[i] != Pages(m0, root, fp)[j]
  {
    if Child(m0, root, fp[i]) == Child(m0, root, fp[j]) { ChildUnique(m0, lv, root, fp[i], fp[j]); }
  }

  /** A table is freed before the tables above it. */
  lemma ChildrenFirst(m0: Tables, root: nat, fp: seq<Pos>, i: nat, j: nat)
    requires InOrder(m0, root, fp) && i < |fp| && j < |fp| && fp[i] != fp[j] && Below(fp[i], fp[j])
    ensures i < j
  {
    assert j < i ==> Before(fp[j], fp[i]);
    BelowIsBefore(fp[i], fp[j]);
  }
}
