/** The iterator over virtual addresses: an incremental walk, and mapping. */
module Vmiter {
  import opened PageTable
  import opened PageMeaning
  import opened Util

  /** Page numbers below 4 GiB. */
  const PN_LIMIT := 0x10_0000

  /** The entry where the walk of `va` stops is not beyond them; the descent panics if it is. */
  ghost predicate InRange(m: Tables, lv: map<nat, nat>, root: nat, va: nat)
    requires Tree(m, lv) && root in lv && lv[root] == 3
  {
    EntryAt(m, Walk(m, lv, root, va)).pn < PN_LIMIT
  }

  /** Physical memory as far as page tables go: the table pages, the pages still free, and those given back. */
  class Memory {
    var m: Tables
    ghost var lv: map<nat, nat>
    var free: seq<nat>
    var freed: seq<nat>

    ghost predicate FreeOk()
      reads this
    {
      && (forall i :: 0 <= i < |free| ==> free[i] !in lv)
      && (forall i, j :: 0 <= i < j < |free| ==> free[i] != free[j])
    }

    ghost predicate Valid()
      reads this
    {
      Tree(m, lv) && FreeOk()
    }

    /** Put a new zeroed table page below entry `i` of table `t`. */
    method Link(t: nat, i: nat)
      requires Valid() && TableOk(m, lv, t) && i < 512 && lv[t] > 0 && !m[t][i].Table() && free != []
      modifies this
      ensures Valid() && free == old(free)[1..] && freed == old(freed)
      ensures m == AddTable(old(m), t, i, old(free)[0]) && lv == old(lv)[old(free)[0] := old(lv)[t] - 1]
      ensures t in m && i < |m[t]| && m[t][i] == Entry(old(free)[0], 0x07, 0)
    {
      AddKeepsTree(m, lv, t, i, free[0]);
      hide Tree;
      var c := free[0];
      free := free[1..];
      m := AddTable(m, t, i, c);
      lv := lv[c := lv[t] - 1];
    }
  }

  /** The page of `x` is mapped alike in two states. */
  ghost predicate SameMap(m: Tables, lv: map<nat, nat>, m': Tables, lv': map<nat, nat>, root: nat, x: nat)
    requires Tree(m, lv) && root in lv && lv[root] == 3
    requires Tree(m', lv') && root in lv' && lv'[root] == 3
  {
    Perm(m', lv', root, x) == Perm(m, lv, root, x) && Pa(m', lv', root, x) == Pa(m, lv, root, x)
  }

  /** Address `x` has permissions `p` and, if they say that it is present, is as far behind the start of page `pn` as
      it is behind `va`. */
  ghost predicate MappedTo(m: Tables, lv: map<nat, nat>, root: nat, x: nat, p: bv12, pn: nat, va: nat)
    requires Tree(m, lv) && root in lv && lv[root] == 3 && va <= x
  {
    && Perm(m, lv, root, x) == (if p & PTE_P != 0 then p else 0)
    && Pa(m, lv, root, x) == (if p & PTE_P != 0 then Some(pn * 0x1000 + (x - va)) else None)
  }

  /** The addresses of the page at `va` map to those of page `pn`, in order, with permissions `p`. */
  ghost predicate PageIs(m: Tables, lv: map<nat, nat>, root: nat, va: nat, p: bv12, pn: nat)
    requires Tree(m, lv) && root in lv && lv[root] == 3
  {
    forall x: nat :: va <= x < va + 0x1000 ==> MappedTo(m, lv, root, x, p, pn, va)
  }

  /** No page is mapped differently, except possibly those in `va`'s block of `level`. */
  ghost predicate SameMapOutside(m: Tables, lv: map<nat, nat>, m': Tables, lv': map<nat, nat>, root: nat, va: nat,
      level: nat)
    requires Tree(m, lv) && root in lv && lv[root] == 3 && level <= 3
    requires Tree(m', lv') && root in lv' && lv'[root] == 3
  {
    forall x: nat :: x < VA_END && Block(x, level) != Block(va, level) ==> SameMap(m, lv, m', lv', root, x)
  }

  ghost predicate SameMaps(m: Tables, lv: map<nat, nat>, m': Tables, lv': map<nat, nat>, root: nat)
    requires Tree(m, lv) && root in lv && lv[root] == 3
    requires Tree(m', lv') && root in lv' && lv'[root] == 3
  {
    forall x: nat :: x < VA_END ==> SameMap(m, lv, m', lv', root, x)
  }

  /** The mappings of `va`'s block of `level` are gone; all others are as before. */
  ghost predicate BlockCleared(m: Tables, m': Tables, lv: map<nat, nat>, root: nat, va: nat, level: nat)
    requires Tree(m, lv) && Tree(m', lv) && root in lv && lv[root] == 3 && level <= 3
  {
    && SameMapOutside(m, lv, m', lv, root, va, level)
    && forall x: nat :: x < VA_END && Block(x, level) == Block(va, level) ==>
         Perm(m', lv, root, x) == 0 && Pa(m', lv, root, x) == None
  }

  /** Every walk stops at the same place. */
  ghost predicate SameWalks(m: Tables, m': Tables, lv: map<nat, nat>, root: nat)
    requires Tree(m, lv) && Tree(m', lv) && root in lv && lv[root] == 3
  {
    forall x: nat :: x < VA_END ==> Walk(m', lv, root, x) == Walk(m, lv, root, x)
  }

  const MINUS_ONE := Entry(0xFF_FFFF_FFFF, 0xFFF, 0xFFF)

  /** The physical address `try_map` goes on with. */
  function Target(pa: Entry, perm: bv12): Entry {
    if pa == MINUS_ONE && perm == 0 then ZERO else pa
  }

  /** `pa | perm`. */
  function Filled(pa: Entry, perm: bv12): Entry {
    Entry(pa.pn, pa.flags | perm, pa.hi)
  }

  /** A present mapping has a page-aligned physical address; any other has no present bit. */
  predicate EntryFits(pa: Entry, perm: bv12) {
    if perm & PTE_P != 0 then pa.flags == 0 && pa.hi == 0 else pa.flags & PTE_P == 0
  }

  lemma TargetPn(pa: Entry, p: bv12)
    ensures p & PTE_P != 0 ==> Target(pa, p) == pa
  {
  }

  predicate UserBits(perm: bv12) { perm & 0x05 == 0x05 }

  class Vmiter {
    const mem: Memory
    const pt: nat
    var table: nat
    var idx: nat
    var nowhere: bool  // at the entry that is always zero
    var level: nat
    var perm: bv12
    var va: nat

    ghost function At(): Place
      reads this
    {
      if nowhere then Nowhere else Place(table, idx, level, perm)
    }

    ghost predicate Rooted()
      reads this, mem
    {
      mem.Valid() && pt in mem.lv && mem.lv[pt] == 3
    }

    /** The iterator agrees with a fresh walk of its address. */
    ghost predicate Valid()
      reads this, mem
    {
      && Rooted() && va < VA_END && At() == Walk(mem.m, mem.lv, pt, va) && (nowhere ==> level == 3 && perm == 0)
    }

    constructor (mem: Memory, pt: nat, va: nat)
      requires mem.Valid() && pt in mem.lv && mem.lv[pt] == 3 && va < VA_END && InRange(mem.m, mem.lv, pt, va)
      ensures Valid() && this.mem == mem && this.pt == pt && this.va == va
    {
      this.mem := mem;
      this.pt := pt;
      this.table, this.idx, this.nowhere := pt, 0, false;
      this.level, this.perm, this.va := 3, 0xFFF, 0;
      new;
      RealFind(va);
    }

    /** `*pep_`. */
    function Pe(): Entry
      reads this, mem
      requires !nowhere ==> table in mem.m && idx < |mem.m[table]|
    {
      if nowhere then ZERO else mem.m[table][idx]
    }

    method ReadPe() returns (e: Entry)
      requires Valid()
      ensures e == EntryAt(mem.m, Walk(mem.m, mem.lv, pt, va)) == (if nowhere then ZERO else EntryAt(mem.m, At()))
      ensures nowhere || TableOk(mem.m, mem.lv, table)
    {
      e := Pe();
    }

    /** `perm()`. */
    method GetPerm() returns (p: bv12)
      requires Valid()
      ensures p == Perm(mem.m, mem.lv, pt, va)
    {
      p := PermOf(Pe(), perm);
    }

    /** `pa()`. */
    method GetPa() returns (pa: Option<nat>)
      requires Valid()
      ensures pa == Pa(mem.m, mem.lv, pt, va)
    {
      pa := PaOf(Pe(), level, va);
    }

    /** Descend through tables; a panic if the entry at the end is out of range. */
    method Down(ghost target: Place)
      requires Rooted() && !nowhere && table in mem.lv && level == mem.lv[table] && idx == Index(va, level)
      requires target == Go(mem.m, mem.lv, table, level, va, perm) && EntryAt(mem.m, target).pn < PN_LIMIT
      modifies `table, `idx, `level, `perm
      ensures At() == target && level <= old(level)
    {
      assert TableOk(mem.m, mem.lv, table);
      while level > 0 && mem.m[table][idx].Table()
        invariant table in mem.lv && level == mem.lv[table] <= old(level) && idx == Index(va, level)
        invariant target == Go(mem.m, mem.lv, table, level, va, perm) && TableOk(mem.m, mem.lv, table)
        decreases level
      {
        GoUnfold(mem.m, mem.lv, table, level, va, perm);
        var e := mem.m[table][idx];
        perm := Restrict(perm, e);
        level := level - 1;
        table, idx := e.pn, Index(va, level);
        assert TableOk(mem.m, mem.lv, table);
      }
      GoUnfold(mem.m, mem.lv, table, level, va, perm);
      assert mem.m[table][idx].pn < PN_LIMIT;
    }

    method RealFind(va': nat)
      requires Rooted() && va' < VA_END && (level == 3 || Valid()) && InRange(mem.m, mem.lv, pt, va')
      modifies `table, `idx, `nowhere, `level, `perm, `va
      ensures Valid() && va == va'
    {
      if level == 3 || Block(va, level + 1) != Block(va', level + 1) {
        level := 3;
        if Canonical(va') {
          nowhere, perm := false, 0xFFF;
          table, idx := pt, Index(va', 3);
        } else {
          nowhere, perm := true, 0;
        }
      } else {
        ghost var m, lv := mem.m, mem.lv;
        SameBlockUp(va, va', level + 1, 3);
        CanonicalBlock(va, va', 3);
        GoShared(m, lv, pt, 3, va, va', 0xFFF, At());
        idx := Index(va', level);
      }
      va := va';
      if !nowhere { Down(Walk(mem.m, mem.lv, pt, va)); }
    }

    /** How large a block `next` passes over. */
    ghost function Stride(): nat
      reads this, mem
      requires Valid()
    {
      if level > 0 && Perm(mem.m, mem.lv, pt, va) == 0 then level else 0
    }

    /** `next`: the next page, or the end of a block with nothing in it. */
    method Next()
      requires Valid() && InRange(mem.m, mem.lv, pt, Bump(va, Stride()))
      modifies `table, `idx, `nowhere, `level, `perm, `va
      ensures Valid()
      ensures va == Bump(old(va), if old(level) > 0 && old(Perm(mem.m, mem.lv, pt, va)) == 0 then old(level) else 0)
      ensures old(level) == LevelAt(Walk(mem.m, mem.lv, pt, old(va)))
      ensures SkipsNothing(mem.m, mem.lv, pt, old(va), old(Stride()))
    {
      var l := 0;
      var p := GetPerm();
      if level > 0 && p == 0 {
        l := level;
      }
      BlockIsAlike(mem.m, mem.lv, pt, va, l);
      RealFind(Bump(va, l));
    }

    /** `next_range`: the end of the current block. */
    method NextRange()
      requires Valid() && InRange(mem.m, mem.lv, pt, Bump(va, level))
      modifies `table, `idx, `nowhere, `level, `perm, `va
      ensures Valid() && va == Bump(old(va), old(level)) && old(level) == LevelAt(Walk(mem.m, mem.lv, pt, old(va)))
    {
      RealFind(Bump(va, level));
    }

    // ----- Mapping -----

    /** Put a new empty table below the current entry and go down to it. */
    method Extend()
      requires Valid() && !nowhere && level > 0 && !Pe().Present() && mem.free != []
      modifies this, mem
      ensures Valid() && !nowhere && level == old(level) - 1 && perm == old(perm) && !Pe().Present()
      ensures va == old(va) && mem.free == old(mem.free)[1..] && mem.freed == old(mem.freed)
      ensures SameMaps(old(mem.m), old(mem.lv), mem.m, mem.lv, pt)
    {
      ghost var m, lv := mem.m, mem.lv;
      TableIsPresent(mem.m[table][idx]);
      ghost var p := At();
      ghost var c := mem.free[0];
      ExtendWalk(m, lv, pt, va, c);
      ExtendMaps(m, lv, pt, table, idx, c);
      ZeroEntry();
      hide Walk, Tree, SameMaps, Restrict, Go;
      mem.Link(table, idx);
      Down(Go(mem.m, mem.lv, table, level, va, perm));
    }

    /** `try_map`: map the current page to `pa` with permissions `p`. */
    method TryMap(pa: Entry, p: bv12) returns (r: int)
      requires Valid() && va % PAGESIZE == 0
      requires EntryFits(Target(pa, p), p)
      requires p & !perm & PTE_PWU == 0
      requires level > 0 && p != 0 ==> !nowhere && !Pe().Present()
      modifies this, mem
      ensures Valid() && va == old(va) && mem.freed == old(mem.freed)
      ensures r == if p != 0 && |old(mem.free)| < old(level) then -1 else 0
      ensures r == -1 ==> SameMaps(old(mem.m), old(mem.lv), mem.m, mem.lv, pt)
      ensures r == 0 && p == 0 && old(level) > 0 ==> mem.m == old(mem.m) && mem.lv == old(mem.lv)
      ensures r == 0 && (p != 0 || old(level) == 0) ==>
                && Perm(mem.m, mem.lv, pt, va) == (if p & PTE_P != 0 then p else 0)
                && Pa(mem.m, mem.lv, pt, va) == (if p & PTE_P != 0 then Some(pa.pn * PAGESIZE) else None)
                && PageIs(mem.m, mem.lv, pt, va, p, Target(pa, p).pn)
                && SameMapOutside(old(mem.m), old(mem.lv), mem.m, mem.lv, pt, va, 0)
                && (InRange(mem.m, mem.lv, pt, va) <==> Target(pa, p).pn < PN_LIMIT)
    {
      var w := Target(pa, p);
      ghost var m0, lv0 := mem.m, mem.lv;
      TargetPn(pa, p);
      assert SameMaps(m0, lv0, m0, lv0, pt);
      hide SameMaps, SameMapOutside, Tree, Walk, EntryFits, Target, PageIs;
      if p != 0 {
        var ok := ExtendToLast();
        if !ok {
          return -1;
        }
      }
      if level == 0 {
        ghost var m1, lv1 := mem.m, mem.lv;
        Fill(w, p);
        SameMapsThenOutside(m0, lv0, m1, lv1, mem.m, mem.lv, pt, va);
      }
      return 0;
    }

    /** Store `w | p` in the current entry, at the last level. */
    method Fill(w: Entry, p: bv12)
      requires Valid() && va % PAGESIZE == 0 && level == 0
      requires EntryFits(w, p) && p & !perm & PTE_PWU == 0
      modifies mem
      ensures Valid() && mem.freed == old(mem.freed)
      ensures Perm(mem.m, mem.lv, pt, va) == (if p & PTE_P != 0 then p else 0)
      ensures Pa(mem.m, mem.lv, pt, va) == (if p & PTE_P != 0 then Some(w.pn * PAGESIZE) else None)
      ensures PageIs(mem.m, mem.lv, pt, va, p, w.pn)
      ensures SameMapOutside(old(mem.m), old(mem.lv), mem.m, mem.lv, pt, va, 0)
      ensures InRange(mem.m, mem.lv, pt, va) <==> w.pn < PN_LIMIT
    {
      AllowedBits(mem.m, mem.lv, pt, 3, va, 0xFFF);
      FilledBits(w, p, perm);
      WriteLast(Filled(w, p));
      forall x: nat | va <= x < va + 0x1000
        ensures MappedTo(mem.m, mem.lv, pt, x, p, w.pn, va)
      {
        PageMapped(mem.m, mem.lv, pt, va, x, w, p);
      }
      hide Walk, Tree, SameMapOutside, PermOf;
    }

    /** Add empty tables down to the last level, as far as there is memory. */
    method ExtendToLast() returns (ok: bool)
      requires Valid() && (level > 0 ==> !nowhere && !Pe().Present())
      modifies this, mem
      ensures Valid() && va == old(va) && perm == old(perm) && mem.freed == old(mem.freed)
      ensures ok <==> |old(mem.free)| >= old(level)
      ensures ok ==> level == 0
      ensures SameMaps(old(mem.m), old(mem.lv), mem.m, mem.lv, pt)
    {
      ghost var m0, lv0 := mem.m, mem.lv;
      assert SameMaps(m0, lv0, m0, lv0, pt);
      hide SameMaps, Tree, Walk;
      while level > 0
        invariant Valid() && va == old(va) && perm == old(perm) && level <= old(level)
        invariant level > 0 ==> !nowhere && !Pe().Present()
        invariant mem.freed == old(mem.freed) && |mem.free| - level == |old(mem.free)| - old(level)
        invariant SameMaps(m0, lv0, mem.m, mem.lv, pt)
        decreases level
      {
        if mem.free == [] {
          return false;
        }
        ghost var m1, lv1 := mem.m, mem.lv;
        Extend();
        SameMapsTrans(m0, lv0, m1, lv1, mem.m, mem.lv, pt);
      }
      return true;
    }

    /** Store `e` in the current entry, at the last level. */
    method WriteLast(e: Entry)
      requires Valid() && level == 0
      modifies mem
      ensures Valid() && Walk(mem.m, mem.lv, pt, va) == At() && EntryAt(mem.m, At()) == e
      ensures mem.freed == old(mem.freed)
      ensures SameMapOutside(old(mem.m), old(mem.lv), mem.m, mem.lv, pt, va, 0)
    {
      ghost var m, lv := mem.m, mem.lv;
      ghost var place := At();
      assert TableOk(m, lv, table);
      WriteWalks(m, lv, pt, va, place, e);
      mem.m := SetEntry(mem.m, table, idx, e);
    }

    /** `kfree_page`: give back the mapped page, if there is one, and clear its entry. */
    method KfreePage()
      requires Valid() && va % PAGESIZE == 0
      modifies mem
      ensures Valid()
      ensures mem.freed == old(mem.freed) +
                (match Pa(old(mem.m), old(mem.lv), pt, va) case Some(pa) => [pa] case None => [])
      ensures mem.lv == old(mem.lv) && mem.free == old(mem.free)
      ensures Perm(mem.m, mem.lv, pt, va) == 0 && BlockCleared(old(mem.m), mem.m, mem.lv, pt, va, level)
      ensures SameWalks(old(mem.m), mem.m, mem.lv, pt)
      ensures forall x: nat :: x < VA_END && InRange(old(mem.m), mem.lv, pt, x) ==> InRange(mem.m, mem.lv, pt, x)
    {
      ghost var m, lv := mem.m, mem.lv;
      ghost var place := At();
      var e := ReadPe();
      if e.Present() {
        mem.freed := mem.freed + [PaOf(e, level, va).value];
      }
      if !nowhere {
        ZeroEntry();
        WriteWalks(m, lv, pt, va, place, ZERO);
        mem.m := SetEntry(mem.m, table, idx, ZERO);
      }
      ClearedBlock(mem.m, mem.lv, pt, va);
      assert Block(va, level) == Block(va, level);
    }
  }

  /** From `va` to the end of its block of level `l`, no page after `va`'s own is present. */
  ghost predicate SkipsNothing(m: Tables, lv: map<nat, nat>, root: nat, va: nat, l: nat)
    requires Tree(m, lv) && root in lv && lv[root] == 3 && l <= 3
  {
    forall x: nat :: x < VA_END && Block(x, l) == Block(va, l) && Block(x, 0) > Block(va, 0) ==>
      Perm(m, lv, root, x) == 0
  }

  lemma BlockIsAlike(m: Tables, lv: map<nat, nat>, root: nat, va: nat, l: nat)
    requires Tree(m, lv) && root in lv && lv[root] == 3 && va < VA_END
    requires l == 0 || (l == LevelAt(Walk(m, lv, root, va)) && Perm(m, lv, root, va) == 0)
    ensures SkipsNothing(m, lv, root, va, l)
  {
    if l > 0 {
      forall x: nat | x < VA_END && Block(x, l) == Block(va, l) ensures Perm(m, lv, root, x) == 0 {
        GoSameBlock(m, lv, root, va, x);
      }
    }
  }

  lemma SameMapsTrans(m0: Tables, lv0: map<nat, nat>, m1: Tables, lv1: map<nat, nat>, m2: Tables, lv2: map<nat, nat>,
      root: nat)
    requires Tree(m0, lv0) && root in lv0 && lv0[root] == 3
    requires Tree(m1, lv1) && root in lv1 && lv1[root] == 3
    requires Tree(m2, lv2) && root in lv2 && lv2[root] == 3
    requires SameMaps(m0, lv0, m1, lv1, root) && SameMaps(m1, lv1, m2, lv2, root)
    ensures SameMaps(m0, lv0, m2, lv2, root)
  {
    forall x: nat | x < VA_END ensures SameMap(m0, lv0, m2, lv2, root, x) {
      assert SameMap(m0, lv0, m1, lv1, root, x) && SameMap(m1, lv1, m2, lv2, root, x);
    }
  }

  lemma SameMapsThenOutside(m0: Tables, lv0: map<nat, nat>, m1: Tables, lv1: map<nat, nat>, m2: Tables, lv2: map<nat,
      nat>, root: nat, va: nat)
    requires Tree(m0, lv0) && root in lv0 && lv0[root] == 3
    requires Tree(m1, lv1) && root in lv1 && lv1[root] == 3
    requires Tree(m2, lv2) && root in lv2 && lv2[root] == 3
    requires SameMaps(m0, lv0, m1, lv1, root) && SameMapOutside(m1, lv1, m2, lv2, root, va, 0)
    ensures SameMapOutside(m0, lv0, m2, lv2, root, va, 0)
  {
    forall x: nat | x < VA_END && Block(x, 0) != Block(va, 0) ensures SameMap(m0, lv0, m2, lv2, root, x) {
      assert SameMap(m0, lv0, m1, lv1, root, x) && SameMap(m1, lv1, m2, lv2, root, x);
    }
  }

  lemma ExtendWalk(m: Tables, lv: map<nat, nat>, root: nat, va: nat, c: nat)
    requires Tree(m, lv) && root in lv && lv[root] == 3 && Canonical(va) && c !in lv
    requires var p := Walk(m, lv, root, va); p.level > 0
    ensures var p := Walk(m, lv, root, va);
            && TableOk(m, lv, p.table) && p.idx < 512 && lv[p.table] == p.level
    ensures Tree(AddTable(m, Walk(m, lv, root, va).table, Walk(m, lv, root, va).idx, c),
            lv[c := Walk(m, lv, root, va).level - 1])
    ensures var p := Walk(m, lv, root, va);
            Walk(AddTable(m, p.table, p.idx, c), lv[c := p.level - 1], root, va) ==
                Place(c, Index(va, p.level - 1), p.level - 1, p.perm)
    ensures var p := Walk(m, lv, root, va);
            Go(AddTable(m, p.table, p.idx, c), lv[c := p.level - 1], p.table, p.level, va, p.perm) ==
                Place(c, Index(va, p.level - 1), p.level - 1, p.perm)
  {
    var p := Walk(m, lv, root, va);
    AddMovesGo(m, lv, p.table, p.idx, c, root, 3, va, 0xFFF);
    AddMovesGo(m, lv, p.table, p.idx, c, p.table, p.level, va, p.perm);
  }

  lemma ExtendMaps(m: Tables, lv: map<nat, nat>, root: nat, t: nat, i: nat, c: nat)
    requires Tree(m, lv) && root in lv && lv[root] == 3
    requires TableOk(m, lv, t) && i < 512 && lv[t] > 0 && !m[t][i].Present() && c !in lv
    ensures Tree(AddTable(m, t, i, c), lv[c := lv[t] - 1])
    ensures SameMaps(m, lv, AddTable(m, t, i, c), lv[c := lv[t] - 1], root)
  {
    TableIsPresent(m[t][i]);
    AddKeepsTree(m, lv, t, i, c);
    var m', lv' := AddTable(m, t, i, c), lv[c := lv[t] - 1];
    forall x: nat | x < VA_END ensures SameMap(m, lv, m', lv', root, x) {
      AddChangesNothing(m, lv, root, t, i, c, x);
    }
  }

  lemma WriteWalks(m: Tables, lv: map<nat, nat>, root: nat, va: nat, p: Place, e: Entry)
    requires Tree(m, lv) && root in lv && lv[root] == 3 && Canonical(va)
    requires p == Walk(m, lv, root, va) && (p.level == 0 || !e.Table())
    ensures p.table in m && p.idx < |m[p.table]| && Tree(SetEntry(m, p.table, p.idx, e), lv)
    ensures Walk(SetEntry(m, p.table, p.idx, e), lv, root, va) == p
    ensures SameMapOutside(m, lv, SetEntry(m, p.table, p.idx, e), lv, root, va, p.level)
    ensures SameWalks(m, SetEntry(m, p.table, p.idx, e), lv, root)
  {
    assert TableOk(m, lv, p.table);
    SetKeepsTree(m, lv, p.table, p.idx, e);
    forall x: nat | x < VA_END ensures Walk(SetEntry(m, p.table, p.idx, e), lv, root, x) == Walk(m, lv, root, x) {
      SetChangesOneBlock(m, lv, root, va, p, e, x);
    }
    forall x: nat | x < VA_END && Block(x, p.level) != Block(va, p.level)
      ensures SameMap(m, lv, SetEntry(m, p.table, p.idx, e), lv, root, x)
    {
      SetChangesOneBlock(m, lv, root, va, p, e, x);
    }
    SetChangesOneBlock(m, lv, root, va, p, e, va);
  }

  lemma ClearedBlock(m: Tables, lv: map<nat, nat>, root: nat, va: nat)
    requires Tree(m, lv) && root in lv && lv[root] == 3 && va < VA_END
    requires var p := Walk(m, lv, root, va); p.Place? ==> EntryAt(m, p) == ZERO
    ensures var level := LevelAt(Walk(m, lv, root, va));
            forall x: nat :: x < VA_END && Block(x, level) == Block(va, level) ==>
              Perm(m, lv, root, x) == 0 && Pa(m, lv, root, x) == None
  {
    ZeroEntry();
    forall x: nat | x < VA_END && Block(x, LevelAt(Walk(m, lv, root, va))) == Block(va, LevelAt(Walk(m, lv, root, va)))
      ensures Perm(m, lv, root, x) == 0 && Pa(m, lv, root, x) == None
    {
      GoSameBlock(m, lv, root, va, x);
      NotPresentNoPerm(ZERO, AllowedAt(Walk(m, lv, root, x)));
    }
  }

  lemma RestrictBits(perm: bv12, f: bv12)
    requires perm & 0xFF8 == 0xFF8
    ensures (perm & (f | !0x07)) & 0xFF8 == 0xFF8
  {
  }

  /** Tables above restrict only the present, writable and user bits. */
  lemma {:induction false} AllowedBits(m: Tables, lv: map<nat, nat>, t: nat, level: nat, va: nat, perm: bv12)
    requires Tree(m, lv) && t in lv && lv[t] == level && perm & 0xFF8 == 0xFF8
    ensures Go(m, lv, t, level, va, perm).perm & 0xFF8 == 0xFF8
    decreases level
  {
    GoUnfold(m, lv, t, level, va, perm);
    var e := m[t][Index(va, level)];
    if level > 0 && e.Table() {
      RestrictBits(perm, e.flags);
      AllowedBits(m, lv, e.pn, level - 1, va, Restrict(perm, e));
    }
  }

  /** A whole page below the entry that was filled for its first address. */
  lemma PageMapped(m: Tables, lv: map<nat, nat>, root: nat, va: nat, x: nat, w: Entry, p: bv12)
    requires Tree(m, lv) && root in lv && lv[root] == 3 && va < VA_END && va % PAGESIZE == 0 && va <= x < va + 0x1000
    requires LevelAt(Walk(m, lv, root, va)) == 0 && EntryAt(m, Walk(m, lv, root, va)) == Filled(w, p)
    requires Perm(m, lv, root, va) == (if p & PTE_P != 0 then p else 0)
    requires Filled(w, p).Present() <==> p & PTE_P != 0
    ensures MappedTo(m, lv, root, x, p, w.pn, va)
  {
    assert Block(x, 0) == Block(va, 0) && x < VA_END;
    GoSameBlock(m, lv, root, va, x);
    if p & PTE_P != 0 { PaOffsets(m, lv, root, va, x); }
    hide Tree, Walk;
  }

  lemma MaskBits(p: bv12, perm: bv12)
    requires perm & 0xFF8 == 0xFF8 && p & !perm & 0x07 == 0
    ensures p & perm == p
  {
  }

  lemma NoPresentBit(f: bv12, p: bv12)
    requires f & 0x01 == 0 && p & 0x01 == 0
    ensures (f | p) & 0x01 == 0
  {
  }

  lemma ZeroOr(p: bv12)
    ensures 0 | p == p
  {
  }

  /** What the entry written by `try_map` means. */
  lemma FilledBits(w: Entry, p: bv12, perm: bv12)
    requires EntryFits(w, p) && p & !perm & PTE_PWU == 0
    ensures p & PTE_P != 0 && perm & 0xFF8 == 0xFF8 ==> Filled(w, p).Present() && PermOf(Filled(w, p), perm) == p
    ensures p & PTE_P == 0 ==> !Filled(w, p).Present() && PermOf(Filled(w, p), perm) == 0
  {
    if p & PTE_P != 0 {
      ZeroOr(p);
      if perm & 0xFF8 == 0xFF8 { MaskBits(p, perm); }
    } else {
      NoPresentBit(w.flags, p);
      NotPresentNoPerm(Filled(w, p), perm);
    }
  }
}
