/** The iterator over table pages. */
module PtIter {
  import opened PageTable
  import opened PtPositions
  import opened PtRemoval
  import opened Vmiter
  import opened Util

  lemma BlockFits(va: nat, level: nat)
    requires va < VA_NONCANONEND && 1 <= level <= 3
    ensures Pos(level, Block(va, level)).Ok()
    ensures level < 3 ==> Pos(level, Block(va, level)).Up() == Pos(level + 1, Block(va, level + 1))
  {
    BlockUp(va, level);
  }

  /** The address at which a block starts. */
  lemma BlockStart(q: nat, level: nat)
    requires 1 <= level <= 3
    ensures Block(q * Size(level), level) == q && (q * Size(level)) % Size(level) == 0
  {
  }

  lemma BlockBounds(va: nat, level: nat)
    requires va < VA_NONCANONEND && 1 <= level <= 3
    ensures va < (Block(va, level) + 1) * Size(level) <= VA_NONCANONEND
  {
  }

  /** One block further, and whether that leaves the table. */
  lemma NextBlock(va: nat, level: nat)
    requires va < VA_NONCANONEND && 1 <= level <= 3
    ensures var va' := (Block(va, level) + 1) * Size(level);
            && va < va' <= VA_NONCANONEND && va' % Size(level) == 0 && Block(va', level) == Block(va, level) + 1
            && (Block(va', level + 1) == Block(va, level + 1) <==> (Block(va, level) + 1) % 512 != 0)
  {
    var va' := (Block(va, level) + 1) * Size(level);
    BlockStart(Block(va, level) + 1, level);
    BlockBounds(va, level);
    BlockUp(va, level);
    BlockUp(va', level);
    NextUp(Block(va, level));
    hide Block, Size;
  }

  lemma TableEnds(va: nat, level: nat)
    requires va < VA_NONCANONEND && 1 <= level <= 3
    requires Block((Block(va, level) + 1) * Size(level), level + 1) != Block(va, level + 1)
    ensures (Block(va, level) + 1) % 512 == 0 && Pos(level, Block(va, level)).Ok()
    ensures level < 3 ==> Pos(level, Block(va, level)).Up() == Pos(level + 1, Block(va, level + 1))
  {
    BlockFits(va, level);
    NextBlock(va, level);
  }

  lemma NextUp(q: nat)
    ensures (q + 1) / 512 == q / 512 <==> (q + 1) % 512 != 0
  {
  }

  lemma AlignedDown(va: nat, level: nat)
    requires 1 < level <= 3 && va % Size(level) == 0
    ensures va % Size(level - 1) == 0 && Block(va, level - 1) == Block(va, level) * 512
    ensures Block(va, level - 1) * Size(level - 1) == Block(va, level) * Size(level)
  {
    if level == 2 { AlignedDown2(va); } else { AlignedDown3(va); }
  }

  lemma AlignedDown2(va: nat)
    requires va % 0x4000_0000 == 0
    ensures va % 0x20_0000 == 0 && va / 0x20_0000 == va / 0x4000_0000 * 512
  {
  }

  lemma AlignedDown3(va: nat)
    requires va % 0x80_0000_0000 == 0
    ensures va % 0x4000_0000 == 0 && va / 0x4000_0000 == va / 0x80_0000_0000 * 512
  {
  }

  lemma {:induction false} BelowSelf(va: nat, low: nat, level: nat)
    requires va < VA_NONCANONEND && 1 <= low <= level <= 3
    ensures Pos(low, Block(va, low)).Ok() && Pos(level, Block(va, level)).Ok()
    ensures Below(Pos(low, Block(va, low)), Pos(level, Block(va, level)))
    decreases level - low
  {
    BlockFits(va, low);
    BlockFits(va, level);
    if low < level { BelowSelf(va, low + 1, level); }
  }

  class PtIter {
    const mem: Memory
    const pt: nat
    var table: nat
    var idx: nat
    var level: nat
    var va: nat

    function Here(): Pos
      reads this
      requires level <= 4
    {
      Pos(level, Block(va, level))
    }

    ghost predicate Rooted()
      reads mem
    {
      mem.Valid() && pt in mem.lv && mem.lv[pt] == 3
    }

    /** `pep_` is the entry for the current position. */
    ghost predicate Placed()
      reads this, mem
    {
      && Rooted() && 1 <= level <= 3 && va < VA_NONCANONEND
      && Slot(mem.m, pt, Here()) == Some(table) && idx == Here().q % 512 && TableOk(mem.m, mem.lv, table)
    }

    /** `go(0)`. */
    constructor (mem: Memory, pt: nat)
      requires mem.Valid() && pt in mem.lv && mem.lv[pt] == 3
      ensures this.mem == mem && this.pt == pt && Rooted()
      ensures va <= VA_NONCANONEND && (va < VA_NONCANONEND ==> Placed() && First(mem.m, pt, 0, 0, Here()))
      ensures va == VA_NONCANONEND ==> NoneLater(mem.m, pt, 0, 0)
    {
      this.mem := mem;
      this.pt := pt;
      this.table, this.idx, this.level, this.va := pt, 0, 3, 0;
      new;
      assert TableOk(mem.m, mem.lv, pt);
      Down(false, 0, 0);
    }

    predicate Low()
      reads this
    {
      va < VA_LOWEND
    }

    /** The search is under way, or, with `skip`, about to pass the current position. */
    ghost predicate Searching(skip: bool, s: nat, l: nat)
      reads this, mem
      requires Placed()
    {
      if skip then Passed(mem.m, pt, s, l, Here()) else Scan(mem.m, pt, s, l, Here()) && va % Size(level) == 0
    }

    ghost function Start(): nat
      reads this
      requires level <= 4
    {
      Block(va, level) * Size(level)
    }

    /** Find the first table after `(s, l)`: from the current position, or, with `skip0`, after passing it. */
    method Down(skip0: bool, ghost s: nat, ghost l: nat)
      requires Placed() && Searching(skip0, s, l)
      modifies `table, `idx, `level, `va
      ensures va <= VA_NONCANONEND
      ensures va < VA_NONCANONEND ==> Placed() && First(mem.m, pt, s, l, Here())
      ensures va == VA_NONCANONEND ==> NoneLater(mem.m, pt, s, l)
    {
      ghost var m := mem.m;
      var skip, stop_level := skip0, 1;
      hide Scan, First, NoneLater, Tree, PtIter.Searching, Size, Block, Slot, HasTable;
      while true
        invariant Placed() && stop_level >= 1
        invariant stop_level == 1 ==> Searching(skip, s, l)
        invariant stop_level > 1 ==>
                  !skip && stop_level <= level && First(m, pt, s, l, Pos(stop_level, Block(va, stop_level)))
        decreases if stop_level == 1 then 1 else 0, VA_NONCANONEND - (if stop_level == 1 then Start() else 0), level
      {
        if stop_level > 1 { Leads(m, pt, s, l, va, stop_level, level); }
        BlockFits(va, level);
        if mem.m[table][idx].Table() && !skip {
          if level == stop_level {
            break;
          }
          if stop_level == 1 { ScanStepDown(s, l); } else { StepDown(); }
        } else {
          var va' := (Block(va, level) + 1) * Size(level);
          if Block(va', level + 1) != Block(va, level + 1) {
            LeavesTable(skip, s, l);
            if level == 3 {
              va := VA_NONCANONEND;
              return;
            }
            stop_level := level + 1;
            Restart();
          } else {
            Sibling(skip, s, l, va');
          }
          skip := false;
        }
      }
      if stop_level == 1 { Found(s, l); }
    }

    lemma EntryIsTable()
      requires Placed()
      ensures Here().Ok() && (HasTable(mem.m, pt, Here()) <==> mem.m[table][idx].Table())
    {
      BlockFits(va, level);
    }

    lemma Found(s: nat, l: nat)
      requires Placed() && Searching(false, s, l) && level == 1 && mem.m[table][idx].Table()
      ensures First(mem.m, pt, s, l, Here())
    {
      ScanFinds(mem.m, pt, s, l, Here());
    }

    /** The last entry of a table is passed: the table is next, or the iteration is over. */
    lemma LeavesTable(skip: bool, s: nat, l: nat)
      requires Placed() && Searching(skip, s, l) && (!skip ==> !mem.m[table][idx].Table())
      requires Block((Block(va, level) + 1) * Size(level), level + 1) != Block(va, level + 1)
      ensures if level == 3
              then NoneLater(mem.m, pt, s, l) else First(mem.m, pt, s, l, Pos(level + 1, Block(va, level + 1)))
    {
      TableEnds(va, level);
      hide Block, Size, Span, Tree, End, Begin;
      PassHere(skip, s, l);
      hide Passed, Scan, First, NoneLater;
      if level == 3 { PassEnd(mem.m, pt, s, l, Here()); } else { PassUp(mem.m, pt, s, l, Here()); }
    }

    /** The current entry is passed, because it is no table or because it is to be skipped. */
    lemma PassHere(skip: bool, s: nat, l: nat)
      requires Placed() && Searching(skip, s, l) && (!skip ==> !mem.m[table][idx].Table())
      ensures Passed(mem.m, pt, s, l, Here())
    {
      if !skip {
        EntryIsTable();
        hide Scan, Passed, HasTable, Slot;
        ScanPasses(mem.m, pt, s, l, Here());
      }
    }

    /** Back to the root, for the same address. */
    method Restart()
      requires Placed()
      modifies `table, `idx, `level
      ensures Placed() && level == 3
    {
      level := 3;
      table, idx := pt, Block(va, 3) % 512;
      BlockFits(va, 3);
      assert TableOk(mem.m, mem.lv, pt);
    }

    /** On to the next entry of the same table. */
    method Sibling(skip: bool, ghost s: nat, ghost l: nat, va': nat)
      requires Placed() && Searching(skip, s, l) && (!skip ==> !mem.m[table][idx].Table())
      requires va' == (Block(va, level) + 1) * Size(level) && Block(va', level + 1) == Block(va, level + 1)
      modifies `idx, `va
      ensures Placed() && Searching(false, s, l) && old(Start()) < Start() <= VA_NONCANONEND
    {
      SiblingPos(va, va', level);
      PassHere(skip, s, l);
      hide Block, Size, Passed, Scan, Tree, Slot, HasTable, PtIter.Rooted, TableOk;
      PassOn(mem.m, pt, s, l, Here());
      idx := idx + 1;
      va := va';
    }

    /** The search goes on in the table of the current entry. */
    method ScanStepDown(ghost s: nat, ghost l: nat)
      requires Placed() && Searching(false, s, l) && level > 1 && mem.m[table][idx].Table()
      modifies `table, `idx, `level
      ensures Placed() && Searching(false, s, l) && level == old(level) - 1 && Start() == old(Start())
    {
      AlignedDown(va, level);
      ScanDown(mem.m, pt, s, l, Here());
      hide Block, Size, Scan, Tree;
      StepDown();
    }

    /** `next`: the first table after the current position. */
    method Next()
      requires Placed()
      modifies `table, `idx, `level, `va
      ensures va <= VA_NONCANONEND
      ensures va < VA_NONCANONEND ==> Placed() && First(mem.m, pt, End(old(Here())), old(level), Here())
      ensures va == VA_NONCANONEND ==> NoneLater(mem.m, pt, End(old(Here())), old(level))
    {
      BlockFits(va, level);
      VisitedIsPassed(mem.m, pt, Here());
      Down(true, End(Here()), level);
    }

    /** `kfree_ptp`: give back the current table page and clear its entry. */
    method KfreePtp()
      requires Placed() && Here().Ok() && HasTable(mem.m, pt, Here())
      modifies mem
      ensures Placed() && mem.m == Removed(old(mem.m), table, idx, Child(old(mem.m), pt, Here()))
      ensures mem.freed == old(mem.freed) + [Child(old(mem.m), pt, Here())]
    {
      ghost var m, lv := mem.m, mem.lv;
      var c := mem.m[table][idx].pn;
      ghost var p := Here();
      RemoveKeepsTree(m, lv, pt, p);
      RemoveAt(m, lv, pt, p, p);
      hide Tree;
      mem.freed := mem.freed + [c];
      mem.m := Removed(mem.m, table, idx, c);
      mem.lv := lv - {c};
    }

    /** Go down to the table of the current entry. */
    method StepDown()
      requires Placed() && level > 1 && mem.m[table][idx].Table()
      modifies `table, `idx, `level
      ensures Placed() && level == old(level) - 1
    {
      ghost var up := Here();
      var e := mem.m[table][idx];
      BlockFits(va, level);
      level := level - 1;
      BlockFits(va, level);
      table, idx := e.pn, Block(va, level) % 512;
      assert Here().Up() == up;
      SlotInTree(mem.m, mem.lv, pt, Here());
    }
  }

  lemma SiblingPos(va: nat, va': nat, level: nat)
    requires va < VA_NONCANONEND && 1 <= level <= 3
    requires va' == (Block(va, level) + 1) * Size(level) && Block(va', level + 1) == Block(va, level + 1)
    ensures (Block(va, level) + 1) % 512 != 0 && Block(va, level) % 512 + 1 == Block(va', level) % 512
    ensures Block(va', level) == Block(va, level) + 1 && va' % Size(level) == 0
    ensures va' < VA_NONCANONEND && Block(va, level) * Size(level) < va' == Block(va', level) * Size(level)
  {
    NextBlock(va, level);
    NextIndex(Block(va, level));
    SiblingFits(va, va', level);
  }

  lemma SiblingFits(va: nat, va': nat, level: nat)
    requires va < VA_NONCANONEND && 1 <= level <= 3 && va' == (Block(va, level) + 1) * Size(level)
    requires (Block(va, level) + 1) % 512 != 0
    ensures va' < VA_NONCANONEND && Block(va, level) * Size(level) < va' == Block(va', level) * Size(level)
  {
    BlockStart(Block(va, level) + 1, level);
    BlockBounds(va, level);
  }

  lemma NextIndex(q: nat)
    requires (q + 1) % 512 != 0
    ensures q % 512 + 1 == (q + 1) % 512
  {
  }

  /** On the way down to a table, every entry refers to one. */
  lemma Leads(m: Tables, root: nat, s: nat, l: nat, va: nat, stop: nat, level: nat)
    requires va < VA_NONCANONEND && 1 <= stop <= level <= 3 && First(m, root, s, l, Pos(stop, Block(va, stop)))
    ensures Pos(level, Block(va, level)).Ok() && HasTable(m, root, Pos(level, Block(va, level)))
  {
    BelowSelf(va, stop, level);
    HasTableAbove(m, root, Pos(stop, Block(va, stop)), Pos(level, Block(va, level)));
  }
}
