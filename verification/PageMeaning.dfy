/** What mappings mean, address by address: physical addresses and permissions. */
module PageMeaning {
  import opened PageTable
  import opened Util

  // ----- Physical addresses -----

  /** In the block where a walk stops at a present entry, physical addresses are as far apart as virtual ones, and the
      block starts at the page that the entry names; for a large page without the lowest bit of its number. */
  lemma PaOffsets(m: Tables, lv: map<nat, nat>, root: nat, va: nat, x: nat)
    requires Tree(m, lv) && root in lv && lv[root] == 3 && va < VA_END && x < VA_END
    requires var p := Walk(m, lv, root, va); EntryAt(m, p).Present() && Block(x, LevelAt(p)) == Block(va, LevelAt(p))
    ensures var p := Walk(m, lv, root, va);
            var start, pn := Block(va, p.level) * Size(p.level), EntryAt(m, p).pn;
            && p.Place? && start <= x < start + Size(p.level) && Pa(m, lv, root, x).Some?
            && Pa(m, lv, root, x).value ==
                 (if p.level == 0 || pn % 2 == 0 then pn else pn - 1) * 0x1000 + (x - start)
  {
    GoSameBlock(m, lv, root, va, x);
    ZeroEntry();
    var p := Walk(m, lv, root, va);
    InBlock(x, p.level);
    hide Tree, Walk, Block, Size;
  }

  lemma InBlock(x: nat, level: nat)
    requires level <= 3
    ensures Block(x, level) * Size(level) <= x < Block(x, level) * Size(level) + Size(level)
    ensures x % Size(level) == x - Block(x, level) * Size(level)
  {
  }

  lemma PaDistance(m: Tables, lv: map<nat, nat>, root: nat, x: nat, y: nat)
    requires Tree(m, lv) && root in lv && lv[root] == 3 && x < VA_END && y < VA_END
    requires var p := Walk(m, lv, root, x); EntryAt(m, p).Present() && Block(y, LevelAt(p)) == Block(x, LevelAt(p))
    ensures Pa(m, lv, root, x).Some? && Pa(m, lv, root, y).Some?
    ensures Pa(m, lv, root, x).value - Pa(m, lv, root, y).value == x - y
  {
    PaOffsets(m, lv, root, x, x);
    PaOffsets(m, lv, root, x, y);
    hide Tree, Walk, Pa, Block, Size;
  }

  /** A walk goes into the tables exactly if the address has its bits from 47 up alike. */
  lemma SomewhereMeans(m: Tables, lv: map<nat, nat>, root: nat, va: nat)
    requires Tree(m, lv) && root in lv && lv[root] == 3 && va < VA_END
    ensures Walk(m, lv, root, va).Place? <==> va / 0x8000_0000_0000 == 0 || va / 0x8000_0000_0000 == 0x1_FFFF
  {
  }

  // ----- Permissions -----

  predicate OneBit(bit: bv12) { bit == 0x01 || bit == 0x02 || bit == 0x04 }

  predicate Has(f: bv12, bit: bv12) { f & bit != 0 }

  /** Every entry on the way of `va`, from table `t` down to where the walk stops, has the bit. */
  ghost predicate AllAllow(m: Tables, lv: map<nat, nat>, t: nat, level: nat, va: nat, bit: bv12)
    requires Tree(m, lv) && t in lv && lv[t] == level
    decreases level
  {
    assert TableOk(m, lv, t);
    var e := m[t][Index(va, level)];
    && Has(e.flags, bit)
    && (level > 0 && e.Table() ==>
          assert Points(m, lv, t, Index(va, level), e.pn);
          AllAllow(m, lv, e.pn, level - 1, va, bit))
  }

  lemma RestrictBit(perm: bv12, e: Entry, bit: bv12)
    requires OneBit(bit)
    ensures Has(Restrict(perm, e), bit) <==> Has(perm, bit) && Has(e.flags, bit)
  {
    var f := e.flags;
    RestrictBitOf(perm, f, bit);
  }

  lemma RestrictBitOf(perm: bv12, f: bv12, bit: bv12)
    requires OneBit(bit)
    ensures (perm & (f | !0x07)) & bit != 0 <==> perm & bit != 0 && f & bit != 0
  {
  }

  /** What a walk allows of a bit: what it started with, if every table on the way has it. */
  lemma {:induction false} GoAllows(m: Tables, lv: map<nat, nat>, t: nat, level: nat, va: nat, perm: bv12, bit: bv12)
    requires Tree(m, lv) && t in lv && lv[t] == level && OneBit(bit)
    ensures var p := Go(m, lv, t, level, va, perm);
            Has(p.perm, bit) && Has(EntryAt(m, p).flags, bit) <==> Has(perm, bit) && AllAllow(m, lv, t, level, va, bit)
    decreases level
  {
    assert TableOk(m, lv, t);
    GoUnfold(m, lv, t, level, va, perm);
    var e := m[t][Index(va, level)];
    if level > 0 && e.Table() {
      assert Points(m, lv, t, Index(va, level), e.pn);
      RestrictBit(perm, e, bit);
      GoAllows(m, lv, e.pn, level - 1, va, Restrict(perm, e), bit);
    }
    hide Restrict, Has, OneBit;
  }

  /** An address can be used, written or reached by user code exactly if every entry on its way, tables included, is
      present and allows it. */
  lemma PermMeans(m: Tables, lv: map<nat, nat>, root: nat, va: nat, bit: bv12)
    requires Tree(m, lv) && root in lv && lv[root] == 3 && OneBit(bit)
    ensures Has(Perm(m, lv, root, va), bit) <==>
              Canonical(va) && AllAllow(m, lv, root, 3, va, 0x01) && AllAllow(m, lv, root, 3, va, bit)
  {
    StartBits(bit);
    hide PermOf, AllAllow, Go, OneBit, Has;
    PermBit(EntryAt(m, Walk(m, lv, root, va)), AllowedAt(Walk(m, lv, root, va)), bit);
    if Canonical(va) {
      GoAllows(m, lv, root, 3, va, 0xFFF, 0x01);
      GoAllows(m, lv, root, 3, va, 0xFFF, bit);
    }
  }

  lemma StartBits(bit: bv12)
    requires OneBit(bit)
    ensures Has(0xFFF, bit) && Has(0xFFF, 0x01) && !Has(0, 0x01) && OneBit(0x01)
  {
  }

  lemma PermBit(e: Entry, perm: bv12, bit: bv12)
    requires OneBit(bit)
    ensures Has(PermOf(e, perm), bit) <==>
              Has(perm, 0x01) && Has(e.flags, 0x01) && Has(perm, bit) && Has(e.flags, bit)
  {
    var f := e.flags;
    PermBitOf(f, perm, 0x01);
    PermBitOf(f, perm, bit);
  }

  lemma PermBitOf(f: bv12, perm: bv12, bit: bv12)
    requires OneBit(bit)
    ensures (f & perm) & bit != 0 <==> f & bit != 0 && perm & bit != 0
    ensures (0 as bv12) & bit == 0
  {
  }

  /** The other bits are those of the entry where the walk stops. */
  lemma OtherBits(m: Tables, lv: map<nat, nat>, root: nat, va: nat)
    requires Tree(m, lv) && root in lv && lv[root] == 3 && Has(Perm(m, lv, root, va), 0x01)
    ensures Perm(m, lv, root, va) & 0xFF8 == EntryAt(m, Walk(m, lv, root, va)).flags & 0xFF8
  {
    var p := Walk(m, lv, root, va);
    assert (0xFFF as bv12) & 0xFF8 == 0xFF8;
    assert p.Place? by { StartBits(0x01); PermBit(ZERO, 0, 0x01); hide PermOf, Has; }
    GoKeepsOthers(m, lv, root, 3, va, 0xFFF);
    OtherBitsOf(EntryAt(m, p), p.perm);
    hide PermOf, Go;
  }

  lemma {:induction false} GoKeepsOthers(m: Tables, lv: map<nat, nat>, t: nat, level: nat, va: nat, perm: bv12)
    requires Tree(m, lv) && t in lv && lv[t] == level && perm & 0xFF8 == 0xFF8
    ensures Go(m, lv, t, level, va, perm).perm & 0xFF8 == 0xFF8
    decreases level
  {
    GoUnfold(m, lv, t, level, va, perm);
    var e := m[t][Index(va, level)];
    if level > 0 && e.Table() {
      var f := e.flags;
      assert (perm & (f | !0x07)) & 0xFF8 == 0xFF8;
      GoKeepsOthers(m, lv, e.pn, level - 1, va, Restrict(perm, e));
    }
  }

  lemma OtherBitsOf(e: Entry, perm: bv12)
    requires perm & 0xFF8 == 0xFF8 && Has(PermOf(e, perm), 0x01)
    ensures PermOf(e, perm) & 0xFF8 == e.flags & 0xFF8
  {
    var f := e.flags;
    assert (f & perm) & 0xFF8 == f & 0xFF8;
  }
}
