/** Four-level page tables: entries, the walk of an address, and what single writes change. */
module PageTable {
  import opened Util

  const PTE_P: bv12 := 0x01
  const PTE_PWU: bv12 := 0x07
  const PTE_PS: bv12 := 0x80

  /** A 64-bit entry: bits 12 to 51 (a page number), bits 0 to 11, and bits 52 to 63. */
  datatype Entry = Entry(pn: nat, flags: bv12, hi: bv12)
  {
    predicate Present() { flags & PTE_P != 0 }
    /** Present and not a large page: above level 0, refers to a table. */
    predicate Table() { flags & (PTE_P | PTE_PS) == PTE_P }
  }

  const ZERO := Entry(0, 0, 0)

  function EmptyTable(): (t: seq<Entry>)
    ensures |t| == 512 && forall i :: 0 <= i < 512 ==> t[i] == ZERO
  {
    seq(512, i => ZERO)
  }

  lemma ZeroEntry()
    ensures !ZERO.Present() && !ZERO.Table()
  {
  }

  lemma TableIsPresent(e: Entry)
    ensures e.Table() ==> e.Present()
  {
    var f := e.flags;
    assert f & 0x81 == 0x01 ==> f & 0x01 != 0;
  }

  /** Table pages by page number. */
  type Tables = map<nat, seq<Entry>>

  const VA_LOWEND := 0x0000_8000_0000_0000
  const VA_HIGHMIN := 0xFFFF_8000_0000_0000
  const VA_END := 0x1_0000_0000_0000_0000
  const PAGESIZE := 0x1000

  predicate Canonical(va: nat) { va < VA_LOWEND || VA_HIGHMIN <= va < VA_END }

  /** Bytes covered by an entry of a level; one level up from the root, by a whole root table. */
  function Size(level: nat): (s: nat)
    requires level <= 4
    ensures s > 0
  {
    if level == 0 then 0x1000 else if level == 1 then 0x20_0000 else if level == 2 then 0x4000_0000
    else if level == 3 then 0x80_0000_0000 else 0x1_0000_0000_0000
  }

  /** The number of the block of `Size(level)` bytes that holds `va`. */
  function Block(va: nat, level: nat): nat
    requires level <= 4
  {
    va / Size(level)
  }

  /** `pageindex(va, level)`. */
  function Index(va: nat, level: nat): (i: nat)
    requires level <= 4
    ensures i < 512
  {
    Block(va, level) % 512
  }

  /** `(va | pageoffmask(level)) + 1`, in 64 bits. */
  function Bump(va: nat, level: nat): nat
    requires level <= 4
  {
    ((Block(va, level) + 1) * Size(level)) % VA_END
  }

  lemma BlockUp(va: nat, level: nat)
    requires level < 4
    ensures Block(va, level) / 512 == Block(va, level + 1)
  {
  }

  lemma {:induction false} SameBlockUp(x: nat, y: nat, low: nat, level: nat)
    requires low <= level <= 4 && Block(x, low) == Block(y, low)
    ensures Block(x, level) == Block(y, level)
    decreases level
  {
    if low < level {
      SameBlockUp(x, y, low, level - 1);
      BlockUp(x, level - 1);
      BlockUp(y, level - 1);
    }
  }

  /** Blocks of the top level do not straddle the end of the canonical addresses. */
  lemma CanonicalBlock(x: nat, y: nat, level: nat)
    requires x < VA_END && y < VA_END && level <= 3 && Block(x, level) == Block(y, level)
    ensures Canonical(x) == Canonical(y)
  {
    SameBlockUp(x, y, level, 3);
  }

  lemma CanonicalTop(x: nat, y: nat)
    requires Canonical(x) && Canonical(y) && Index(x, 3) == Index(y, 3)
    ensures Block(x, 3) == Block(y, 3)
  {
    TopBlock(x);
    TopBlock(y);
    hide *;
  }

  /** The top index of a canonical address tells which half it is in. */
  lemma TopBlock(x: nat)
    requires Canonical(x)
    ensures Block(x, 3) == if Index(x, 3) < 256 then Index(x, 3) else Index(x, 3) + 0x1FF_FE00
  {
    var k := x / 0x80_0000_0000;
    assert Block(x, 3) == k && Index(x, 3) == k % 512;
    if x < VA_LOWEND { assert k < 256; } else { assert 0x1FF_FF00 <= k < 0x200_0000; }
  }

  lemma SameFromUp(x: nat, y: nat, level: nat)
    requires level < 4 && Block(x, level + 1) == Block(y, level + 1) && Index(x, level) == Index(y, level)
    ensures Block(x, level) == Block(y, level)
  {
    BlockUp(x, level);
    BlockUp(y, level);
    assert Block(x, level) == Block(x, level) / 512 * 512 + Index(x, level);
    assert Block(y, level) == Block(y, level) / 512 * 512 + Index(y, level);
  }

  // ----- The shape of the tables -----

  /** Entry `i` of table `t`, which is not of the last level, refers to table `c`. */
  predicate Points(m: Tables, lv: map<nat, nat>, t: nat, i: nat, c: nat) {
    t in lv && t in m && |m[t]| == 512 && i < 512 && lv[t] > 0 && m[t][i].Table() && m[t][i].pn == c
  }

  predicate TableOk(m: Tables, lv: map<nat, nat>, t: nat) {
    t in lv && lv[t] <= 3 && t in m && |m[t]| == 512
  }

  /** `lv` gives the level of every table page: entries refer to tables one level down, no two to the same. */
  ghost predicate Tree(m: Tables, lv: map<nat, nat>) {
    && (forall t :: t in lv ==> TableOk(m, lv, t))
    && (forall t, i, c :: Points(m, lv, t, i, c) ==> c in lv && lv[c] + 1 == lv[t])
    && (forall t, i, u, j, c :: Points(m, lv, t, i, c) && Points(m, lv, u, j, c) ==> t == u && i == j)
  }

  // ----- The walk -----

  /** Where a walk stops: entry `idx` of `table`, at `level`, with the permissions allowed so far; or nowhere, for an
      address that is not canonical. */
  datatype Place = Place(table: nat, idx: nat, level: nat, perm: bv12) | Nowhere

  function Restrict(perm: bv12, e: Entry): bv12 { perm & (e.flags | !PTE_PWU) }

  ghost function Go(m: Tables, lv: map<nat, nat>, t: nat, level: nat, va: nat, perm: bv12): (p: Place)
    requires Tree(m, lv) && t in lv && lv[t] == level
    ensures p.Place? && p.table in lv && p.level == lv[p.table] <= level && p.idx == Index(va, p.level)
    ensures TableOk(m, lv, p.table) && (p.level == 0 || !m[p.table][p.idx].Table())
    decreases level
  {
    assert TableOk(m, lv, t);
    var e := m[t][Index(va, level)];
    if level > 0 && e.Table() then
      assert Points(m, lv, t, Index(va, level), e.pn);
      Go(m, lv, e.pn, level - 1, va, Restrict(perm, e))
    else Place(t, Index(va, level), level, perm)
  }

  /** A walk from the root. */
  ghost function Walk(m: Tables, lv: map<nat, nat>, root: nat, va: nat): Place
    requires Tree(m, lv) && root in lv && lv[root] == 3
  {
    if Canonical(va) then Go(m, lv, root, 3, va, 0xFFF) else Nowhere
  }

  function EntryAt(m: Tables, p: Place): Entry
    requires p.Place? ==> p.table in m && p.idx < |m[p.table]|
  {
    if p.Place? then m[p.table][p.idx] else ZERO
  }

  function AllowedAt(p: Place): bv12 { if p.Place? then p.perm else 0 }
  function LevelAt(p: Place): nat { if p.Place? then p.level else 3 }

  /** Permissions of a mapping with entry `e` below tables that allow `perm`: none unless present. */
  function PermOf(e: Entry, perm: bv12): bv12 {
    var ph := e.flags & perm;
    if ph & PTE_P != 0 then ph else 0
  }

  /** Physical address for `va` of a mapping with entry `e` at a level, if present. */
  function PaOf(e: Entry, level: nat, va: nat): Option<nat>
    requires level <= 3
  {
    if !e.Present() then None
    else Some((if level > 0 then e.pn - e.pn % 2 else e.pn) * PAGESIZE + va % Size(level))
  }

  ghost function Perm(m: Tables, lv: map<nat, nat>, root: nat, va: nat): bv12
    requires Tree(m, lv) && root in lv && lv[root] == 3
  {
    var p := Walk(m, lv, root, va);
    PermOf(EntryAt(m, p), AllowedAt(p))
  }

  ghost function Pa(m: Tables, lv: map<nat, nat>, root: nat, va: nat): Option<nat>
    requires Tree(m, lv) && root in lv && lv[root] == 3
  {
    var p := Walk(m, lv, root, va);
    PaOf(EntryAt(m, p), LevelAt(p), va)
  }

  lemma GoDown(m: Tables, lv: map<nat, nat>, t: nat, level: nat, x: nat, perm: bv12)
    requires Tree(m, lv) && t in lv && lv[t] == level && TableOk(m, lv, t) && level > 0 && m[t][Index(x, level)].Table()
    ensures var e := m[t][Index(x, level)];
            && Points(m, lv, t, Index(x, level), e.pn) && e.pn in lv && lv[e.pn] == level - 1
            && Go(m, lv, t, level, x, perm) == Go(m, lv, e.pn, level - 1, x, Restrict(perm, e))
  {
    assert Points(m, lv, t, Index(x, level), m[t][Index(x, level)].pn);
  }

  lemma GoStops(m: Tables, lv: map<nat, nat>, t: nat, level: nat, x: nat, perm: bv12)
    requires Tree(m, lv) && t in lv && lv[t] == level && TableOk(m, lv, t) &&
             (level == 0 || !m[t][Index(x, level)].Table())
    ensures Go(m, lv, t, level, x, perm) == Place(t, Index(x, level), level, perm)
  {
  }

  lemma GoUnfold(m: Tables, lv: map<nat, nat>, t: nat, level: nat, x: nat, perm: bv12)
    requires Tree(m, lv) && t in lv && lv[t] == level
    ensures t in m && |m[t]| == 512
    ensures level > 0 && m[t][Index(x, level)].Table() ==>
              Points(m, lv, t, Index(x, level), m[t][Index(x, level)].pn) && m[t][Index(x, level)].pn in lv
              && lv[m[t][Index(x, level)].pn] == level - 1
              && Go(m, lv, t, level, x, perm) ==
                   Go(m, lv, m[t][Index(x, level)].pn, level - 1, x, Restrict(perm, m[t][Index(x, level)]))
    ensures !(level > 0 && m[t][Index(x, level)].Table()) ==>
            Go(m, lv, t, level, x, perm) == Place(t, Index(x, level), level, perm)
  {
    assert TableOk(m, lv, t);
    if level > 0 && m[t][Index(x, level)].Table() { GoDown(m, lv, t, level, x, perm); }
  }

  /** The walks of two addresses are the same down to where one of them stops, if the addresses agree above that
      level. */
  lemma {:induction false} GoShared(m: Tables, lv: map<nat, nat>, t: nat, level: nat, x: nat, y: nat, perm: bv12,
      p: Place)
    requires Tree(m, lv) && t in lv && lv[t] == level <= 3
    requires p == Go(m, lv, t, level, x, perm) && Block(x, p.level + 1) == Block(y, p.level + 1)
    ensures Go(m, lv, t, level, y, perm) == Go(m, lv, p.table, p.level, y, p.perm)
    decreases level
  {
    assert TableOk(m, lv, t);
    var e := m[t][Index(x, level)];
    if level > 0 && e.Table() {
      GoDown(m, lv, t, level, x, perm);
      SameIndex(x, y, p.level + 1, level);
      GoDown(m, lv, t, level, y, perm);
      hide Go, Tree, Points, Index, Block, Restrict, TableOk;
      GoShared(m, lv, e.pn, level - 1, x, y, Restrict(perm, e), p);
    } else {
      GoStops(m, lv, t, level, x, perm);
      hide Go, Tree, Points, Index, Block, Restrict, TableOk;
    }
  }

  lemma SameIndex(x: nat, y: nat, low: nat, level: nat)
    requires low <= level <= 4 && Block(x, low) == Block(y, low)
    ensures Index(x, level) == Index(y, level)
  {
    SameBlockUp(x, y, low, level);
  }

  /** Addresses in the block where a walk stops have the same walk. */
  lemma GoSameBlock(m: Tables, lv: map<nat, nat>, root: nat, x: nat, y: nat)
    requires Tree(m, lv) && root in lv && lv[root] == 3 && x < VA_END && y < VA_END
    requires Block(x, LevelAt(Walk(m, lv, root, x))) == Block(y, LevelAt(Walk(m, lv, root, x)))
    ensures Walk(m, lv, root, y) == Walk(m, lv, root, x)
  {
    var p := Walk(m, lv, root, x);
    CanonicalBlock(x, y, LevelAt(p));
    if p.Place? {
      SameBlockUp(x, y, p.level, p.level + 1);
      GoShared(m, lv, root, 3, x, y, 0xFFF, p);
    }
  }

  // ----- Two walks meet only for the same page -----

  lemma {:induction false} DifferentEnds(m: Tables, lv: map<nat, nat>, t: nat, u: nat, level: nat, x: nat, y: nat,
      a: bv12, b: bv12)
    requires Tree(m, lv) && t in lv && u in lv && lv[t] == lv[u] == level && t != u
    requires Go(m, lv, t, level, x, a).level == Go(m, lv, u, level, y, b).level
    ensures Go(m, lv, t, level, x, a).table != Go(m, lv, u, level, y, b).table
    decreases level
  {
    assert TableOk(m, lv, t) && TableOk(m, lv, u);
    var e, f := m[t][Index(x, level)], m[u][Index(y, level)];
    if level > 0 && e.Table() && f.Table() {
      assert Points(m, lv, t, Index(x, level), e.pn) && Points(m, lv, u, Index(y, level), f.pn);
      DifferentEnds(m, lv, e.pn, f.pn, level - 1, x, y, Restrict(a, e), Restrict(b, f));
    }
  }

  lemma {:induction false} SameEndSameIndex(m: Tables, lv: map<nat, nat>, t: nat, level: nat, x: nat, y: nat,
      perm: bv12, k: nat)
    requires Tree(m, lv) && t in lv && lv[t] == level <= 3
    requires Go(m, lv, t, level, x, perm).table == Go(m, lv, t, level, y, perm).table
    requires Go(m, lv, t, level, x, perm).idx == Go(m, lv, t, level, y, perm).idx
    requires Go(m, lv, t, level, x, perm).level <= k <= level
    ensures Index(x, k) == Index(y, k)
    decreases level
  {
    var i, j := Index(x, level), Index(y, level);
    assert TableOk(m, lv, t);
    var e, f := m[t][i], m[t][j];
    if level > 0 && e.Table() && f.Table() {
      SameEndBelow(m, lv, t, level, x, y, perm);
      if k < level { SameEndSameIndex(m, lv, e.pn, level - 1, x, y, Restrict(perm, e), k); }
    } else {
      GoEnds(m, lv, t, level, x, perm);
      GoEnds(m, lv, t, level, y, perm);
      hide Go, Index;
    }
  }

  lemma GoEnds(m: Tables, lv: map<nat, nat>, t: nat, level: nat, x: nat, perm: bv12)
    requires Tree(m, lv) && t in lv && lv[t] == level && TableOk(m, lv, t)
    ensures Go(m, lv, t, level, x, perm).level < level <==> level > 0 && m[t][Index(x, level)].Table()
  {
    if level > 0 && m[t][Index(x, level)].Table() { GoDown(m, lv, t, level, x, perm); }
        else { GoStops(m, lv, t, level, x, perm); }
  }

  lemma SameEndBelow(m: Tables, lv: map<nat, nat>, t: nat, level: nat, x: nat, y: nat, perm: bv12)
    requires Tree(m, lv) && t in lv && lv[t] == level && TableOk(m, lv, t) && 0 < level <= 3
    requires m[t][Index(x, level)].Table() && m[t][Index(y, level)].Table()
    requires Go(m, lv, t, level, x, perm).table == Go(m, lv, t, level, y, perm).table
    ensures Index(x, level) == Index(y, level)
    ensures var e := m[t][Index(x, level)];
            && e.pn in lv && lv[e.pn] == level - 1
            && Go(m, lv, t, level, x, perm) == Go(m, lv, e.pn, level - 1, x, Restrict(perm, e))
            && Go(m, lv, t, level, y, perm) == Go(m, lv, e.pn, level - 1, y, Restrict(perm, e))
  {
    var i, j := Index(x, level), Index(y, level);
    var e, f := m[t][i], m[t][j];
    GoDown(m, lv, t, level, x, perm);
    GoDown(m, lv, t, level, y, perm);
    hide Go, Index;
    if i != j { DifferentEnds(m, lv, e.pn, f.pn, level - 1, x, y, Restrict(perm, e), Restrict(perm, f)); }
  }

  /** Walks of two addresses that stop at the same entry are in the same block. */
  lemma SameEntrySameBlock(m: Tables, lv: map<nat, nat>, root: nat, x: nat, y: nat)
    requires Tree(m, lv) && root in lv && lv[root] == 3 && Canonical(x) && Canonical(y)
    requires Walk(m, lv, root, x).table == Walk(m, lv, root, y).table
    requires Walk(m, lv, root, x).idx == Walk(m, lv, root, y).idx
    ensures Block(x, Walk(m, lv, root, x).level) == Block(y, Walk(m, lv, root, x).level)
  {
    var low := Walk(m, lv, root, x).level;
    forall k | low <= k <= 3 ensures Index(x, k) == Index(y, k) { SameEndSameIndex(m, lv, root, 3, x, y, 0xFFF, k); }
    hide Go;
    CanonicalTop(x, y);
    SameDownTo(x, y, low);
  }

  lemma {:induction false} SameDownTo(x: nat, y: nat, level: nat)
    requires level <= 3 && Block(x, 3) == Block(y, 3) && forall k :: level <= k <= 3 ==> Index(x, k) == Index(y, k)
    ensures Block(x, level) == Block(y, level)
    decreases 3 - level
  {
    if level < 3 {
      SameDownTo(x, y, level + 1);
      SameFromUp(x, y, level);
    }
  }

  // ----- Writing one entry -----

  /** `m` with entry `i` of table `t` set to `e`. */
  function SetEntry(m: Tables, t: nat, i: nat, e: Entry): Tables
    requires t in m && i < |m[t]|
  {
    m[t := m[t][i := e]]
  }

  /** The entry at a place can be set to anything, if the place is at the last level, or to anything but a table. */
  lemma SetKeepsTree(m: Tables, lv: map<nat, nat>, t: nat, i: nat, e: Entry)
    requires Tree(m, lv) && t in lv && TableOk(m, lv, t) && i < 512 && (lv[t] == 0 || !e.Table())
    ensures Tree(SetEntry(m, t, i, e), lv)
  {
    var m' := SetEntry(m, t, i, e);
    forall u | u in lv ensures TableOk(m', lv, u) { assert TableOk(m, lv, u); }
    forall u, j, c | Points(m', lv, u, j, c) ensures Points(m, lv, u, j, c) { assert TableOk(m, lv, u); }
  }

  /** Setting an entry where no walk passes through moves no walk. */
  lemma {:induction false} SetKeepsGo(m: Tables, lv: map<nat, nat>, t: nat, i: nat, e: Entry, u: nat, level: nat,
      x: nat, perm: bv12)
    requires Tree(m, lv) && TableOk(m, lv, t) && i < 512 && (lv[t] == 0 || (!m[t][i].Table() && !e.Table()))
    requires u in lv && lv[u] == level
    ensures Tree(SetEntry(m, t, i, e), lv)
    ensures Go(SetEntry(m, t, i, e), lv, u, level, x, perm) == Go(m, lv, u, level, x, perm)
    decreases level
  {
    SetKeepsTree(m, lv, t, i, e);
    assert TableOk(m, lv, u);
    var f := m[u][Index(x, level)];
    if level > 0 && f.Table() {
      assert Points(m, lv, u, Index(x, level), f.pn);
      SetKeepsGo(m, lv, t, i, e, f.pn, level - 1, x, Restrict(perm, f));
    }
  }

  /** A write to the entry where the walk of `va` stops changes the mappings of that entry's block and no others. */
  lemma SetChangesOneBlock(m: Tables, lv: map<nat, nat>, root: nat, va: nat, p: Place, e: Entry, x: nat)
    requires Tree(m, lv) && root in lv && lv[root] == 3 && Canonical(va) && x < VA_END
    requires p == Walk(m, lv, root, va) && p.table in m && p.idx < |m[p.table]| && (p.level == 0 || !e.Table())
    ensures Tree(SetEntry(m, p.table, p.idx, e), lv)
    ensures Walk(SetEntry(m, p.table, p.idx, e), lv, root, x) == Walk(m, lv, root, x)
    ensures EntryAt(SetEntry(m, p.table, p.idx, e), Walk(m, lv, root, x)) ==
            if Block(x, p.level) == Block(va, p.level) then e else EntryAt(m, Walk(m, lv, root, x))
  {
    SetKeepsGo(m, lv, p.table, p.idx, e, root, 3, x, 0xFFF);
    if Block(x, p.level) == Block(va, p.level) {
      GoSameBlock(m, lv, root, va, x);
    } else if Canonical(x) {
      var q := Walk(m, lv, root, x);
      if q.table == p.table && q.idx == p.idx { SameEntrySameBlock(m, lv, root, va, x); }
    }
  }

  // ----- Adding an empty table -----

  /** `m` with a new empty table `c` below entry `i` of table `t`. */
  function AddTable(m: Tables, t: nat, i: nat, c: nat): Tables
    requires t in m && i < |m[t]|
  {
    SetEntry(m, t, i, Entry(c, PTE_PWU, 0))[c := EmptyTable()]
  }

  lemma AllBits(p: bv12)
    ensures p & (0x07 | !0x07) == p
  {
  }

  lemma LinkEntry(c: nat, perm: bv12)
    ensures Entry(c, PTE_PWU, 0).Table()
    ensures Restrict(perm, Entry(c, PTE_PWU, 0)) == perm
  {
    AllBits(perm);
  }

  lemma AddKeepsTree(m: Tables, lv: map<nat, nat>, t: nat, i: nat, c: nat)
    requires Tree(m, lv) && TableOk(m, lv, t) && i < 512 && lv[t] > 0 && !m[t][i].Table() && c !in lv
    ensures Tree(AddTable(m, t, i, c), lv[c := lv[t] - 1])
  {
    var m', lv' := AddTable(m, t, i, c), lv[c := lv[t] - 1];
    ZeroEntry();
    LinkEntry(c, 0);
    forall u | u in lv' ensures TableOk(m', lv', u) { assert u != c ==> TableOk(m, lv, u); }
    forall u, j, d | Points(m', lv', u, j, d)
      ensures (u == t && j == i && d == c) || (Points(m, lv, u, j, d) && d != c)
    {
      if !(u == t && j == i) { assert u != c ==> TableOk(m, lv, u); assert Points(m, lv, u, j, d); }
    }
  }

  predicate MovedTo(p: Place, p': Place, t: nat, i: nat, c: nat, x: nat) {
    p.Place? && (if p.table == t && p.idx == i then 0 < p.level <= 4 &&
        p' == Place(c, Index(x, p.level - 1), p.level - 1, p.perm) else p' == p)
  }

  /** A walk that stopped at the entry goes on to the new table; the others stay. */
  lemma {:induction false} AddMovesGo(m: Tables, lv: map<nat, nat>, t: nat, i: nat, c: nat, u: nat, level: nat,
      x: nat, perm: bv12)
    requires Tree(m, lv) && TableOk(m, lv, t) && i < 512 && lv[t] > 0 && !m[t][i].Table() && c !in lv
    requires u in lv && lv[u] == level
    ensures Tree(AddTable(m, t, i, c), lv[c := lv[t] - 1])
    ensures MovedTo(Go(m, lv, u, level, x, perm), Go(AddTable(m, t, i, c), lv[c := lv[t] - 1], u, level, x, perm), t,
            i, c, x)
    decreases level
  {
    AddKeepsTree(m, lv, t, i, c);
    assert TableOk(m, lv, u);
    var f := m[u][Index(x, level)];
    hide Go, Tree, TableOk, Points, AddTable, Index, Restrict, Entry.Table, MovedTo;
    if level > 0 && f.Table() {
      AddPassed(m, lv, t, i, c, u, level, x, perm);
      AddMovesGo(m, lv, t, i, c, f.pn, level - 1, x, Restrict(perm, f));
    } else {
      AddStops(m, lv, t, i, c, u, level, x, perm);
    }
  }

  lemma AddPassed(m: Tables, lv: map<nat, nat>, t: nat, i: nat, c: nat, u: nat, level: nat, x: nat, perm: bv12)
    requires Tree(m, lv) && TableOk(m, lv, t) && i < 512 && lv[t] > 0 && !m[t][i].Table() && c !in lv
    requires Tree(AddTable(m, t, i, c), lv[c := lv[t] - 1])
    requires u in lv && lv[u] == level && TableOk(m, lv, u) && level > 0 && m[u][Index(x, level)].Table()
    ensures var f := m[u][Index(x, level)];
            && f.pn in lv && lv[f.pn] == level - 1 && f.pn != c
            && Go(m, lv, u, level, x, perm) == Go(m, lv, f.pn, level - 1, x, Restrict(perm, f))
            && Go(AddTable(m, t, i, c), lv[c := lv[t] - 1], u, level, x, perm)
               == Go(AddTable(m, t, i, c), lv[c := lv[t] - 1], f.pn, level - 1, x, Restrict(perm, f))
  {
    assert AddTable(m, t, i, c)[u][Index(x, level)] == m[u][Index(x, level)];
    GoDown(m, lv, u, level, x, perm);
    GoDown(AddTable(m, t, i, c), lv[c := lv[t] - 1], u, level, x, perm);
    hide Go, Tree, Index;
  }

  lemma AddStops(m: Tables, lv: map<nat, nat>, t: nat, i: nat, c: nat, u: nat, level: nat, x: nat, perm: bv12)
    requires Tree(m, lv) && TableOk(m, lv, t) && i < 512 && lv[t] > 0 && !m[t][i].Table() && c !in lv
    requires Tree(AddTable(m, t, i, c), lv[c := lv[t] - 1])
    requires u in lv && lv[u] == level && TableOk(m, lv, u) && (level == 0 || !m[u][Index(x, level)].Table())
    ensures var p, p' := Go(m, lv, u, level, x, perm), Go(AddTable(m, t, i, c), lv[c := lv[t] - 1], u, level, x, perm);
            p == Place(u, Index(x, level), level, perm) && MovedTo(p, p', t, i, c, x)
  {
    var m', lv' := AddTable(m, t, i, c), lv[c := lv[t] - 1];
    LinkEntry(c, perm);
    GoStops(m, lv, u, level, x, perm);
    hide Tree;
    if u == t && Index(x, level) == i {
      GoDown(m', lv', u, level, x, perm);
      StopsInNew(m', lv', c, x, perm);
    } else {
      GoStops(m', lv', u, level, x, perm);
    }
  }

  lemma StopsInNew(m: Tables, lv: map<nat, nat>, c: nat, x: nat, perm: bv12)
    requires Tree(m, lv) && c in lv && c in m && m[c] == EmptyTable()
    ensures Go(m, lv, c, lv[c], x, perm) == Place(c, Index(x, lv[c]), lv[c], perm)
  {
    ZeroEntry();
    GoUnfold(m, lv, c, lv[c], x, perm);
  }

  /** No mapping changes when an empty table is added below an entry that is not present. */
  lemma AddChangesNothing(m: Tables, lv: map<nat, nat>, root: nat, t: nat, i: nat, c: nat, x: nat)
    requires Tree(m, lv) && root in lv && lv[root] == 3
    requires TableOk(m, lv, t) && i < 512 && lv[t] > 0 && !m[t][i].Present() && c !in lv
    ensures Tree(AddTable(m, t, i, c), lv[c := lv[t] - 1])
    ensures Perm(AddTable(m, t, i, c), lv[c := lv[t] - 1], root, x) == Perm(m, lv, root, x)
    ensures Pa(AddTable(m, t, i, c), lv[c := lv[t] - 1], root, x) == Pa(m, lv, root, x)
  {
    TableIsPresent(m[t][i]);
    AddKeepsTree(m, lv, t, i, c);
    if Canonical(x) {
      AddMovesGo(m, lv, t, i, c, root, 3, x, 0xFFF);
      ZeroEntry();
      var p := Walk(m, lv, root, x);
      NotPresentNoPerm(EntryAt(m, p), p.perm);
      NotPresentNoPerm(ZERO, p.perm);
      hide Go, Tree, PermOf, Entry.Present, Index, Block;
    }
  }

  lemma NotPresentNoPerm(e: Entry, perm: bv12)
    ensures !e.Present() ==> PermOf(e, perm) == 0
  {
    var f := e.flags;
    assert f & 0x01 == 0 ==> (f & perm) & 0x01 == 0;
  }
}
