/** The table pages below a root, by position, and the order in which they can be freed. */
module PtPositions {
  import opened PageTable
  import opened Util

  const VA_NONCANONEND := 0x1_0000_0000_0000

  /** The entry for block `q` of a level; if it refers to a table, that table is at this position. */
  datatype Pos = Pos(level: nat, q: nat)
  {
    predicate Ok() { 1 <= level <= 3 && q < Blocks(level) }
    /** The position of the table that holds this entry. */
    function Up(): Pos { Pos(level + 1, q / 512) }
  }

  /** Number of blocks of a level. */
  function Blocks(level: nat): (n: nat)
    requires level <= 4
    ensures n > 0
  {
    if level == 0 then 0x10_0000_0000 else if level == 1 then 0x800_0000 else if level == 2
        then 0x4_0000 else if level == 3 then 512 else 1
  }

  /** Blocks of level 1 in a block of a level. */
  function Span(level: nat): (n: nat)
    requires 1 <= level <= 4
    ensures n > 0
  {
    if level == 1 then 1 else if level == 2 then 512 else if level == 3 then 0x4_0000 else 0x800_0000
  }

  /** Where the block of a position starts and ends, in blocks of level 1. */
  function Begin(p: Pos): nat
    requires p.Ok()
  {
    p.q * Span(p.level)
  }

  function End(p: Pos): nat
    requires p.Ok()
  {
    (p.q + 1) * Span(p.level)
  }

  /** Postorder: by end, and inside out. */
  predicate Before(p: Pos, r: Pos)
    requires p.Ok() && r.Ok()
  {
    End(p) < End(r) || (End(p) == End(r) && p.level < r.level)
  }

  /** The table page that holds the entry for a position. */
  function Slot(m: Tables, root: nat, p: Pos): Option<nat>
    requires p.level <= 3
    decreases 3 - p.level
  {
    if p.level == 3 then Some(root)
    else
      match Slot(m, root, p.Up())
      case None => None
      case Some(t) =>
        if t in m && |m[t]| == 512 && m[t][(p.q / 512) % 512].Table() then Some(m[t][(p.q / 512) % 512].pn) else None
  }

  /** There is a table at a position. */
  predicate HasTable(m: Tables, root: nat, p: Pos)
    requires p.Ok()
  {
    var t := Slot(m, root, p);
    t.Some? && t.value in m && |m[t.value]| == 512 && m[t.value][p.q % 512].Table()
  }

  /** The table page at a position. */
  function Child(m: Tables, root: nat, p: Pos): nat
    requires p.Ok() && HasTable(m, root, p)
  {
    m[Slot(m, root, p).value][p.q % 512].pn
  }

  lemma UpOk(p: Pos)
    requires p.Ok() && p.level < 3
    ensures p.Up().Ok()
  {
  }

  /** An entry exists exactly below a table, or in the root. */
  lemma SlotIffUp(m: Tables, root: nat, p: Pos)
    requires p.Ok() && p.level < 3
    ensures p.Up().Ok() && (Slot(m, root, p).Some? <==> HasTable(m, root, p.Up()))
    ensures HasTable(m, root, p.Up()) ==> Slot(m, root, p) == Some(Child(m, root, p.Up()))
  {
  }

  /** `p` is below, or at, the position `r`. */
  predicate Below(p: Pos, r: Pos)
    requires p.Ok() && r.Ok()
    decreases 3 - p.level
  {
    p == r || (p.level < 3 && p.level < r.level && (UpOk(p); Below(p.Up(), r)))
  }

  lemma UpContains(p: Pos)
    requires p.Ok() && p.level < 3
    ensures p.Up().Ok() && Begin(p.Up()) <= Begin(p) && End(p) <= End(p.Up())
  {
  }

  /** What lies below a position comes before it, and is inside its block. */
  lemma {:induction false} BelowIsBefore(p: Pos, r: Pos)
    requires p.Ok() && r.Ok() && Below(p, r)
    ensures p == r || Before(p, r)
    ensures Begin(r) <= Begin(p) && End(p) <= End(r)
    decreases 3 - p.level
  {
    if p != r {
      UpContains(p);
      BelowIsBefore(p.Up(), r);
    }
  }

  /** A table has tables at all positions above it. */
  lemma {:induction false} HasTableAbove(m: Tables, root: nat, p: Pos, r: Pos)
    requires p.Ok() && r.Ok() && Below(p, r) && HasTable(m, root, p)
    ensures HasTable(m, root, r)
    decreases 3 - p.level
  {
    if p != r {
      SlotIffUp(m, root, p);
      HasTableAbove(m, root, p.Up(), r);
    }
  }

  /** Two blocks overlap only if one is inside the other. */
  lemma {:induction false} Nested(p: Pos, r: Pos)
    requires p.Ok() && r.Ok() && p.level <= r.level && Begin(r) < End(p) <= End(r)
    ensures Below(p, r)
    decreases 3 - p.level
  {
    if p.level < r.level {
      UpContains(p);
      Divide(p, r);
      Nested(p.Up(), r);
    } else {
      SameBlock(p, r);
    }
  }

  lemma SameBlock(p: Pos, r: Pos)
    requires p.Ok() && r.Ok() && p.level == r.level && Begin(r) < End(p) <= End(r)
    ensures p == r
  {
  }

  lemma Divide(p: Pos, r: Pos)
    requires p.Ok() && r.Ok() && p.level < r.level && p.Up().Ok() && Begin(r) < End(p) <= End(r)
    ensures Begin(r) < End(p.Up()) <= End(r)
  {
    if r.level == p.level + 1 {
      DivideOnce(p.q, r.q);
    } else {
      DivideTwice(p.q, r.q);
    }
  }

  lemma DivideOnce(q: nat, k: nat)
    requires k * 512 < q + 1 <= (k + 1) * 512
    ensures q / 512 == k
  {
  }

  lemma DivideTwice(q: nat, k: nat)
    requires k * 0x4_0000 < q + 1 <= (k + 1) * 0x4_0000
    ensures k * 512 < q / 512 + 1 <= (k + 1) * 512
  {
  }

  // ----- The next position -----

  /** Later in the order than every position up to the end `s` and the level `l`. */
  predicate Later(p: Pos, s: nat, l: nat)
    requires p.Ok()
  {
    End(p) > s || (End(p) == s && p.level > l)
  }

  /** `p` is the first table after `(s, l)`. */
  ghost predicate First(m: Tables, root: nat, s: nat, l: nat, p: Pos) {
    && p.Ok() && HasTable(m, root, p) && Later(p, s, l)
    && forall r: Pos :: r.Ok() && HasTable(m, root, r) && Later(r, s, l) ==> r == p || Before(p, r)
  }

  ghost predicate NoneLater(m: Tables, root: nat, s: nat, l: nat) {
    forall r: Pos :: r.Ok() && HasTable(m, root, r) ==> !Later(r, s, l)
  }

  /** The search for the first table after `(s, l)` has come to the block of `c`: all such tables end after it
      begins. */
  ghost predicate Scan(m: Tables, root: nat, s: nat, l: nat, c: Pos) {
    && c.Ok() && Slot(m, root, c).Some? && s <= Begin(c)
    && forall r: Pos :: r.Ok() && HasTable(m, root, r) && Later(r, s, l) ==> End(r) > Begin(c)
  }

  /** At level 1, a table is what was searched for. */
  lemma ScanFinds(m: Tables, root: nat, s: nat, l: nat, c: Pos)
    requires Scan(m, root, s, l, c) && c.level == 1 && HasTable(m, root, c)
    ensures First(m, root, s, l, c)
  {
    forall r: Pos | r.Ok() && HasTable(m, root, r) && Later(r, s, l) ensures r == c || Before(c, r) {
      if r.level == 1 && End(r) == End(c) { assert r == c; }
    }
  }

  /** Higher up, the search goes on in the table. */
  lemma ScanDown(m: Tables, root: nat, s: nat, l: nat, c: Pos)
    requires Scan(m, root, s, l, c) && c.level > 1 && HasTable(m, root, c)
    ensures Scan(m, root, s, l, Pos(c.level - 1, c.q * 512))
    ensures Slot(m, root, Pos(c.level - 1, c.q * 512)) == Some(Child(m, root, c))
  {
    var d := Pos(c.level - 1, c.q * 512);
    assert d.Up() == c && Begin(d) == Begin(c);
    SlotIffUp(m, root, d);
  }

  /** No table ends inside the block of `c`, apart from its end, if there is none at `c`. */
  lemma NothingInside(m: Tables, root: nat, c: Pos, r: Pos)
    requires c.Ok() && !HasTable(m, root, c) && r.Ok() && HasTable(m, root, r) && End(r) > Begin(c)
    ensures End(r) >= End(c) && (End(r) == End(c) ==> r.level > c.level)
  {
    if r.level <= c.level && End(r) <= End(c) {
      Nested(r, c);
      HasTableAbove(m, root, r, c);
    }
    if r.level > c.level { WholeBlocks(c, r); }
  }

  lemma WholeBlocks(c: Pos, r: Pos)
    requires c.Ok() && r.Ok() && r.level > c.level && End(r) > Begin(c)
    ensures End(r) >= End(c)
    ensures End(r) == End(c) ==> (c.q + 1) % 512 == 0
  {
    if r.level == c.level + 1 { WholeOnce(c.q, r.q); } else { WholeTwice(c.q, r.q); }
  }

  lemma WholeOnce(q: nat, k: nat)
    requires (k + 1) * 512 > q
    ensures (k + 1) * 512 >= q + 1 && ((k + 1) * 512 == q + 1 ==> (q + 1) % 512 == 0)
  {
  }

  lemma WholeTwice(q: nat, k: nat)
    requires (k + 1) * 0x4_0000 > q
    ensures (k + 1) * 0x4_0000 >= q + 1 && ((k + 1) * 0x4_0000 == q + 1 ==> (q + 1) % 512 == 0)
  {
  }

  /** `c` has been passed: everything later than `(s, l)` ends at the end of `c`, higher up, or after it. */
  ghost predicate Passed(m: Tables, root: nat, s: nat, l: nat, c: Pos) {
    && c.Ok() && Slot(m, root, c).Some? && (s < End(c) || (s == End(c) && l == c.level))
    && forall r: Pos :: r.Ok() && HasTable(m, root, r) && Later(r, s, l) ==>
         End(r) > End(c) || (End(r) == End(c) && r.level > c.level)
  }

  lemma ScanPasses(m: Tables, root: nat, s: nat, l: nat, c: Pos)
    requires Scan(m, root, s, l, c) && !HasTable(m, root, c)
    ensures Passed(m, root, s, l, c)
  {
    assert Begin(c) < End(c);
    forall r: Pos | r.Ok() && HasTable(m, root, r) && Later(r, s, l)
      ensures End(r) > End(c) || (End(r) == End(c) && r.level > c.level)
    {
      NothingInside(m, root, c, r);
    }
  }

  /** A visited position is passed by definition. */
  lemma VisitedIsPassed(m: Tables, root: nat, c: Pos)
    requires c.Ok() && Slot(m, root, c).Some?
    ensures Passed(m, root, End(c), c.level, c)
  {
  }

  /** The search goes on to the next entry of the same table. */
  lemma PassOn(m: Tables, root: nat, s: nat, l: nat, c: Pos)
    requires Passed(m, root, s, l, c) && (c.q + 1) % 512 != 0
    ensures Scan(m, root, s, l, Pos(c.level, c.q + 1)) && Slot(m, root, Pos(c.level, c.q + 1)) == Slot(m, root, c)
  {
    var d := Pos(c.level, c.q + 1);
    InSameTable(c);
    SlotNext(m, root, c);
    hide HasTable, Slot, Span, Begin, End;
    forall r: Pos | r.Ok() && HasTable(m, root, r) && Later(r, s, l) ensures End(r) > Begin(d) {
      if End(r) == End(c) { WholeBlocks(c, r); }
    }
  }

  lemma InSameTable(c: Pos)
    requires c.Ok() && (c.q + 1) % 512 != 0
    ensures Pos(c.level, c.q + 1).Ok() && (c.q + 1) / 512 == c.q / 512 && Begin(Pos(c.level, c.q + 1)) == End(c)
  {
    hide Span;
  }

  lemma SlotNext(m: Tables, root: nat, c: Pos)
    requires c.Ok() && (c.q + 1) % 512 != 0
    ensures Pos(c.level, c.q + 1).Ok() && Slot(m, root, Pos(c.level, c.q + 1)) == Slot(m, root, c)
  {
    InSameTable(c);
    var d := Pos(c.level, c.q + 1);
    hide Begin, End;
    if c.level < 3 { assert d.Up() == c.Up(); }
  }

  /** After the last entry of a table comes the table itself. */
  lemma PassUp(m: Tables, root: nat, s: nat, l: nat, c: Pos)
    requires Passed(m, root, s, l, c) && (c.q + 1) % 512 == 0 && c.level < 3
    ensures First(m, root, s, l, c.Up())
  {
    SlotIffUp(m, root, c);
    var p := c.Up();
    LastInTable(c);
    hide HasTable, Slot, Span, Begin, End;
    forall r: Pos | r.Ok() && HasTable(m, root, r) && Later(r, s, l) ensures r == p || Before(p, r) {
      if End(r) == End(p) && r.level == p.level { SameBlock(r, p); }
    }
  }

  lemma LastInTable(c: Pos)
    requires c.Ok() && (c.q + 1) % 512 == 0 && c.level < 3
    ensures c.Up().Ok() && c.Up().level == c.level + 1 && End(c.Up()) == End(c)
  {
  }

  /** After the last entry of the root comes nothing. */
  lemma PassEnd(m: Tables, root: nat, s: nat, l: nat, c: Pos)
    requires Passed(m, root, s, l, c) && (c.q + 1) % 512 == 0 && c.level == 3
    ensures NoneLater(m, root, s, l)
  {
    forall r: Pos | r.Ok() && HasTable(m, root, r) ensures !Later(r, s, l) {
      LastEnd(r);
    }
  }

  lemma LastEnd(r: Pos)
    requires r.Ok()
    ensures End(r) <= 512 * Span(3)
  {
  }
}
