/** The iterator over the blocks of a file, kept in direct and indirect extents. */
module FileIter {
  import opened Util

  const BLOCKSIZE := 4096
  const NDIRECT := 4
  const EXTENTSPERBLOCK := 512

  datatype Extent = Extent(first: nat, count: nat)
  datatype Error = NoSpace | NoMemory | FileTooBig
  datatype Result = Ok | Err(error: Error)

  const NO_EXTENT := Extent(0, 0)

  // ----- The flat list of blocks -----

  /** The blocks of an extent; a hole has none, which reads as block 0. */
  function Run(e: Extent): seq<nat> {
    seq(e.count, i requires 0 <= i < e.count => if e.first == 0 then 0 else e.first + i)
  }

  /** The blocks of the first `k` extents. */
  function FlatTo(x: seq<Extent>, k: nat): seq<nat>
    requires k <= |x|
  {
    if k == 0 then [] else FlatTo(x, k - 1) + Run(x[k - 1])
  }

  function Flat(x: seq<Extent>): seq<nat> { FlatTo(x, |x|) }

  /** Extents in use come first. */
  ghost predicate Packed(x: seq<Extent>) {
    forall i, j :: 0 <= i < j < |x| && x[j].count != 0 ==> x[i].count != 0
  }

  lemma {:induction false} FlatPrefix(x: seq<Extent>, k: nat, m: nat)
    requires k <= m <= |x|
    ensures |FlatTo(x, k)| <= |FlatTo(x, m)| && FlatTo(x, m)[..|FlatTo(x, k)|] == FlatTo(x, k)
    decreases m
  {
    if k < m { FlatPrefix(x, k, m - 1); }
  }

  /** Nothing follows the first unused extent. */
  lemma {:induction false} FlatEnds(x: seq<Extent>, k: nat, m: nat)
    requires Packed(x) && k <= m <= |x| && (k < |x| ==> x[k].count == 0)
    ensures FlatTo(x, m) == FlatTo(x, k)
    decreases m
  {
    if k < m {
      FlatEnds(x, k, m - 1);
      assert x[m - 1].count == 0;
      assert Run(x[m - 1]) == [];
    }
  }

  lemma {:induction false} FlatSame(x: seq<Extent>, y: seq<Extent>, k: nat)
    requires k <= |x| && k <= |y| && forall i :: 0 <= i < k ==> x[i] == y[i]
    ensures FlatTo(x, k) == FlatTo(y, k)
  {
    if k > 0 { FlatSame(x, y, k - 1); }
  }

  /** A block of extent `k`. */
  lemma FlatAt(x: seq<Extent>, k: nat, b: nat)
    requires k < |x| && |FlatTo(x, k)| <= b < |FlatTo(x, k)| + x[k].count
    ensures b < |Flat(x)| && Flat(x)[b] == if x[k].first == 0 then 0 else x[k].first + (b - |FlatTo(x, k)|)
  {
    FlatPrefix(x, k + 1, |x|);
    assert FlatTo(x, k + 1)[b] == Run(x[k])[b - |FlatTo(x, k)|];
    assert Flat(x)[..|FlatTo(x, k + 1)|][b] == Flat(x)[b];
  }

  /** A new extent after the last one in use. */
  lemma FlatAdd(x: seq<Extent>, k: nat, e: Extent)
    requires Packed(x) && k < |x| && x[k].count == 0 && (k > 0 ==> x[k - 1].count != 0) && e.count != 0
    ensures Packed(x[k := e]) && Flat(x[k := e]) == Flat(x) + Run(e)
  {
    var y := x[k := e];
    forall i, j | 0 <= i < j < |y| && y[j].count != 0 ensures y[i].count != 0 {
      if j == k { assert k > 0 && (i == k - 1 || x[i].count != 0); }
    }
    FlatEnds(x, k, |x|);
    FlatSame(x, y, k);
    if k + 1 < |y| { assert x[k + 1].count == 0; }
    FlatEnds(y, k + 1, |y|);
  }

  /** The last extent in use grown by `count` blocks. */
  lemma FlatGrow(x: seq<Extent>, k: nat, count: nat)
    requires Packed(x) && k < |x| && x[k].count != 0 && (k + 1 < |x| ==> x[k + 1].count == 0)
    ensures var y := x[k := Extent(x[k].first, x[k].count + count)];
            Packed(y) && Flat(y) == Flat(x) + Run(Extent(if x[k].first == 0 then 0 else x[k].first + x[k].count, count))
  {
    var e := Extent(x[k].first, x[k].count + count);
    var y := x[k := e];
    GrowPacked(x, k, e);
    RunGrow(x[k], count);
    FlatEnds(x, k + 1, |x|);
    FlatEnds(y, k + 1, |y|);
    FlatSame(x, y, k);
    hide Run, Packed;
    assert FlatTo(y, k + 1) == FlatTo(y, k) + Run(e);
    assert FlatTo(x, k + 1) == FlatTo(x, k) + Run(x[k]);
  }

  /** A list with `r` put in at place `p`. */
  function Spliced(s: seq<nat>, p: nat, r: seq<nat>): seq<nat>
    requires p <= |s|
  {
    s[..p] + r + s[p..]
  }

  lemma SplicedMore(s: seq<nat>, p: nat, r: seq<nat>, tail: seq<nat>)
    requires p <= |s|
    ensures Spliced(s + tail, p, r) == Spliced(s, p, r) + tail
  {
    assert (s + tail)[p..] == s[p..] + tail;
  }

  lemma SplicedEnd(s: seq<nat>, r: seq<nat>)
    ensures Spliced(s, |s|, r) == s + r
  {
  }

  /** Any extent in use grown by `count` blocks: what follows moves back. */
  lemma {:induction false} FlatGrowAt(x: seq<Extent>, k: nat, count: nat, m: nat)
    requires k < m <= |x|
    ensures var y := x[k := Extent(x[k].first, x[k].count + count)];
            && |FlatTo(x, k + 1)| <= |FlatTo(x, m)|
            && FlatTo(y, m) == Spliced(FlatTo(x, m), |FlatTo(x, k + 1)|,
                                       Run(Extent(if x[k].first == 0 then 0 else x[k].first + x[k].count, count)))
    decreases m
  {
    var y := x[k := Extent(x[k].first, x[k].count + count)];
    var r := Run(Extent(if x[k].first == 0 then 0 else x[k].first + x[k].count, count));
    hide Run, Spliced;
    if m == k + 1 {
      FlatSame(x, y, k);
      RunGrow(x[k], count);
      assert FlatTo(y, m) == FlatTo(x, m) + r;
      SplicedEnd(FlatTo(x, m), r);
    } else {
      FlatGrowAt(x, k, count, m - 1);
      assert y[m - 1] == x[m - 1];
      SplicedMore(FlatTo(x, m - 1), |FlatTo(x, k + 1)|, r, Run(x[m - 1]));
    }
  }

  lemma GrowPacked(x: seq<Extent>, k: nat, e: Extent)
    requires Packed(x) && k < |x| && x[k].count != 0 && e.count != 0
    ensures Packed(x[k := e])
  {
  }

  lemma RunGrow(e: Extent, count: nat)
    ensures Run(Extent(e.first, e.count + count)) ==
            Run(e) + Run(Extent(if e.first == 0 then 0 else e.first + e.count, count))
  {
  }

  // ----- The extents of an inode -----

  /** Direct extents, the extent of indirect blocks, and the extents that each of those holds. */
  datatype Inode = Inode(direct: seq<Extent>, indirect: Extent, disk: map<nat, seq<Extent>>)
  {
    ghost predicate Ok() {
      && |direct| == NDIRECT
      && (forall b :: indirect.first <= b < indirect.first + indirect.count ==> HasBlock(b))
    }

    predicate HasBlock(b: nat) { b in disk && |disk[b]| == EXTENTSPERBLOCK }

    function Size(): nat { NDIRECT + EXTENTSPERBLOCK * indirect.count }

    /** Indirect block number `i`. */
    function Block(i: nat): (b: seq<Extent>)
      requires Ok() && i < indirect.count
      ensures |b| == EXTENTSPERBLOCK
    {
      assert HasBlock(indirect.first + i);
      disk[indirect.first + i]
    }

    /** Extent number `e`. */
    function At(e: nat): Extent
      requires Ok() && e < Size()
    {
      if e < NDIRECT then direct[e]
      else
        IndirectPlace(e, indirect.count);
        Block((e - NDIRECT) / EXTENTSPERBLOCK)[(e - NDIRECT) % EXTENTSPERBLOCK]
    }

    function Set(e: nat, x: Extent): Inode
      requires Ok() && e < Size()
    {
      if e < NDIRECT then this.(direct := direct[e := x])
      else
        IndirectPlace(e, indirect.count);
        var b := indirect.first + (e - NDIRECT) / EXTENTSPERBLOCK;
        assert HasBlock(b);
        this.(disk := disk[b := disk[b][(e - NDIRECT) % EXTENTSPERBLOCK := x]])
    }

    ghost function All(): (x: seq<Extent>)
      requires Ok()
      ensures |x| == Size()
    {
      seq(Size(), e requires 0 <= e < Size() => At(e))
    }
  }

  lemma IndirectPlace(e: nat, count: nat)
    requires NDIRECT <= e < NDIRECT + EXTENTSPERBLOCK * count
    ensures (e - NDIRECT) / EXTENTSPERBLOCK < count && (e - NDIRECT) % EXTENTSPERBLOCK < EXTENTSPERBLOCK
  {
  }

  lemma DifferentPlace(e: nat, d: nat)
    requires e >= NDIRECT && d >= NDIRECT && e != d
    ensures (e - NDIRECT) / EXTENTSPERBLOCK != (d - NDIRECT) / EXTENTSPERBLOCK ||
            (e - NDIRECT) % EXTENTSPERBLOCK != (d - NDIRECT) % EXTENTSPERBLOCK
  {
  }

  lemma SetAll(n: Inode, e: nat, x: Extent)
    requires n.Ok() && e < n.Size()
    ensures n.Set(e, x).Ok() && n.Set(e, x).Size() == n.Size() && n.Set(e, x).All() == n.All()[e := x]
    ensures n.Set(e, x).indirect == n.indirect
  {
    var m := n.Set(e, x);
    if e >= NDIRECT { IndirectPlace(e, n.indirect.count); }
    forall b | n.indirect.first <= b < n.indirect.first + n.indirect.count
        ensures m.HasBlock(b) { assert n.HasBlock(b); }
    forall d | 0 <= d < n.Size() ensures m.At(d) == if d == e then x else n.At(d) {
      if d >= NDIRECT {
        IndirectPlace(d, n.indirect.count);
        assert n.HasBlock(n.indirect.first + (d - NDIRECT) / EXTENTSPERBLOCK);
        if e >= NDIRECT && d != e { DifferentPlace(e, d); }
      }
    }
  }

  /** The first indirect block, zeroed. */
  function WithIndirect(n: Inode, bn: nat): Inode {
    n.(indirect := Extent(bn, 1), disk := n.disk[bn := seq(EXTENTSPERBLOCK, i => NO_EXTENT)])
  }

  lemma IndirectAll(n: Inode, bn: nat)
    requires n.Ok() && n.indirect.count == 0
    ensures var m := WithIndirect(n, bn);
            m.Ok() && m.Size() == NDIRECT + EXTENTSPERBLOCK && m.All() == n.All() + seq(EXTENTSPERBLOCK, i => NO_EXTENT)
    ensures Packed(n.All()) ==> Packed(WithIndirect(n, bn).All())
    ensures Flat(WithIndirect(n, bn).All()) == Flat(n.All())
  {
    var m := WithIndirect(n, bn);
    assert m.Ok();
    forall e | 0 <= e < m.Size() ensures m.At(e) == if e < NDIRECT then n.At(e) else NO_EXTENT {
      if e >= NDIRECT { IndirectPlace(e, 1); }
    }
    var x, y := n.All(), m.All();
    assert y == x + seq(EXTENTSPERBLOCK, i => NO_EXTENT);
    FlatSame(x, y, NDIRECT);
    FlatZeros(y, NDIRECT, |y|);
  }

  lemma {:induction false} FlatZeros(x: seq<Extent>, k: nat, m: nat)
    requires k <= m <= |x| && forall i :: k <= i < m ==> x[i].count == 0
    ensures FlatTo(x, m) == FlatTo(x, k)
    decreases m
  {
    if k < m {
      FlatZeros(x, k, m - 1);
      assert Run(x[m - 1]) == [];
    }
  }

  // ----- The iterator -----

  /** Extent `e` is in use and starts at `eoff`. */
  ghost predicate Stands(n: Inode, e: nat, eoff: nat) {
    && n.Ok() && Packed(n.All()) && e < n.Size() && n.At(e).count != 0 && (e > 0 ==> n.At(e - 1).count != 0)
    && eoff == |FlatTo(n.All(), e)| * BLOCKSIZE
  }

  predicate LastInUse(n: Inode, e: nat)
    requires n.Ok()
  {
    e + 1 < n.Size() ==> n.At(e + 1).count == 0
  }

  /** Extent `e` is the first one of an indirect block. */
  predicate StartsBlock(n: Inode, e: nat) { NDIRECT <= e < n.Size() && (e - NDIRECT) % EXTENTSPERBLOCK == 0 }

  class FileIter {
    var ino: Inode
    var off: nat
    var eoff: nat
    var eidx: nat
    var at: bool                // `eptr_` is not null
    var entry: Option<nat>      // number of the indirect block held

    /** Extents before `eidx` are in use and end at `eoff`; the right indirect block is held. */
    ghost predicate Valid()
      reads this
    {
      && ino.Ok() && Packed(ino.All()) && eidx <= ino.Size() && (at ==> eidx < ino.Size())
      && (eidx > 0 ==> ino.At(eidx - 1).count != 0)
      && eoff == |FlatTo(ino.All(), eidx)| * BLOCKSIZE
      && (at && ino.At(eidx).count != 0 ==> eoff <= off < eoff + ino.At(eidx).count * BLOCKSIZE)
      && (!at && eidx < ino.Size() && !Stopped() ==> ino.At(eidx).count == 0)
      && (!(at && ino.At(eidx).count != 0) ==> off >= eoff)
      && (eidx >= NDIRECT && !Stopped() ==>
           entry == if eidx < ino.Size() then Some((eidx - NDIRECT) / EXTENTSPERBLOCK) else None)
      && (entry.Some? ==> entry.value < ino.indirect.count)
    }

    /** The search came to an indirect block that could not be loaded. */
    predicate Stopped()
      reads this
    {
      !at && entry.None? && StartsBlock(ino, eidx)
    }

    /** It did so before the end of the file. */
    predicate Lost()
      reads this
      requires ino.Ok()
    {
      Stopped() && ino.At(eidx).count != 0
    }

    ghost function Blocks(): seq<nat>
      reads this
      requires ino.Ok()
    {
      Flat(ino.All())
    }

    predicate Active()
      reads this
      requires ino.Ok() && (at ==> eidx < ino.Size())
    {
      at && ino.At(eidx).count != 0
    }

    /** `blocknum()`: the block for the current offset, or 0. */
    function Blocknum(): nat
      reads this
      requires ino.Ok() && (at ==> eidx < ino.Size()) && off >= eoff
    {
      if at && ino.At(eidx).first != 0 then ino.At(eidx).first + (off - eoff) / BLOCKSIZE else 0
    }

    /** The position is that of the current offset. */
    ghost predicate Placed()
      reads this
      requires ino.Ok() && (at ==> eidx < ino.Size()) && off >= eoff
    {
      && (Active() <==> off / BLOCKSIZE < |Blocks()|)
      && (Active() ==> Blocknum() == Blocks()[off / BLOCKSIZE])
    }

    constructor (ino: Inode, off: nat, loads: nat -> bool)
      requires ino.Ok() && Packed(ino.All())
      ensures Valid() && this.ino == ino && this.off == off
      ensures if Lost() then !loads((eidx - NDIRECT) / EXTENTSPERBLOCK) else Placed()
      ensures entry.Some? ==> loads(entry.value)
    {
      this.ino := ino;
      this.off, eoff, eidx, at, entry := 0, 0, 0, true, None;
      new;
      if off != 0 {
        Find(off, loads);
      } else {
        FindDone();
      }
    }

    /** What the position says about the current offset. */
    lemma FindDone()
      requires Valid() && !Lost()
      ensures Placed()
      ensures !Active() ==> eoff == |Blocks()| * BLOCKSIZE
    {
      var x := ino.All();
      var n := |FlatTo(x, eidx)|;
      if Active() {
        OffsetInside(off, n, ino.At(eidx).count);
        FlatAt(x, eidx, off / BLOCKSIZE);
      } else {
        FlatEnds(x, eidx, |x|);
        assert off >= n * BLOCKSIZE;
        OffsetBeyond(off, n);
      }
    }

    /** The search for the current offset has come to extent `eidx`, or, if not `found`, to the end. */
    ghost predicate Walking(found: bool)
      reads this
    {
      && ino.Ok() && Packed(ino.All()) && at && eidx <= ino.Size() && (found ==> eidx < ino.Size())
      && (!found ==> eidx == ino.Size() || ino.At(eidx).count == 0 || NotLoaded())
      && eoff == |FlatTo(ino.All(), eidx)| * BLOCKSIZE && off >= eoff && (eidx > 0 ==> ino.At(eidx - 1).count != 0)
      && (eidx >= NDIRECT ==>
           || entry == (if eidx < ino.Size() then Some((eidx - NDIRECT) / EXTENTSPERBLOCK) else None)
           || (!found && NotLoaded()))
      && (entry.Some? ==> entry.value < ino.indirect.count)
    }

    predicate NotLoaded()
      reads this
    {
      entry.None? && StartsBlock(ino, eidx)
    }

    /** Move on by one extent, fetching the indirect block it is in. */
    method Advance(loads: nat -> bool) returns (found: bool)
      requires Walking(true) && ino.At(eidx).count != 0 && off >= eoff + ino.At(eidx).count * BLOCKSIZE
      modifies `eoff, `eidx, `entry
      ensures Walking(found) && eidx == old(eidx) + 1 <= ino.Size()
      ensures NotLoaded() ==> !loads((eidx - NDIRECT) / EXTENTSPERBLOCK)
      ensures entry.Some? ==> entry == old(entry) || loads(entry.value)
    {
      assert FlatTo(ino.All(), eidx + 1) == FlatTo(ino.All(), eidx) + Run(ino.All()[eidx]);
      eoff := eoff + ino.At(eidx).count * BLOCKSIZE;
      NextPlace(eidx, ino.indirect.count);
      eidx := eidx + 1;
      found := true;
      if eidx < NDIRECT {
      } else if (eidx - NDIRECT) % EXTENTSPERBLOCK == 0 {
        entry := None;
        var ibi := (eidx - NDIRECT) / EXTENTSPERBLOCK;
        if ino.indirect.count <= ibi {
          found := false;
        } else if !loads(ibi) {
          found := false;
        } else {
          entry := Some(ibi);
        }
      }
    }

    /** One turn of the search: on by one extent, or the end is found. */
    method Turn(loads: nat -> bool) returns (found: bool)
      requires Walking(true) && off >= eoff + ino.At(eidx).count * BLOCKSIZE
      modifies `eoff, `eidx, `entry
      ensures Walking(found) &&
              eidx == (if found || old(ino.At(eidx).count) != 0 then old(eidx) + 1 else old(eidx)) <= ino.Size()
      ensures NotLoaded() ==> !loads((eidx - NDIRECT) / EXTENTSPERBLOCK)
      ensures entry.Some? ==> entry == old(entry) || loads(entry.value)
    {
      if ino.At(eidx).count == 0 {
        found := false;
      } else {
        found := Advance(loads);
      }
    }

    /** `find`: move to a file offset, from any earlier position. `loads` tells which indirect blocks can be loaded;
        one that cannot is taken for the end of the file. */
    method Find(newOff: nat, loads: nat -> bool)
      requires Valid()
      modifies `off, `eoff, `eidx, `at, `entry
      ensures Valid() && off == newOff && ino.Ok() && (at ==> eidx < ino.Size()) && off >= eoff
      ensures if Lost() then !loads((eidx - NDIRECT) / EXTENTSPERBLOCK) else Placed()
      ensures !Active() && !Lost() ==> eoff == |Blocks()| * BLOCKSIZE
      ensures entry.Some? ==> entry == old(entry) || loads(entry.value)
    {
      off := newOff;
      if !at || off < eoff {
        eoff, eidx, at, entry := 0, 0, true, None;
      }
      assert Walking(true);
      hide FileIter.Walking, FileIter.Valid;
      Seek(loads);
      if !Lost() { FindDone(); }
    }

    /** The loop of the search, and what is done if it ends outside the file. */
    method Seek(loads: nat -> bool)
      requires Walking(true)
      modifies `eoff, `eidx, `at, `entry
      ensures Valid() && (Lost() ==> !loads((eidx - NDIRECT) / EXTENTSPERBLOCK))
      ensures entry.Some? ==> entry == old(entry) || loads(entry.value)
    {
      var found := true;
      while found && off >= eoff + ino.At(eidx).count * BLOCKSIZE
        invariant Walking(found) && ino.Ok() && eidx <= ino.Size() && (found ==> eidx < ino.Size())
        invariant !found && NotLoaded() ==> !loads((eidx - NDIRECT) / EXTENTSPERBLOCK)
        invariant entry.Some? ==> entry == old(entry) || loads(entry.value)
        decreases ino.Size() - eidx, if found then 1 else 0
      {
        hide FileIter.Walking;
        found := Turn(loads);
      }
      if !found {
        at := false;
      }
    }

    /** `next`: the next block that is present, or the end of the file; past the end it does nothing. */
    method Next(loads: nat -> bool)
      requires Valid()
      modifies `off, `eoff, `eidx, `at, `entry
      ensures Valid() && (!old(Active()) ==> off == old(off) && !Active() && Lost() == old(Lost()))
      ensures old(Active()) ==> off % BLOCKSIZE == 0 && off > old(off)
      ensures if Lost() then old(Lost()) || !loads((eidx - NDIRECT) / EXTENTSPERBLOCK) else Placed()
      ensures Active() ==> ino.At(eidx).first != 0
      ensures forall b :: old(off) / BLOCKSIZE < b < off / BLOCKSIZE && b < |Blocks()| ==> Blocks()[b] == 0
    {
      if at && ino.At(eidx).count != 0 {
        NextPresent(loads);
        assert off > old(off) by { LaterBlock(old(off), off); }
      } else if !Lost() {
        FindDone();
      }
    }

    /** In a hole the current block is 0. */
    lemma HoleHere()
      requires Valid() && Active() && Placed() && ino.At(eidx).first == 0
      ensures off / BLOCKSIZE < |Blocks()| && Blocks()[off / BLOCKSIZE] == 0
    {
    }

    /** On the way from block `b0`, only blocks that are not present were passed. */
    ghost predicate Passing(b0: nat)
      reads this
    {
      && Valid() && off % BLOCKSIZE == 0 && off / BLOCKSIZE > b0
      && forall b :: b0 < b < off / BLOCKSIZE && b < |Blocks()| ==> Blocks()[b] == 0
    }

    method FindNext(loads: nat -> bool, ghost b0: nat)
      requires Passing(b0) && Active() && Placed() && ino.At(eidx).first == 0
      modifies `off, `eoff, `eidx, `at, `entry
      ensures Passing(b0) && off / BLOCKSIZE == old(off) / BLOCKSIZE + 1 && old(off) / BLOCKSIZE < |Blocks()|
      ensures if Lost() then !loads((eidx - NDIRECT) / EXTENTSPERBLOCK) else Placed()
    {
      HoleHere();
      hide FileIter.Valid, FileIter.Placed;
      Find(NextBlockStart(off), loads);
    }

    method NextPresent(loads: nat -> bool)
      requires Valid() && Active()
      modifies `off, `eoff, `eidx, `at, `entry
      ensures Passing(old(off) / BLOCKSIZE) && (Active() ==> ino.At(eidx).first != 0)
      ensures if Lost() then !loads((eidx - NDIRECT) / EXTENTSPERBLOCK) else Placed()
    {
      ghost var b0 := off / BLOCKSIZE;
      Find(NextBlockStart(off), loads);
      hide FileIter.Placed;
      while at && ino.At(eidx).first == 0 && ino.At(eidx).count != 0
        invariant Passing(b0) && Valid()
        invariant if Lost() then !loads((eidx - NDIRECT) / EXTENTSPERBLOCK) else Placed()
        decreases |Blocks()| - off / BLOCKSIZE
      {
        hide FileIter.Passing, FileIter.Valid;
        FindNext(loads, b0);
      }
    }

    // ----- insert -----

    /** The iterator stands in an extent in use. */
    ghost predicate Standing()
      reads this
    {
      && at && Stands(ino, eidx, eoff) && off >= eoff
      && (eidx >= NDIRECT ==> entry == Some((eidx - NDIRECT) / EXTENTSPERBLOCK))
      && (entry.Some? ==> entry.value < ino.indirect.count)
    }

    /** Where, in blocks, the iterator takes the end of the file to be. */
    ghost function EndPlace(): nat
      reads this
      requires ino.Ok() && eidx <= ino.Size()
    {
      |FlatTo(ino.All(), eidx)|
    }

    /** It is the end unless the search was lost. */
    lemma EndIsPlace()
      requires Valid() && !Active()
      ensures EndPlace() <= |Blocks()| && (EndPlace() == |Blocks()| <==> !Lost())
    {
      var x := ino.All();
      FlatPrefix(x, eidx, |x|);
      if Lost() {
        FlatAt(x, eidx, EndPlace());
      } else {
        FlatEnds(x, eidx, |x|);
      }
    }

    /** The merging code looks at the extent before the position, and `first` continues it. */
    predicate Merges(first: nat)
      reads this
      requires ino.Ok() && eidx <= ino.Size()
    {
      && eidx > 0 && (eidx <= NDIRECT || (eidx - NDIRECT) % EXTENTSPERBLOCK != 0)
      && ino.At(eidx - 1).first + ino.At(eidx - 1).count == first
    }

    /** Grow extent number `eidx - 1` and move back to it. */
    method GrowPrevious(first: nat, count: nat)
      requires Valid() && !Active() && count != 0 && Merges(first)
      modifies this
      ensures Standing() && off == old(off) && (!old(Lost()) ==> LastInUse(ino, eidx))
      ensures old(EndPlace()) <= |old(Blocks())|
      ensures Blocks() == Spliced(old(Blocks()), old(EndPlace()),
                              Run(Extent(if old(ino).At(old(eidx) - 1).first == 0 then 0 else first, count)))
    {
      var k := eidx - 1;
      var e := ino.At(k);
      hide Stands, LastInUse, Flat, Run, Inode.Set, Spliced, FlatTo, Packed;
      GrowStands(first, count);
      hide Inode.Ok, FileIter.Valid, FileIter.Merges;
      ino := ino.Set(k, Extent(e.first, e.count + count));
      at, eidx, eoff := true, k, eoff - e.count * BLOCKSIZE;
    }

    lemma GrowStands(first: nat, count: nat)
      requires Valid() && !Active() && count != 0 && Merges(first)
      ensures var k, e := eidx - 1, ino.At(eidx - 1);
              var m := ino.Set(k, Extent(e.first, e.count + count));
              && 0 <= eoff - e.count * BLOCKSIZE <= off && Stands(m, k, eoff - e.count * BLOCKSIZE)
              && (!Lost() ==> LastInUse(m, k)) && m.indirect == ino.indirect && EndPlace() <= |Blocks()|
              && Flat(m.All()) == Spliced(Blocks(), EndPlace(), Run(Extent(if e.first == 0 then 0 else first, count)))
              && (k >= NDIRECT ==> entry == Some((k - NDIRECT) / EXTENTSPERBLOCK))
    {
      hide Flat, FlatTo, Packed, Run, Inode.Ok, Inode.At, Inode.Set, Inode.All, Spliced, Stands;
      if eidx > NDIRECT { PreviousPlace(eidx, ino.indirect.count); }
      GrowInode(ino, eidx - 1, count);
      StandsGrown(ino, eidx - 1, count);
    }

    /** Fill the unused extent number `eidx`. */
    method AddExtent(first: nat, count: nat)
      requires Valid() && !Active() && !Stopped() && count != 0 && eidx < ino.Size()
      modifies this
      ensures Standing() && off == old(off) && LastInUse(ino, eidx)
      ensures Blocks() == old(Blocks()) + Run(Extent(first, count))
    {
      AddInode(ino, eidx, Extent(first, count));
      hide FlatTo, Packed, Run, Inode.Ok, Inode.At, Inode.Set, Inode.Size;
      ino := ino.Set(eidx, Extent(first, count));
      at := true;
    }

    /** Allocate and zero the indirect block; `fresh_bn` is what the allocator offers, and `loads` tells whether the
        block can be brought into the buffer cache. */
    method AddIndirect(fresh_bn: Option<nat>, loads: bool) returns (r: Result)
      requires Valid() && !Active() && eidx == NDIRECT && ino.indirect.count == 0
      modifies this
      ensures Valid() && !Active() && !Stopped() && Blocks() == old(Blocks()) && off == old(off) && eidx == old(eidx)
      ensures eoff == old(eoff)
      ensures r == if fresh_bn.None? then Err(NoSpace) else if !loads then Err(NoMemory) else Ok
      ensures r.Ok? ==> eidx < ino.Size() && ino == WithIndirect(old(ino), fresh_bn.value)
      ensures !r.Ok? ==> ino == old(ino)
    {
      if fresh_bn.None? {
        return Err(NoSpace);
      }
      if !loads {
        return Err(NoMemory);
      }
      ghost var x := ino.All();
      IndirectAll(ino, fresh_bn.value);
      ino := WithIndirect(ino, fresh_bn.value);
      FlatSame(x, ino.All(), eidx);
      entry := Some(0);
      at := false;
      assert ino.All()[eidx - 1] == ino.At(eidx - 1) && x[eidx - 1] == old(ino).At(eidx - 1) &&
          ino.All()[eidx] == ino.At(eidx);
      return Ok;
    }

    /** An indirect block has to be allocated first. */
    predicate NeedsIndirect(first: nat)
      reads this
      requires ino.Ok() && eidx <= ino.Size()
    {
      eidx == NDIRECT && ino.indirect.count == 0 && !Merges(first)
    }

    /** The indirect block was not loaded, or is the last one and full. */
    predicate TooBig(first: nat)
      reads this
      requires ino.Ok() && eidx <= ino.Size()
    {
      if Stopped() then !Merges(first) else eidx > NDIRECT && eidx == ino.Size()
    }

    /** Grow the extent before, in an indirect block, or fill the unused one. */
    method InsertHere(first: nat, count: nat)
      requires Valid() && !Active() && count != 0 && (eidx >= NDIRECT ==> entry.Some?)
      requires eidx <= NDIRECT ==> !Merges(first)
      modifies this
      ensures Standing() && off == old(off) && old(EndPlace()) == |old(Blocks())|
      ensures Blocks() == old(Blocks()) +
                Run(Extent(if ContinuesHole(old(ino), old(eidx), first) then 0 else first, count))
      ensures off < |Blocks()| * BLOCKSIZE ==> Valid()
    {
      EndIsPlace();
      SplicedEnd(Blocks(), Run(Extent(if ContinuesHole(ino, eidx, first) then 0 else first, count)));
      hide Packed, FlatTo, Run, Inode.Set, Spliced, Stands, LastInUse;
      if eidx >= NDIRECT { HeldMeansInside(eidx, ino.indirect.count); }
      if eidx >= NDIRECT && (eidx - NDIRECT) % EXTENTSPERBLOCK != 0 &&
          ino.At(eidx - 1).first + ino.At(eidx - 1).count == first {
        GrowPrevious(first, count);
      } else {
        AddExtent(first, count);
      }
      InsertDone();
    }

    /** `insert`: put an extent where the file seems to end, which is its end unless the search was lost. The blocks
        put in are those of the extent, except where it continues, by number alone, a hole: then the hole grows. */
    method Insert(first: nat, count: nat, fresh_bn: Option<nat>, loads: bool) returns (r: Result)
      requires Valid() && !Active() && count != 0
      modifies this
      ensures ino.Ok() && Packed(ino.All()) && off == old(off)
      ensures old(EndPlace()) <= |old(Blocks())| && (old(EndPlace()) == |old(Blocks())| <==> !old(Lost()))
      ensures !r.Ok? ==> Valid() && Blocks() == old(Blocks()) && ino == old(ino)
      ensures r.Ok? ==>
                Blocks() == Spliced(old(Blocks()), old(EndPlace()),
                                Run(Extent(if ContinuesHole(old(ino), old(eidx), first) then 0 else first, count)))
      ensures r.Ok? ==> Standing()
      ensures r.Ok? && !old(Lost()) && off < |Blocks()| * BLOCKSIZE ==> Valid()
      ensures r == (if old(NeedsIndirect(first)) && fresh_bn.None? then Err(NoSpace)
                    else if old(NeedsIndirect(first)) && !loads then Err(NoMemory)
                    else if old(TooBig(first)) then Err(FileTooBig) else Ok)
    {
      EndIsPlace();
      ghost var lost := Lost();
      SplicedEnd(Blocks(), Run(Extent(if ContinuesHole(ino, eidx, first) then 0 else first, count)));
      hide Packed, FlatTo, Run, Inode.Set, Spliced;
      if eidx > 0 && eidx <= NDIRECT && ino.At(eidx - 1).first + ino.At(eidx - 1).count == first {
        GrowPrevious(first, count);
        if !lost { InsertDone(); }
        return Ok;
      }
      if eidx == NDIRECT && ino.indirect.count == 0 {
        r := AddIndirect(fresh_bn, loads);
        if !r.Ok? {
          return r;
        }
      }
      if eidx >= NDIRECT && entry.None? {
        return Err(FileTooBig);
      }
      InsertHere(first, count);
      return Ok;
    }

    /** `insert` as a caller that has found the end of the file sees it: it appends what it was asked to append
        exactly if it did not continue a hole. */
    method Append(first: nat, count: nat, fresh_bn: Option<nat>, loads: bool) returns (r: Result)
      requires Valid() && !Active() && !Lost() && count != 0
      modifies this
      ensures ino.Ok() && Packed(ino.All())
      ensures r.Ok? ==> (Blocks() == old(Blocks()) + Run(Extent(first, count)) <==>
              !ContinuesHole(old(ino), old(eidx), first))
      ensures !r.Ok? ==> Blocks() == old(Blocks())
    {
      ghost var was, p := Blocks(), EndPlace();
      AppendedAsAsked(ino, eidx, was, first, count);
      hide FileIter.Valid, ContinuesHole, Packed, Run;
      r := Insert(first, count, fresh_bn, loads);
      assert was[..|was|] == was && was[|was|..] == [];
    }

    /** After an insertion the iterator stands in the extent that holds the new blocks. */
    lemma InsertDone()
      requires Standing() && LastInUse(ino, eidx)
      ensures off < |Blocks()| * BLOCKSIZE ==> Valid()
    {
      var x := ino.All();
      assert x[eidx] == ino.At(eidx) && (eidx + 1 < |x| ==> x[eidx + 1] == ino.At(eidx + 1));
      LastExtent(x, eidx);
      hide FlatTo, Packed, Inode.Ok, Inode.At, Inode.Size;
    }
  }

  lemma LastExtent(x: seq<Extent>, k: nat)
    requires Packed(x) && k < |x| && x[k].count != 0 && (k + 1 < |x| ==> x[k + 1].count == 0)
    ensures |Flat(x)| == |FlatTo(x, k)| + x[k].count
  {
    FlatEnds(x, k + 1, |x|);
    hide Packed;
    assert FlatTo(x, k + 1) == FlatTo(x, k) + Run(x[k]);
  }

  lemma AddInode(n: Inode, k: nat, e: Extent)
    requires n.Ok() && Packed(n.All()) && k < n.Size() && n.At(k).count == 0 && (k > 0 ==> n.At(k - 1).count != 0)
    requires e.count != 0
    ensures var m := n.Set(k, e);
            && m.Ok() && m.Size() == n.Size() && m.indirect == n.indirect && Packed(m.All())
            && Flat(m.All()) == Flat(n.All()) + Run(e) && m.At(k).count == e.count
            && FlatTo(m.All(), k) == FlatTo(n.All(), k)
            && (k > 0 ==> m.At(k - 1).count != 0) && (k + 1 < m.Size() ==> m.At(k + 1).count == 0)
  {
    var x, m := n.All(), n.Set(k, e);
    assert x[k] == n.At(k) && (k > 0 ==> x[k - 1] == n.At(k - 1));
    assert k + 1 < |x| ==> x[k + 1].count == 0;
    SetAll(n, k, e);
    FlatAdd(x, k, e);
    FlatSame(x, m.All(), k);
    hide FlatTo, Packed, Inode.Set, Inode.Ok;
    assert m.All()[k] == m.At(k) && (k > 0 ==> m.All()[k - 1] == m.At(k - 1));
    assert k + 1 < m.Size() ==> m.All()[k + 1] == m.At(k + 1);
  }

  lemma SetAt(n: Inode, e: nat, x: Extent, d: nat)
    requires n.Ok() && e < n.Size() && d < n.Size()
    ensures n.Set(e, x).Ok() && d < n.Set(e, x).Size() && n.Set(e, x).At(d) == if d == e then x else n.At(d)
  {
    SetAll(n, e, x);
    hide Inode.Set, Inode.Ok, Inode.At;
    assert n.Set(e, x).All()[d] == n.Set(e, x).At(d) && n.All()[d] == n.At(d);
  }

  lemma StandsGrown(n: Inode, k: nat, count: nat)
    requires n.Ok() && Packed(n.All()) && k < n.Size() && n.At(k).count != 0
    ensures var m := n.Set(k, Extent(n.At(k).first, n.At(k).count + count));
            && Stands(m, k, |FlatTo(n.All(), k)| * BLOCKSIZE) && (LastInUse(n, k) ==> LastInUse(m, k))
  {
    hide Flat, FlatTo, Packed, Run, Inode.Ok, Inode.At, Inode.Set, Inode.All, Spliced;
    var x := Extent(n.At(k).first, n.At(k).count + count);
    GrowInode(n, k, count);
    SetAt(n, k, x, k);
    if k > 0 {
      UsedBefore(n, k);
      SetAt(n, k, x, k - 1);
    }
    if k + 1 < n.Size() { SetAt(n, k, x, k + 1); }
  }

  lemma UsedBefore(n: Inode, k: nat)
    requires n.Ok() && Packed(n.All()) && 0 < k < n.Size() && n.At(k).count != 0
    ensures n.At(k - 1).count != 0
  {
    assert n.All()[k] == n.At(k) && n.All()[k - 1] == n.At(k - 1);
    hide Inode.Ok, Inode.At;
  }

  lemma GrowInode(n: Inode, k: nat, count: nat)
    requires n.Ok() && Packed(n.All()) && k < n.Size() && n.At(k).count != 0
    ensures var m := n.Set(k, Extent(n.At(k).first, n.At(k).count + count));
            && m.Ok() && m.Size() == n.Size() && m.indirect == n.indirect && Packed(m.All())
            && |FlatTo(n.All(), k + 1)| <= |Flat(n.All())|
            && Flat(m.All()) ==
                 Spliced(Flat(n.All()), |FlatTo(n.All(), k + 1)|,
                     Run(Extent(if n.At(k).first == 0 then 0 else n.At(k).first + n.At(k).count, count)))
            && FlatTo(m.All(), k) == FlatTo(n.All(), k) &&
                 |FlatTo(n.All(), k + 1)| == |FlatTo(n.All(), k)| + n.At(k).count
  {
    var x, e := n.All(), n.At(k);
    assert x[k] == e;
    SetAll(n, k, Extent(e.first, e.count + count));
    GrowPacked(x, k, Extent(e.first, e.count + count));
    FlatGrowAt(x, k, count, |x|);
    FlatSame(x, x[k := Extent(e.first, e.count + count)], k);
    assert FlatTo(x, k + 1) == FlatTo(x, k) + Run(e);
    assert |Run(e)| == e.count;
    hide FlatTo, Packed, Inode.Set, Inode.Ok, Inode.At, Spliced, Run;
  }

  /** The extent before `e` is a hole whose block count happens to be `first`, and the merging code looks at it. */
  predicate ContinuesHole(n: Inode, e: nat, first: nat)
    requires n.Ok() && e <= n.Size()
  {
    && e > 0 && (e <= NDIRECT || (e - NDIRECT) % EXTENTSPERBLOCK != 0)
    && n.At(e - 1).first == 0 && n.At(e - 1).count == first
  }

  /** The blocks asked for are the blocks appended exactly if no hole is continued. */
  lemma AppendedAsAsked(n: Inode, e: nat, was: seq<nat>, first: nat, count: nat)
    requires n.Ok() && e <= n.Size() && count != 0 && (e > 0 ==> n.At(e - 1).count != 0)
    ensures was + Run(Extent(if ContinuesHole(n, e, first) then 0 else first, count)) == was + Run(Extent(first, count))
            <==> !ContinuesHole(n, e, first)
  {
    var s, t := was + Run(Extent(0, count)), was + Run(Extent(first, count));
    if ContinuesHole(n, e, first) {
      assert s[|was|] == 0 && t[|was|] == first;
    }
  }

  /** Appending blocks 8 to 10 to a file that is a hole of 8 blocks makes the hole longer. */
  lemma HoleExample()
    ensures var n := Inode([Extent(0, 8), NO_EXTENT, NO_EXTENT, NO_EXTENT], NO_EXTENT, map[]);
            n.Ok() && Packed(n.All()) && ContinuesHole(n, 1, 8) &&
                Flat(n.All()) + Run(Extent(0, 3)) != Flat(n.All()) + Run(Extent(8, 3))
  {
    var n := Inode([Extent(0, 8), NO_EXTENT, NO_EXTENT, NO_EXTENT], NO_EXTENT, map[]);
    assert forall e :: 0 <= e < 4 ==> n.All()[e] == n.direct[e];
    AppendedAsAsked(n, 1, Flat(n.All()), 8, 3);
  }

  /** Four direct extents of one block, and one in an indirect block. */
  function TwoPartInode(): Inode {
    Inode([Extent(10, 1), Extent(20, 1), Extent(30, 1), Extent(40, 1)], Extent(50, 1),
          map[50 := seq(EXTENTSPERBLOCK, i => if i == 0 then Extent(60, 1) else NO_EXTENT)])
  }

  lemma TwoPartBlocks()
    ensures var n := TwoPartInode();
            && n.Ok() && Packed(n.All()) && n.At(3) == Extent(40, 1) && n.At(4) == Extent(60, 1)
            && FlatTo(n.All(), 4) == [10, 20, 30, 40] && Flat(n.All()) == [10, 20, 30, 40, 60]
  {
    var n := TwoPartInode();
    assert n.HasBlock(50);
    var x := n.All();
    forall e: nat | e < |x| ensures x[e] == TwoPartAt(e) { TwoPartExtent(e); }
    hide FlatTo, Flat, TwoPartInode, Inode.Ok, Inode.At;
    FiveBlocks(x);
  }

  function TwoPartAt(e: nat): Extent {
    if e < 4 then Extent(10 * (e + 1), 1) else if e == 4 then Extent(60, 1) else NO_EXTENT
  }

  lemma TwoPartExtent(e: nat)
    requires e < NDIRECT + EXTENTSPERBLOCK
    ensures TwoPartInode().Ok() && TwoPartInode().At(e) == TwoPartAt(e)
  {
    assert TwoPartInode().HasBlock(50);
    if e >= 4 { IndirectPlace(e, 1); }
  }

  lemma FiveBlocks(x: seq<Extent>)
    requires |x| >= 5 && x[0] == Extent(10, 1) && x[1] == Extent(20, 1) && x[2] == Extent(30, 1)
    requires x[3] == Extent(40, 1) && x[4] == Extent(60, 1) && forall e :: 5 <= e < |x| ==> x[e].count == 0
    ensures FlatTo(x, 4) == [10, 20, 30, 40] && Flat(x) == [10, 20, 30, 40, 60]
  {
    FlatZeros(x, 5, |x|);
    FlatOne(x, 0);
    FlatOne(x, 1);
    FlatOne(x, 2);
    FlatOne(x, 3);
    FlatOne(x, 4);
    hide FlatTo;
    Five(FlatTo(x, 0), FlatTo(x, 1), FlatTo(x, 2), FlatTo(x, 3), FlatTo(x, 4), FlatTo(x, 5));
  }

  lemma FlatOne(x: seq<Extent>, k: nat)
    requires k < |x| && x[k].count == 1 && x[k].first != 0
    ensures FlatTo(x, k + 1) == FlatTo(x, k) + [x[k].first] && FlatTo(x, 0) == []
  {
    assert Run(x[k]) == [x[k].first];
  }

  lemma Five(s0: seq<nat>, s1: seq<nat>, s2: seq<nat>, s3: seq<nat>, s4: seq<nat>, s5: seq<nat>)
    requires s0 == [] && s1 == s0 + [10] && s2 == s1 + [20] && s3 == s2 + [30] && s4 == s3 + [40] && s5 == s4 + [60]
    ensures s4 == [10, 20, 30, 40] && s5 == [10, 20, 30, 40, 60]
  {
  }

  /** With the indirect block not loaded, this file seems to end after 4 blocks, and appending block 41 puts it
      there. */
  method LostExample() returns (it: FileIter)
    ensures it.ino.Ok() && Packed(it.ino.All())
    ensures Flat(TwoPartInode().All()) == [10, 20, 30, 40, 60] && it.Blocks() == [10, 20, 30, 40, 41, 60]
  {
    TwoPartBlocks();
    var off: nat := 4 * BLOCKSIZE;
    assert off == 4 * BLOCKSIZE;
    hide *;
    it := new FileIter(TwoPartInode(), off, _ => false);
    LostThere(it);
    var r := it.Insert(41, 1, None, false);
    SplicedThere();
  }

  lemma LostThere(it: FileIter)
    requires it.Valid() && it.ino == TwoPartInode() && it.off == 4 * BLOCKSIZE && it.entry.None?
    requires it.Lost() || it.Placed()
    ensures it.Stopped() && it.Merges(41) && !it.NeedsIndirect(41) && !it.TooBig(41) && !it.Active()
    ensures it.EndPlace() == 4 && !ContinuesHole(it.ino, it.eidx, 41) && it.Blocks() == Flat(TwoPartInode().All())
  {
    TwoPartBlocks();
    FlatPrefix(it.ino.All(), it.eidx, 4);
    hide FlatTo;
  }

  lemma SplicedThere()
    ensures Spliced([10, 20, 30, 40, 60], 4, Run(Extent(41, 1))) == [10, 20, 30, 40, 41, 60]
  {
    assert Run(Extent(41, 1)) == [41];
  }

  lemma LaterBlock(a: nat, b: nat)
    requires b / BLOCKSIZE > a / BLOCKSIZE
    ensures b > a
  {
  }

  /** `round_up(off + 1, blocksize)`. */
  function NextBlockStart(off: nat): (r: nat)
    ensures r > off && r % BLOCKSIZE == 0 && r / BLOCKSIZE == off / BLOCKSIZE + 1
  {
    (off / BLOCKSIZE + 1) * BLOCKSIZE
  }

  lemma OffsetInside(off: nat, n: nat, count: nat)
    requires n * BLOCKSIZE <= off < n * BLOCKSIZE + count * BLOCKSIZE
    ensures n <= off / BLOCKSIZE < n + count && (off - n * BLOCKSIZE) / BLOCKSIZE == off / BLOCKSIZE - n
  {
  }

  lemma OffsetBeyond(off: nat, n: nat)
    requires off >= n * BLOCKSIZE
    ensures off / BLOCKSIZE >= n
  {
  }

  lemma NextPlace(e: nat, count: nat)
    requires e < NDIRECT + EXTENTSPERBLOCK * count
    ensures e + 1 < NDIRECT || (e + 1 - NDIRECT) % EXTENTSPERBLOCK == 0 || e >= NDIRECT
    ensures e >= NDIRECT && (e + 1 - NDIRECT) % EXTENTSPERBLOCK != 0 ==>
              (e + 1 - NDIRECT) / EXTENTSPERBLOCK == (e - NDIRECT) / EXTENTSPERBLOCK &&
                  e + 1 < NDIRECT + EXTENTSPERBLOCK * count
    ensures e + 1 >= NDIRECT && (e + 1 - NDIRECT) % EXTENTSPERBLOCK == 0 ==>
              (count <= (e + 1 - NDIRECT) / EXTENTSPERBLOCK <==> e + 1 == NDIRECT + EXTENTSPERBLOCK * count)
  {
  }

  lemma PreviousPlace(e: nat, count: nat)
    requires NDIRECT < e <= NDIRECT + EXTENTSPERBLOCK * count && (e - NDIRECT) % EXTENTSPERBLOCK != 0
    ensures e < NDIRECT + EXTENTSPERBLOCK * count
    ensures (e - 1 - NDIRECT) / EXTENTSPERBLOCK == (e - NDIRECT) / EXTENTSPERBLOCK
  {
  }

  lemma HeldMeansInside(e: nat, count: nat)
    requires e >= NDIRECT
    ensures (e - NDIRECT) / EXTENTSPERBLOCK < count ==> e < NDIRECT + EXTENTSPERBLOCK * count
  {
  }
}
