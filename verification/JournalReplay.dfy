/** Replaying a journal: what the replayer writes, and the plain replay it stands for. */
module JournalReplay {
  import opened JournalFormat
  import opened Util

  /** One call of the `write_block` callback. */
  datatype Write = Write(tid: u16, bn: nat, data: Block)

  /** One reference of a replayed transaction: a journaled block, or the news that the destination is no longer
      journaled. */
  datatype Event = Event(tid: u16, bn: nat, data: Option<Block>)

  type Disk = map<nat, Block>

  /** The accepted metablocks, in sequence order, by block index. */
  ghost predicate MetasOk(S: Journal, metas: seq<nat>) {
    && (forall i :: 0 <= i < |metas| ==> metas[i] < |S| && S[metas[i]].RefsFit())
    && (forall i, j :: 0 <= i < j < |metas| ==> metas[i] != metas[j])
  }

  /** Offset of the data block of ref `r` (if it is journaled) from its metablock. */
  function Delta(b: Block, r: nat): (d: nat)
    requires r <= |b.ref|
    ensures 1 <= d <= r + 1
  {
    if r == 0 then 1 else Delta(b, r - 1) + (if b.ref[r - 1].Nonjournaled() then 0 else 1)
  }

  /** `d` blocks on from `bi`, going around at the end of the journal. */
  function Onward(nb: nat, bi: nat, d: nat): (x: nat)
    requires nb > 0
    ensures x < nb
  {
    (bi + d) % nb
  }

  function DataIndex(S: Journal, bi: nat, r: nat): (d: nat)
    requires bi < |S| && r <= |S[bi].ref|
    ensures d < |S|
  {
    Onward(|S|, bi, Delta(S[bi], r))
  }

  /** The data block as written: an escaped block gets its magic number back. */
  function Restored(b: Block, ref: Ref): Block {
    if ref.Escaped() then b.(magic := JOURNALMAGIC) else b
  }

  /** A place in the log: before ref `r` of metablock number `mi`. */
  predicate At(S: Journal, metas: seq<nat>, mi: nat, r: nat)
    requires forall i :: 0 <= i < |metas| ==> metas[i] < |S|
  {
    mi <= |metas| && r <= (if mi == |metas| then 0 else S[metas[mi]].nref)
  }

  // ----- What the replayer does: write each ref not marked as overwritten -----

  function RefWrites(S: Journal, bi: nat, r: nat, lo: u16, hi: u16): seq<Write>
    requires bi < |S| && r < |S[bi].ref|
  {
    var b, ref := S[bi], S[bi].ref[r];
    if InRegion(lo, hi, b.tid) && !ref.Overwritten() && !ref.Nonjournaled()
    then [Write(b.tid, ref.bn, Restored(S[DataIndex(S, bi, r)], ref))]
    else []
  }

  /** Writes for the log up to a place. */
  function Writes(S: Journal, metas: seq<nat>, mi: nat, r: nat, lo: u16, hi: u16): seq<Write>
    requires MetasOk(S, metas) && At(S, metas, mi, r)
    decreases mi, r
  {
    if r > 0 then Writes(S, metas, mi, r - 1, lo, hi) + RefWrites(S, metas[mi], r - 1, lo, hi)
    else if mi > 0 then Writes(S, metas, mi - 1, S[metas[mi - 1]].nref, lo, hi)
    else []
  }

  // ----- Plain replay: apply every ref in order -----

  /** A ref takes part in replay unless it was already flagged as overwritten in the journal. */
  predicate Counts(S: Journal, bi: nat, r: nat, lo: u16, hi: u16)
    requires bi < |S| && r < |S[bi].ref|
  {
    InRegion(lo, hi, S[bi].tid) && !S[bi].ref[r].Overwritten()
  }

  function RefEvents(S: Journal, bi: nat, r: nat, lo: u16, hi: u16): seq<Event>
    requires bi < |S| && r < |S[bi].ref|
  {
    var b, ref := S[bi], S[bi].ref[r];
    if !Counts(S, bi, r, lo, hi) then []
    else if ref.Nonjournaled() then [Event(b.tid, ref.bn, None)]
    else [Event(b.tid, ref.bn, Some(Restored(S[DataIndex(S, bi, r)], ref)))]
  }

  function Events(S: Journal, metas: seq<nat>, mi: nat, r: nat, lo: u16, hi: u16): seq<Event>
    requires MetasOk(S, metas) && At(S, metas, mi, r)
    decreases mi, r
  {
    if r > 0 then Events(S, metas, mi, r - 1, lo, hi) + RefEvents(S, metas[mi], r - 1, lo, hi)
    else if mi > 0 then Events(S, metas, mi - 1, S[metas[mi - 1]].nref, lo, hi)
    else []
  }

  /** Blocks to be written after the events: a journaled ref sets its destination, a non-journaled one cancels what
      was pending there. */
  function Pending(es: seq<Event>): Disk {
    if es == [] then map[]
    else
      var p, e := Pending(es[..|es| - 1]), es[|es| - 1];
      if e.data.Some? then p[e.bn := e.data.value] else p - {e.bn}
  }

  function NaiveReplay(S: Journal, metas: seq<nat>, lo: u16, hi: u16, disk: Disk): Disk
    requires MetasOk(S, metas)
  {
    disk + Pending(Events(S, metas, |metas|, 0, lo, hi))
  }

  function ApplyWrites(disk: Disk, ws: seq<Write>): Disk {
    if ws == [] then disk
    else ApplyWrites(disk, ws[..|ws| - 1])[ws[|ws| - 1].bn := ws[|ws| - 1].data]
  }

  // ----- Only the last ref to a destination matters -----

  /** Destinations of the refs at or after a place. */
  function Later(S: Journal, metas: seq<nat>, mi: nat, r: nat, lo: u16, hi: u16): set<nat>
    requires MetasOk(S, metas) && At(S, metas, mi, r)
    decreases |metas| - mi, (if mi < |metas| then S[metas[mi]].nref - r else 0)
  {
    if mi == |metas| then {}
    else if r < S[metas[mi]].nref then
      Later(S, metas, mi, r + 1, lo, hi) +
      (if Counts(S, metas[mi], r, lo, hi) then {S[metas[mi]].ref[r].bn} else {})
    else Later(S, metas, mi + 1, 0, lo, hi)
  }

  /** The journaled events whose destination no later event, and no block of `later`, repeats. */
  function Keep(es: seq<Event>, later: set<nat>): seq<Write> {
    if es == [] then []
    else
      var e := es[|es| - 1];
      Keep(es[..|es| - 1], later + {e.bn}) +
      (if e.data.Some? && e.bn !in later then [Write(e.tid, e.bn, e.data.value)] else [])
  }

  /** `S'` is `S` with every ref of an accepted metablock flagged whose destination a later ref of the region repeats;
      nothing else differs. */
  ghost predicate Marked(S: Journal, S': Journal, metas: seq<nat>, lo: u16, hi: u16)
    requires MetasOk(S, metas)
  {
    && |S'| == |S|
    && (forall x :: 0 <= x < |S| && x !in metas ==> S'[x] == S[x])
    && (forall i :: 0 <= i < |metas| ==> MarkedBlock(S, S'[metas[i]], metas, i, lo, hi))
  }

  ghost predicate MarkedBlock(S: Journal, b: Block, metas: seq<nat>, i: nat, lo: u16, hi: u16)
    requires MetasOk(S, metas) && i < |metas|
  {
    var old_b := S[metas[i]];
    && b == old_b.(ref := b.ref) && |b.ref| == |old_b.ref|
    && (forall r :: old_b.nref <= r < |old_b.ref| ==> b.ref[r] == old_b.ref[r])
    && (forall r: nat :: r < old_b.nref ==>
          b.ref[r] == if old_b.ref[r].bn in Later(S, metas, i, r + 1, lo, hi)
              then old_b.ref[r].Overwrite() else old_b.ref[r])
  }

  lemma OrBits(f: bv16)
    ensures (f | 0x400) & 0x400 != 0
    ensures (f | 0x400) & 0x200 == f & 0x200
    ensures (f | 0x400) & 0x100 == f & 0x100
    ensures f & 0x400 != 0 ==> f | 0x400 == f
  {
  }

  lemma OverwriteFlag(ref: Ref)
    ensures ref.Overwrite().Overwritten()
    ensures ref.Overwrite().Nonjournaled() == ref.Nonjournaled()
    ensures ref.Overwrite().Escaped() == ref.Escaped()
    ensures ref.Overwritten() ==> ref.Overwrite() == ref
  {
    OrBits(ref.bflags);
  }

  /** No accepted metablock's data block is itself an accepted metablock. */
  ghost predicate DataApart(S: Journal, metas: seq<nat>)
    requires MetasOk(S, metas)
  {
    forall i: nat, r: nat :: i < |metas| && r < S[metas[i]].nref && !S[metas[i]].ref[r].Nonjournaled() ==>
      DataIndex(S, metas[i], r) !in metas
  }

  lemma MarkedMetas(S: Journal, S': Journal, metas: seq<nat>, lo: u16, hi: u16)
    requires MetasOk(S, metas) && Marked(S, S', metas, lo, hi)
    ensures MetasOk(S', metas)
  {
    forall i | 0 <= i < |metas| ensures S'[metas[i]].RefsFit() {
      assert MarkedBlock(S, S'[metas[i]], metas, i, lo, hi);
    }
  }

  lemma {:induction false} MarkedDelta(b: Block, b': Block, r: nat)
    requires r <= b.nref <= |b.ref| == |b'.ref|
    requires forall k: nat :: k < b.nref ==> b'.ref[k] == b.ref[k] || b'.ref[k] == b.ref[k].Overwrite()
    ensures Delta(b, r) == Delta(b', r)
  {
    if r > 0 {
      MarkedDelta(b, b', r - 1);
      OverwriteFlag(b.ref[r - 1]);
    }
  }

  lemma KeepAppend(es: seq<Event>, e: Event, later: set<nat>)
    ensures Keep(es + [e], later)
            == Keep(es, later + {e.bn}) +
                (if e.data.Some? && e.bn !in later then [Write(e.tid, e.bn, e.data.value)] else [])
  {
    assert (es + [e])[..|es + [e]| - 1] == es;
  }

  /** The ref has the last word on its destination: it is journaled, and no later ref repeats it. */
  predicate Final(S: Journal, metas: seq<nat>, mi: nat, r: nat, lo: u16, hi: u16)
    requires MetasOk(S, metas) && mi < |metas| && r < S[metas[mi]].nref
  {
    var ref := S[metas[mi]].ref[r];
    Counts(S, metas[mi], r, lo, hi) && !ref.Nonjournaled() && ref.bn !in Later(S, metas, mi, r + 1, lo, hi)
  }

  function FinalWrites(S: Journal, metas: seq<nat>, mi: nat, r: nat, lo: u16, hi: u16): seq<Write>
    requires MetasOk(S, metas) && mi < |metas| && r < S[metas[mi]].nref
  {
    var bi := metas[mi];
    var ref := S[bi].ref[r];
    if Final(S, metas, mi, r, lo, hi) then [Write(S[bi].tid, ref.bn, Restored(S[DataIndex(S, bi, r)], ref))] else []
  }

  /** The marked journal writes exactly the final refs of the unmarked one. */
  lemma MarkedWrites(S: Journal, S': Journal, metas: seq<nat>, mi: nat, r: nat, lo: u16, hi: u16)
    requires MetasOk(S, metas) && Marked(S, S', metas, lo, hi) && DataApart(S, metas)
    requires mi < |metas| && r < S[metas[mi]].nref && |S'[metas[mi]].ref| == |S[metas[mi]].ref|
    ensures RefWrites(S', metas[mi], r, lo, hi) == FinalWrites(S, metas, mi, r, lo, hi)
  {
    MarkedPlace(S, S', metas, mi, r, lo, hi);
    hide Marked, DataApart, MetasOk, Later, Ref.Overwritten, Ref.Nonjournaled, Ref.Escaped, Ref.Overwrite, InRegion,
        DataIndex;
  }

  /** What marking leaves of one ref and its data. */
  lemma MarkedPlace(S: Journal, S': Journal, metas: seq<nat>, mi: nat, r: nat, lo: u16, hi: u16)
    requires MetasOk(S, metas) && Marked(S, S', metas, lo, hi) && DataApart(S, metas)
    requires mi < |metas| && r < S[metas[mi]].nref && |S'[metas[mi]].ref| == |S[metas[mi]].ref|
    ensures var bi := metas[mi]; var ref, ref' := S[bi].ref[r], S'[bi].ref[r];
            && S'[bi].tid == S[bi].tid && ref'.bn == ref.bn
            && (ref'.Overwritten() <==> ref.Overwritten() || ref.bn in Later(S, metas, mi, r + 1, lo, hi))
            && ref'.Nonjournaled() == ref.Nonjournaled() && ref'.Escaped() == ref.Escaped()
            && (!ref.Nonjournaled() ==> S'[DataIndex(S', bi, r)] == S[DataIndex(S, bi, r)])
  {
    var bi := metas[mi];
    assert MarkedBlock(S, S'[bi], metas, mi, lo, hi);
    OverwriteFlag(S[bi].ref[r]);
    MarkedDelta(S[bi], S'[bi], r);
    if !S[bi].ref[r].Nonjournaled() { UnmarkedData(S, S', metas, mi, r, lo, hi); }
  }

  lemma UnmarkedData(S: Journal, S': Journal, metas: seq<nat>, mi: nat, r: nat, lo: u16, hi: u16)
    requires MetasOk(S, metas) && Marked(S, S', metas, lo, hi) && DataApart(S, metas)
    requires mi < |metas| && r < S[metas[mi]].nref && !S[metas[mi]].ref[r].Nonjournaled()
    ensures S'[DataIndex(S, metas[mi], r)] == S[DataIndex(S, metas[mi], r)]
  {
  }

  /** One step: the events that are last for their destination are those of the final refs. */
  lemma KeepStep(S: Journal, metas: seq<nat>, mi: nat, r: nat, lo: u16, hi: u16)
    requires MetasOk(S, metas) && mi < |metas| && r < S[metas[mi]].nref
    ensures Keep(Events(S, metas, mi, r + 1, lo, hi), Later(S, metas, mi, r + 1, lo, hi))
            == Keep(Events(S, metas, mi, r, lo, hi), Later(S, metas, mi, r, lo, hi)) +
                FinalWrites(S, metas, mi, r, lo, hi)
  {
    var bi, later := metas[mi], Later(S, metas, mi, r + 1, lo, hi);
    var es, e := Events(S, metas, mi, r, lo, hi), RefEvents(S, metas[mi], r, lo, hi);
    assert Events(S, metas, mi, r + 1, lo, hi) == es + e;
    if Counts(S, bi, r, lo, hi) {
      assert Later(S, metas, mi, r, lo, hi) == later + {S[bi].ref[r].bn};
      KeepAppend(es, e[0], later);
    } else {
      assert es + e == es && Later(S, metas, mi, r, lo, hi) == later + {} == later;
      assert Keep(es, later) + [] == Keep(es, later);
    }
  }

  lemma LaterTurn(S: Journal, metas: seq<nat>, mi: nat, lo: u16, hi: u16)
    requires MetasOk(S, metas) && mi < |metas|
    ensures Later(S, metas, mi, S[metas[mi]].nref, lo, hi) == Later(S, metas, mi + 1, 0, lo, hi)
  {
  }

  /** The marked journal writes, in order, the events that are last for their destination. */
  lemma {:induction false} WritesAreKept(S: Journal, S': Journal, metas: seq<nat>, mi: nat, r: nat, lo: u16, hi: u16)
    requires MetasOk(S, metas) && MetasOk(S', metas) && Marked(S, S', metas, lo, hi) && DataApart(S, metas)
    requires At(S, metas, mi, r) && At(S', metas, mi, r)
    ensures Writes(S', metas, mi, r, lo, hi)
            == Keep(Events(S, metas, mi, r, lo, hi), Later(S, metas, mi, r, lo, hi))
    decreases mi, r
  {
    if mi == 0 && r == 0 { return; }
    MarkedShape(S, S', metas, lo, hi);
    hide Marked, DataApart, Keep, RefWrites, RefEvents, Later, FinalWrites;
    if r > 0 {
      WritesAreKept(S, S', metas, mi, r - 1, lo, hi);
      KeepStep(S, metas, mi, r - 1, lo, hi);
      MarkedWrites(S, S', metas, mi, r - 1, lo, hi);
    } else {
      LaterTurn(S, metas, mi - 1, lo, hi);
      WritesAreKept(S, S', metas, mi - 1, S[metas[mi - 1]].nref, lo, hi);
    }
  }

  lemma MarkedShape(S: Journal, S': Journal, metas: seq<nat>, lo: u16, hi: u16)
    requires MetasOk(S, metas) && Marked(S, S', metas, lo, hi)
    ensures forall i {:trigger metas[i]} :: 0 <= i < |metas| ==>
              |S'[metas[i]].ref| == |S[metas[i]].ref| && S'[metas[i]].nref == S[metas[i]].nref &&
                  S'[metas[i]].tid == S[metas[i]].tid
  {
    forall i {:trigger metas[i]} | 0 <= i < |metas|
      ensures |S'[metas[i]].ref| == |S[metas[i]].ref| && S'[metas[i]].nref == S[metas[i]].nref
      ensures S'[metas[i]].tid == S[metas[i]].tid
    {
      assert MarkedBlock(S, S'[metas[i]], metas, i, lo, hi);
    }
  }

  ghost predicate DistinctTargets(ws: seq<Write>) {
    forall i, j :: 0 <= i < j < |ws| ==> ws[i].bn != ws[j].bn
  }

  lemma AddPending(disk: Disk, p: Disk, later: set<nat>, bn: nat, data: Block)
    requires bn !in later
    ensures disk + (p[bn := data] - later) == (disk + (p - (later + {bn})))[bn := data]
  {
  }

  lemma ApplyOne(disk: Disk, ws: seq<Write>, w: Write)
    ensures ApplyWrites(disk, ws + [w]) == ApplyWrites(disk, ws)[w.bn := w.data]
  {
    assert (ws + [w])[..|ws + [w]| - 1] == ws;
  }

  lemma DistinctOne(ws: seq<Write>, w: Write)
    requires DistinctTargets(ws) && forall v :: v in ws ==> v.bn != w.bn
    ensures DistinctTargets(ws + [w])
  {
  }

  /** What the last event adds to the writes and to the pending map. */
  lemma LastEvent(es: seq<Event>, later: set<nat>)
    requires es != []
    ensures var front, e := es[..|es| - 1], es[|es| - 1];
            var ws := Keep(front, later + {e.bn});
            && Keep(es, later) ==
                 (if e.data.Some? && e.bn !in later then ws + [Write(e.tid, e.bn, e.data.value)] else ws)
            && Pending(es) == if e.data.Some? then Pending(front)[e.bn := e.data.value] else Pending(front) - {e.bn}
  {
    var ws := Keep(es[..|es| - 1], later + {es[|es| - 1].bn});
    assert ws + [] == ws;
  }

  /** A destination that is in the later ones, or that is cancelled, makes no difference to what is pending. */
  lemma DropPending(p: Disk, later: set<nat>, bn: nat, data: Option<Block>)
    requires data.Some? ==> bn in later
    ensures (if data.Some? then p[bn := data.value] else p - {bn}) - later == p - (later + {bn})
  {
  }

  /** Writing the kept events has the effect of the pending map outside `later`, with no destination written twice. */
  lemma {:induction false} KeepIsPending(es: seq<Event>, later: set<nat>, disk: Disk)
    ensures DistinctTargets(Keep(es, later))
    ensures forall w :: w in Keep(es, later) ==> w.bn !in later
    ensures ApplyWrites(disk, Keep(es, later)) == disk + (Pending(es) - later)
  {
    if es == [] {
      assert disk + (Pending(es) - later) == disk;
    } else {
      hide Keep, Pending, ApplyWrites, DistinctTargets;
      var e, front := es[|es| - 1], es[..|es| - 1];
      KeepIsPending(front, later + {e.bn}, disk);
      LastEvent(es, later);
      var ws := Keep(front, later + {e.bn});
      if e.data.Some? && e.bn !in later {
        var w := Write(e.tid, e.bn, e.data.value);
        DistinctOne(ws, w);
        ApplyOne(disk, ws, w);
        AddPending(disk, Pending(front), later, e.bn, e.data.value);
      } else {
        DropPending(Pending(front), later, e.bn, e.data);
      }
    }
  }

  /** The writes that are the last for their destination, in log order. */
  function LastWrites(S: Journal, metas: seq<nat>, lo: u16, hi: u16): seq<Write>
    requires MetasOk(S, metas)
  {
    Keep(Events(S, metas, |metas|, 0, lo, hi), {})
  }

  /** Journal replay is an optimised form of plain replay. */
  lemma ReplayRefines(S: Journal, S': Journal, metas: seq<nat>, lo: u16, hi: u16, disk: Disk)
    requires MetasOk(S, metas) && Marked(S, S', metas, lo, hi) && DataApart(S, metas)
    ensures MetasOk(S', metas)
    ensures Writes(S', metas, |metas|, 0, lo, hi) == LastWrites(S, metas, lo, hi)
    ensures DistinctTargets(Writes(S', metas, |metas|, 0, lo, hi))
    ensures ApplyWrites(disk, Writes(S', metas, |metas|, 0, lo, hi)) == NaiveReplay(S, metas, lo, hi, disk)
  {
    MarkedMetas(S, S', metas, lo, hi);
    WritesAreKept(S, S', metas, |metas|, 0, lo, hi);
    KeepIsPending(Events(S, metas, |metas|, 0, lo, hi), {}, disk);
  }
}
