/** Analysis followed by replay, from the journal as loaded to the disk. */
module JournalRuns {
  import opened JournalFormat
  import opened JournalReplay
  import opened JournalAnalysis
  import opened JournalChecks
  import opened JournalReplayer

  lemma AcceptedDistinct(env: Env, J0: Journal, J: Journal, metas: seq<nat>)
    requires Done(env, J0, J, metas, |J0|, true) && MetasOk(J, metas)
    ensures DataDistinct(J, metas)
  {
    forall i: nat, r: nat, j: nat, s: nat |
      i < |metas| && r < J[metas[i]].nref && !J[metas[i]].ref[r].Nonjournaled() &&
      j < |metas| && s < J[metas[j]].nref && !J[metas[j]].ref[s].Nonjournaled() &&
      DataIndex(J, metas[i], r) == DataIndex(J, metas[j], s)
      ensures i == j && r == s
    {
      assert metas[i] in metas && metas[j] in metas && Accepted(env, J, metas[i], true) &&
          Accepted(env, J, metas[j], true);
      hide Done, Accepted;
      DataDisjoint(env, J0, J, metas, i, r, j, s);
    }
  }

  /** Flagging overwritten refs moves no data block. */
  lemma MarkedIndex(S: Journal, S': Journal, metas: seq<nat>, lo: u16, hi: u16, i: nat, r: nat)
    requires MetasOk(S, metas) && MetasOk(S', metas) && Marked(S, S', metas, lo, hi)
    requires i < |metas| && r < S'[metas[i]].nref
    ensures r < S[metas[i]].nref && S'[metas[i]].ref[r].Nonjournaled() == S[metas[i]].ref[r].Nonjournaled()
    ensures DataIndex(S', metas[i], r) == DataIndex(S, metas[i], r)
  {
    assert MarkedBlock(S, S'[metas[i]], metas, i, lo, hi);
    OverwriteFlag(S[metas[i]].ref[r]);
    MarkedDelta(S[metas[i]], S'[metas[i]], r);
  }

  lemma MarkedData(S: Journal, S': Journal, metas: seq<nat>, lo: u16, hi: u16)
    requires MetasOk(S, metas) && MetasOk(S', metas) && Marked(S, S', metas, lo, hi)
    requires DataApart(S, metas) && DataDistinct(S, metas)
    ensures DataApart(S', metas) && DataDistinct(S', metas)
  {
    forall i: nat, r: nat | i < |metas| && r < S'[metas[i]].nref && !S'[metas[i]].ref[r].Nonjournaled()
      ensures DataIndex(S', metas[i], r) !in metas
    {
      MarkedIndex(S, S', metas, lo, hi, i, r);
    }
    forall i: nat, r: nat, j: nat, s: nat |
      i < |metas| && r < S'[metas[i]].nref && !S'[metas[i]].ref[r].Nonjournaled() &&
      j < |metas| && s < S'[metas[j]].nref && !S'[metas[j]].ref[s].Nonjournaled() &&
      DataIndex(S', metas[i], r) == DataIndex(S', metas[j], s)
      ensures i == j && r == s
    {
      MarkedIndex(S, S', metas, lo, hi, i, r);
      MarkedIndex(S, S', metas, lo, hi, j, s);
    }
  }

  lemma MarkedBounds(S: Journal, S': Journal, metas: seq<nat>, lo: u16, hi: u16)
    requires MetasOk(S, metas) && MetasOk(S', metas) && Marked(S, S', metas, lo, hi) && metas != []
    ensures Lo(S', metas) == Lo(S, metas) && Hi(S', metas) == Hi(S, metas)
  {
    assert MarkedBlock(S, S'[metas[|metas| - 1]], metas, |metas| - 1, lo, hi);
  }

  /** Analyze a journal and, if it is accepted, replay it. The writes reach each destination once and leave on the
      disk what applying every ref in order would leave. */
  method Replay(env: Env, j: array<Block>, ghost disk: Disk)
    returns (accepted: bool, writes: seq<Write>, ghost J: Journal, ghost metas: seq<nat>)
    requires Shape(j[..])
    modifies j
    ensures Done(env, old(j[..]), J, metas, |J|, AllReach(env, old(j[..]), j.Length))
    ensures Follows(env, old(j[..]), J, metas, |J|)
    ensures InBounds(J, metas) && MetasOk(J, metas)
    ensures accepted <==> AllReach(env, old(j[..]), j.Length) && Acceptable(J, metas)
    ensures writes == if accepted then LastWrites(J, metas, Lo(J, metas), Hi(J, metas)) else []
    ensures accepted ==> DistinctTargets(writes)
    ensures accepted ==> ApplyWrites(disk, writes) == NaiveReplay(J, metas, Lo(J, metas), Hi(J, metas), disk)
  {
    var jr := new JournalReplayer(env, j);
    ghost var J0 := j[..];
    hide Shape, Done, Follows, LastWrites, Marked, MetasOk, DataApart, DataDistinct, Acceptable, AllReach;
    hide DistinctTargets;
    accepted, J := jr.Analyze();
    metas := jr.Metas();
    writes := [];
    if accepted {
      ghost var S', lo, hi := j[..], Lo(J, metas), Hi(J, metas);
      Prepared(env, J0, J, S', metas, lo, hi);
      ReplayRefines(J, S', metas, lo, hi, disk);
      jr.Run();
      writes := jr.writes;
      assert writes == Writes(S', metas, |metas|, 0, lo, hi);
    }
  }

  lemma Prepared(env: Env, J0: Journal, J: Journal, S': Journal, metas: seq<nat>, lo: u16, hi: u16)
    requires Done(env, J0, J, metas, |J|, true) && MetasOk(J, metas) && Marked(J, S', metas, lo, hi) && metas != []
    ensures DataApart(J, metas)
    ensures MetasOk(S', metas) && DataApart(S', metas) && DataDistinct(S', metas)
    ensures Lo(S', metas) == Lo(J, metas) && Hi(S', metas) == Hi(J, metas)
  {
    DataNotMeta(env, J0, J, metas, |J|, true);
    AcceptedDistinct(env, J0, J, metas);
    MarkedMetas(J, S', metas, lo, hi);
    MarkedData(J, S', metas, lo, hi);
    MarkedBounds(J, S', metas, lo, hi);
  }

  /** Replay may be cut short and started over: writing any part of the blocks first changes nothing in the end. */
  lemma {:induction false} ReplayAfterPartialReplay(disk: Disk, ws: seq<Write>, k: nat)
    requires k <= |ws|
    ensures ApplyWrites(ApplyWrites(disk, ws[..k]), ws) == ApplyWrites(disk, ws)
  {
    OnlyTargets(disk, ws[..k]);
    forall w | w in ws[..k] ensures exists v :: v in ws && v.bn == w.bn { assert w in ws; }
    Absorbed(disk, ApplyWrites(disk, ws[..k]), ws);
  }

  lemma {:induction false} OnlyTargets(disk: Disk, ws: seq<Write>)
    ensures forall bn :: (forall w :: w in ws ==> w.bn != bn) ==>
              (bn in ApplyWrites(disk, ws) <==> bn in disk) && (bn in disk ==> ApplyWrites(disk, ws)[bn] == disk[bn])
    ensures forall bn :: bn in ApplyWrites(disk, ws) ==> bn in disk || exists w :: w in ws && w.bn == bn
  {
    if ws != [] {
      var front, last := ws[..|ws| - 1], ws[|ws| - 1];
      OnlyTargets(disk, front);
      assert last in ws && forall w :: w in front ==> w in ws;
    }
  }

  /** Disks that agree outside the targets of `ws` agree once `ws` is written. */
  lemma {:induction false} Absorbed(a: Disk, b: Disk, ws: seq<Write>)
    requires forall bn :: (forall w :: w in ws ==> w.bn != bn) ==>
             (bn in a <==> bn in b) && (bn in a ==> a[bn] == b[bn])
    ensures ApplyWrites(a, ws) == ApplyWrites(b, ws)
  {
    if ws != [] {
      var front, last := ws[..|ws| - 1], ws[|ws| - 1];
      assert ws == front + [last];
      var a', b' := a - {last.bn}, b - {last.bn};
      forall bn | forall w :: w in front ==>
          w.bn != bn ensures (bn in a' <==> bn in b') && (bn in a' ==> a'[bn] == b'[bn]) {
      }
      Absorbed(a', b', front);
      LastTarget(a, front, last);
      LastTarget(b, front, last);
    }
  }

  /** What was at the target of the last write does not matter. */
  lemma LastTarget(a: Disk, front: seq<Write>, last: Write)
    ensures ApplyWrites(a, front + [last]) == (ApplyWrites(a - {last.bn}, front) - {last.bn})[last.bn := last.data]
  {
    assert (front + [last])[..|front|] == front;
    Dropped(a, last.bn, front);
    assert ApplyWrites(a, front)[last.bn := last.data] == (ApplyWrites(a, front) - {last.bn})[last.bn := last.data];
  }

  lemma {:induction false} Dropped(a: Disk, bn: nat, ws: seq<Write>)
    ensures ApplyWrites(a, ws) - {bn} == ApplyWrites(a - {bn}, ws) - {bn}
  {
    if ws != [] {
      var front, last := ws[..|ws| - 1], ws[|ws| - 1];
      Dropped(a, bn, front);
      var x, y := ApplyWrites(a, front), ApplyWrites(a - {bn}, front);
      assert x[last.bn := last.data] - {bn} == (if last.bn == bn then x - {bn} else (x - {bn})[last.bn := last.data]);
      assert y[last.bn := last.data] - {bn} == (if last.bn == bn then y - {bn} else (y - {bn})[last.bn := last.data]);
    }
  }
}
