/** What analysis and replay come to, field by field. */
module JournalMeaning {
  import opened JournalFormat
  import opened JournalReplay
  import opened JournalAnalysis
  import opened JournalChecks
  import opened JournalLoaded
  import opened JournalRecovery

  // ----- Metablocks -----

  /** The refs before `r` that have a data block in the journal. */
  function JournaledBefore(b: Block, r: nat): set<nat>
    requires r <= |b.ref|
  {
    set k: nat | k < r && b.ref[k].bflags & 0x200 == 0
  }

  /** Data blocks follow their metablock, one for each ref that has one. */
  lemma {:induction false} DeltaCounts(b: Block, r: nat)
    requires r <= |b.ref|
    ensures Delta(b, r) == 1 + |JournaledBefore(b, r)|
  {
    if r > 0 {
      DeltaCounts(b, r - 1);
      JournaledStep(b, r - 1);
      assert r - 1 !in JournaledBefore(b, r - 1);
      hide JournaledBefore;
    }
  }

  lemma JournaledStep(b: Block, r: nat)
    requires r < |b.ref|
    ensures var s := JournaledBefore(b, r);
            JournaledBefore(b, r + 1) == if b.ref[r].Nonjournaled() then s else s + {r}
  {
  }

  function DataPlace(J: Journal, x: nat, r: nat): nat
    requires x < |J| && r <= |J[x].ref|
  {
    (x + 1 + |JournaledBefore(J[x], r)|) % |J|
  }

  lemma DataIsThere(J: Journal, x: nat, r: nat)
    requires x < |J| && r <= |J[x].ref|
    ensures DataIndex(J, x, r) == DataPlace(J, x, r) < |J|
  {
    DeltaCounts(J[x], r);
  }

  /** The block claims to be a metablock, and its checksum does not say otherwise. */
  predicate LooksMeta(env: Env, b: Block) {
    b.magic == 0xFBBF_BB00_9EEB_CEED && (b.checksum == 0x8260_0A5F || b.checksum == env.tail(b))
  }

  /** The data block of ref `r` does not look like a metablock and has the checksum the ref records, if it records
      one. */
  predicate DataSound(env: Env, J: Journal, x: nat, r: nat)
    requires x < |J| && r < |J[x].ref| && DataPlace(J, x, r) < |J|
  {
    J[x].ref[r].bflags & 0x200 == 0 ==>
      var d := J[DataPlace(J, x, r)];
      !LooksMeta(env, d) && (J[x].ref[r].bchecksum == 0x8260_0A5F || J[x].ref[r].bchecksum == env.whole(d))
  }

  /** A metablock that is marked as one and not as bad, does not claim more refs than fit, and whose data is sound. */
  ghost predicate Sound(env: Env, J: Journal, x: nat)
    requires x < |J|
  {
    && LooksMeta(env, J[x]) && J[x].flags & 0x01 != 0 && J[x].flags & 0x02 == 0 && J[x].flags & 0x04 == 0
    && J[x].nref <= 339 <= |J[x].ref|
    && forall r: nat :: r < J[x].nref ==> DataPlace(J, x, r) < |J| && DataSound(env, J, x, r)
  }

  lemma BadFlags(f: bv16)
    ensures f & (0x02 | 0x04) == 0 <==> f & 0x02 == 0 && f & 0x04 == 0
  {
  }

  lemma SoundHeader(b: Block)
    ensures HeaderOk(b) <==> b.flags & 0x01 != 0 && b.flags & 0x02 == 0 && b.flags & 0x04 == 0 && b.nref <= 339
  {
    BadFlags(b.flags);
  }

  lemma SoundIsGood(env: Env, J: Journal, x: nat)
    requires x < |J| && |J[x].ref| == REF_SIZE
    ensures Sound(env, J, x) <==> GoodMetablock(env, J, x)
  {
    SoundHeader(J[x]);
    forall r: nat | r < J[x].nref && r < |J[x].ref|
      ensures DataPlace(J, x, r) < |J| && (RefGood(env, J, x, r) <==> DataSound(env, J, x, r))
    {
      DataIsThere(J, x, r);
    }
    hide DataIndex, Delta;
  }

  /** How a metablock starts, commits or completes a transaction: by a flag, or by a boundary less than half-way around
      past its id. */
  lemma TransactionFlags(b: Block, t: u16)
    ensures b.Has(JF_START) <==> b.flags & 0x10 != 0
    ensures b.Commits(t) <==> b.flags & 0x20 != 0 || 0 < (b.commit_boundary - t) % 0x1_0000 < 0x8000
    ensures b.Completes(t) <==> b.flags & 0x40 != 0 || 0 < (b.complete_boundary - t) % 0x1_0000 < 0x8000
  {
  }

  // ----- The analysis -----

  /** The first `x` blocks as in `J`, the others as in `J0`. */
  function PartDone(J: Journal, J0: Journal, x: nat): (r: Journal)
    requires x <= |J| == |J0|
    ensures |r| == |J|
  {
    J[..x] + J0[x..]
  }

  lemma {:induction false} AnalyzedBlocks(env: Env, J0: Journal, n: nat, m: nat)
    requires n <= m <= |J0|
    ensures Analyzed(env, J0, n) == PartDone(Analyzed(env, J0, m), J0, n)
    decreases m
  {
    hide GoodMetablock, Potential;
    if n < m {
      AnalyzedBlocks(env, J0, n, m - 1);
    } else if n > 0 {
      AnalyzedBlocks(env, J0, n - 1, n - 1);
    }
  }

  /** What the analysis does, for each block `x` of the journal: it is accepted exactly if it is sound when its turn
      comes, with the blocks before it as the analysis leaves them and the others as loaded, and then it is sound at
      the end; it is flagged exactly if it looks like a metablock and is not accepted; nothing else changes. A
      metablock that is sound in the journal as loaded is accepted. */
  lemma AnalysisMeans(env: Env, J0: Journal, J: Journal, metas: seq<nat>, ok: bool, x: nat)
    requires Shape(J0) && Follows(env, J0, J, metas, |J0|) && Done(env, J0, J, metas, |J0|, ok) && x < |J0|
    ensures x in metas <==> Sound(env, PartDone(J, J0, x), x)
    ensures x in metas ==> Sound(env, J, x)
    ensures Sound(env, J0, x) ==> x in metas
    ensures J[x] == if LooksMeta(env, J0[x]) && x !in metas then J0[x].(flags := J0[x].flags | 0x02) else J0[x]
  {
    AnalyzedBlocks(env, J0, x, |J0|);
    assert BlockDone(env, J0, J, metas, |J0|, x);
    assert PartDone(J, J0, x)[x] == J0[x];
    SoundIsGood(env, PartDone(J, J0, x), x);
    SoundIsGood(env, J0, x);
    if x in metas {
      assert Accepted(env, J, x, ok);
      SoundIsGood(env, J, x);
    }
    hide Sound, RefGood;
  }

  function RefAt(env: Env, b: Block, x: nat, r: nat): Ref { if r < |b.ref| then b.ref[r] else env.past(x, r) }

  /** The refs before `r` that claim a data block, also those read behind the end of block `x`. */
  function ClaimedBefore(env: Env, b: Block, x: nat, r: nat): set<nat> {
    set k: nat | k < r && RefAt(env, b, x, k).bflags & 0x200 == 0
  }

  lemma {:induction false} PastCounts(env: Env, b: Block, x: nat, r: nat)
    ensures PastDelta(env, b, x, r) == 1 + |ClaimedBefore(env, b, x, r)|
  {
    if r <= |b.ref| {
      DeltaCounts(b, r);
      assert ClaimedBefore(env, b, x, r) == JournaledBefore(b, r);
    } else {
      PastCounts(env, b, x, r - 1);
      ClaimedStep(env, b, x, r - 1);
      assert r - 1 !in ClaimedBefore(env, b, x, r - 1);
      hide ClaimedBefore;
    }
  }

  lemma ClaimedStep(env: Env, b: Block, x: nat, r: nat)
    requires r >= |b.ref|
    ensures var s := ClaimedBefore(env, b, x, r);
            ClaimedBefore(env, b, x, r + 1) == if env.past(x, r).Nonjournaled() then s else s + {r}
  {
  }

  predicate Claims(env: Env, b: Block, x: nat, r: nat) { r < b.nref && RefAt(env, b, x, r).bflags & 0x200 == 0 }

  /** Nothing that looks like a metablock claims a data block as far on as the journal is long. */
  ghost predicate NothingAround(env: Env, J: Journal) {
    forall x: nat, r: nat :: x < |J| && LooksMeta(env, J[x]) && Claims(env, J[x], x, r) ==>
      1 + |ClaimedBefore(env, J[x], x, r)| < |J|
  }

  /** That is what the analysis demands beyond the list of metablocks. */
  lemma ReachMeans(env: Env, J: Journal)
    requires Shape(J)
    ensures AllReach(env, J, |J|) <==> NothingAround(env, J)
  {
    forall x: nat, r: nat | x < |J|
      ensures PastDelta(env, J[x], x, r) == 1 + |ClaimedBefore(env, J[x], x, r)|
      ensures r <= |J[x].ref| ==> PastDelta(env, J[x], x, r) == Delta(J[x], r)
    {
      PastCounts(env, J[x], x, r);
    }
    hide PastDelta, Delta, ClaimedBefore;
    if AllReach(env, J, |J|) {
      forall x: nat, r: nat | x < |J| && LooksMeta(env, J[x]) && Claims(env, J[x], x, r)
        ensures 1 + |ClaimedBefore(env, J[x], x, r)| < |J|
      {
        assert BlockReaches(env, J, x);
      }
    }
    if NothingAround(env, J) {
      forall x: nat | x < |J| ensures BlockReaches(env, J, x) {
        assert forall r: nat :: r < J[x].nref && RefAt(env, J[x], x, r).bflags & 0x200 == 0 ==> Claims(env, J[x], x, r);
      }
    }
  }

  // ----- Replay -----

  /** Ref `r` of metablock number `i` takes part: its transaction is in the region, and it was not flagged as
      overwritten. */
  predicate TakesPart(S: Journal, metas: seq<nat>, i: nat, r: nat, lo: u16, hi: u16) {
    && i < |metas| && metas[i] < |S| && r < S[metas[i]].nref && r < |S[metas[i]].ref|
    && TidDiff(S[metas[i]].tid, lo) >= 0 && TidDiff(S[metas[i]].tid, hi) < 0
    && S[metas[i]].ref[r].bflags & 0x400 == 0
  }

  predicate Sooner(i: nat, r: nat, j: nat, s: nat) { i < j || (i == j && r < s) }

  /** It is the last to take part for block `bn`. */
  ghost predicate LastFor(S: Journal, metas: seq<nat>, i: nat, r: nat, lo: u16, hi: u16, bn: nat) {
    && TakesPart(S, metas, i, r, lo, hi) && S[metas[i]].ref[r].bn == bn
    && forall j: nat, s: nat :: Sooner(i, r, j, s) && TakesPart(S, metas, j, s, lo, hi) ==> S[metas[j]].ref[s].bn != bn
  }

  /** It has a data block in the journal. */
  predicate HasData(S: Journal, metas: seq<nat>, i: nat, r: nat) {
    && i < |metas| && metas[i] < |S| && r < |S[metas[i]].ref| && S[metas[i]].ref[r].bflags & 0x200 == 0
    && DataPlace(S, metas[i], r) < |S|
  }

  /** Block `d` is the data block `y` of a ref, with its magic number put back if the ref says so. */
  predicate Delivered(d: Block, y: Block, ref: Ref) {
    && d.magic == (if ref.bflags & 0x100 != 0 then 0xFBBF_BB00_9EEB_CEED else y.magic)
    && d.checksum == y.checksum && d.padding == y.padding && d.seqno == y.seqno && d.tid == y.tid
    && d.commit_boundary == y.commit_boundary && d.complete_boundary == y.complete_boundary && d.flags == y.flags
    && d.nref == y.nref && d.ref == y.ref
  }

  lemma RestoredDelivered(y: Block, ref: Ref)
    ensures forall d :: d == Restored(y, ref) <==> Delivered(d, y, ref)
  {
  }

  /** The later destinations, place by place. */
  lemma {:induction false} LaterIff(S: Journal, metas: seq<nat>, mi: nat, r: nat, lo: u16, hi: u16, bn: nat)
    requires MetasOk(S, metas) && At(S, metas, mi, r)
    ensures bn in Later(S, metas, mi, r, lo, hi) <==>
              exists j: nat, s: nat :: !Sooner(j, s, mi, r) && TakesPart(S, metas, j, s, lo, hi) &&
                S[metas[j]].ref[s].bn == bn
    decreases |metas| - mi, (if mi < |metas| then S[metas[mi]].nref - r else 0)
  {
    if mi < |metas| {
      if r < S[metas[mi]].nref {
        LaterIff(S, metas, mi, r + 1, lo, hi, bn);
        assert TakesPart(S, metas, mi, r, lo, hi) <==> Counts(S, metas[mi], r, lo, hi);
        assert !Sooner(mi, r, mi, r);
      } else {
        LaterIff(S, metas, mi + 1, 0, lo, hi, bn);
      }
    }
  }

  lemma FinalIff(S: Journal, metas: seq<nat>, i: nat, r: nat, lo: u16, hi: u16)
    requires MetasOk(S, metas) && i < |metas| && r < S[metas[i]].nref
    ensures Final(S, metas, i, r, lo, hi) <==>
              LastFor(S, metas, i, r, lo, hi, S[metas[i]].ref[r].bn) && S[metas[i]].ref[r].bflags & 0x200 == 0
  {
    LaterIff(S, metas, i, r + 1, lo, hi, S[metas[i]].ref[r].bn);
    hide Later;
  }

  /** It is the last to take part for block `bn` of those before place `k` of metablock `mi`, and is journaled. */
  ghost predicate LastBefore(S: Journal, metas: seq<nat>, i: nat, r: nat, mi: nat, k: nat, lo: u16, hi: u16, bn: nat) {
    && Sooner(i, r, mi, k) && TakesPart(S, metas, i, r, lo, hi) && S[metas[i]].ref[r].bn == bn
    && S[metas[i]].ref[r].bflags & 0x200 == 0
    && forall j: nat, s: nat :: Sooner(i, r, j, s) && Sooner(j, s, mi, k) && TakesPart(S, metas, j, s, lo, hi) ==>
         S[metas[j]].ref[s].bn != bn
  }

  lemma LastOn(S: Journal, metas: seq<nat>, i: nat, r: nat, mi: nat, k: nat, lo: u16, hi: u16, bn: nat)
    requires LastBefore(S, metas, i, r, mi, k, lo, hi, bn)
    requires TakesPart(S, metas, mi, k, lo, hi) ==> S[metas[mi]].ref[k].bn != bn
    ensures LastBefore(S, metas, i, r, mi, k + 1, lo, hi, bn)
  {
    assert forall j: nat, s: nat :: Sooner(j, s, mi, k + 1) ==> Sooner(j, s, mi, k) || (j == mi && s == k);
  }

  lemma LastSoFar(S: Journal, metas: seq<nat>, mi: nat, k: nat, lo: u16, hi: u16)
    requires TakesPart(S, metas, mi, k, lo, hi) && S[metas[mi]].ref[k].bflags & 0x200 == 0
    ensures LastBefore(S, metas, mi, k, mi, k + 1, lo, hi, S[metas[mi]].ref[k].bn)
  {
  }

  lemma LastOfMeta(S: Journal, metas: seq<nat>, i: nat, r: nat, mi: nat, lo: u16, hi: u16, bn: nat)
    requires MetasOk(S, metas) && mi < |metas| && LastBefore(S, metas, i, r, mi, S[metas[mi]].nref, lo, hi, bn)
    ensures LastBefore(S, metas, i, r, mi + 1, 0, lo, hi, bn)
  {
  }

  /** What one ref may leave pending. */
  lemma EventOf(S: Journal, metas: seq<nat>, mi: nat, k: nat, lo: u16, hi: u16)
    requires MetasOk(S, metas) && mi < |metas| && k < S[metas[mi]].nref
    ensures var e, ref := RefEvents(S, metas[mi], k, lo, hi), S[metas[mi]].ref[k];
            && |e| <= 1 && (e != [] <==> TakesPart(S, metas, mi, k, lo, hi))
            && (e != [] ==> e[0].bn == ref.bn && (e[0].data.Some? <==> ref.bflags & 0x200 == 0))
  {
    assert TakesPart(S, metas, mi, k, lo, hi) <==> Counts(S, metas[mi], k, lo, hi);
  }

  /** What is pending for a block was set by a ref that no later one, so far, repeats. */
  lemma {:induction false} PendingComes(S: Journal, metas: seq<nat>, mi: nat, k: nat, lo: u16, hi: u16, bn: nat)
    returns (i: nat, r: nat)
    requires MetasOk(S, metas) && At(S, metas, mi, k) && bn in Pending(Events(S, metas, mi, k, lo, hi))
    ensures LastBefore(S, metas, i, r, mi, k, lo, hi, bn)
    decreases mi, k
  {
    if k > 0 {
      var es, e := Events(S, metas, mi, k - 1, lo, hi), RefEvents(S, metas[mi], k - 1, lo, hi);
      assert Events(S, metas, mi, k, lo, hi) == es + e;
      hide Events, RefEvents, Pending, LastBefore, TakesPart;
      EventOf(S, metas, mi, k - 1, lo, hi);
      if e != [] && e[0].bn == bn {
        assert e == [e[0]];
        PendingHere(es, e[0]);
        LastSoFar(S, metas, mi, k - 1, lo, hi);
        i, r := mi, k - 1;
      } else {
        PendingOther(es, e, bn);
        i, r := PendingComes(S, metas, mi, k - 1, lo, hi, bn);
        LastOn(S, metas, i, r, mi, k - 1, lo, hi, bn);
      }
    } else if mi > 0 {
      i, r := PendingComes(S, metas, mi - 1, S[metas[mi - 1]].nref, lo, hi, bn);
      LastOfMeta(S, metas, i, r, mi - 1, lo, hi, bn);
    }
  }

  lemma PendingHere(es: seq<Event>, e: Event)
    ensures e.bn in Pending(es + [e]) <==> e.data.Some?
  {
    assert (es + [e])[..|es|] == es;
  }

  /** The disk after an accepted journal was replayed, block by block: if the last ref to take part for a block has data
      in the journal, the block holds that data, field by field, with the magic number put back if it was escaped; any
      other block is as before. */
  lemma ReplayMeans(env: Env, J0: Journal, J: Journal, metas: seq<nat>, ws: seq<Write>, disk: Disk, bn: nat)
    requires Outcome(env, J0, J, metas, true, ws)
    ensures var d, lo, hi := ApplyWrites(disk, ws), Lo(J, metas), Hi(J, metas);
            && (forall i: nat, r: nat :: LastFor(J, metas, i, r, lo, hi, bn) && HasData(J, metas, i, r) ==>
                  bn in d && Delivered(d[bn], J[DataPlace(J, metas[i], r)], J[metas[i]].ref[r]))
            && ((forall i: nat, r: nat :: LastFor(J, metas, i, r, lo, hi, bn) ==> !HasData(J, metas, i, r)) ==>
                  (bn in d <==> bn in disk) && (bn in d ==> d[bn] == disk[bn]))
  {
    var lo, hi := Lo(J, metas), Hi(J, metas);
    var es := Events(J, metas, |metas|, 0, lo, hi);
    hide Follows, AllReach, Acceptable, Events, Pending, Keep;
    KeepIsPending(es, {}, disk);
    assert Pending(es) - {} == Pending(es);
    forall i: nat, r: nat | LastFor(J, metas, i, r, lo, hi, bn) && HasData(J, metas, i, r)
      ensures bn in Pending(es) && Delivered(Pending(es)[bn], J[DataPlace(J, metas[i], r)], J[metas[i]].ref[r])
    {
      FinalIff(J, metas, i, r, lo, hi);
      FinalIsPending(J, metas, i, r, |metas|, 0, lo, hi);
      DataIsThere(J, metas[i], r);
      RestoredDelivered(J[DataIndex(J, metas[i], r)], J[metas[i]].ref[r]);
    }
    if bn in Pending(es) {
      var i, r := PendingComes(J, metas, |metas|, 0, lo, hi, bn);
      LastIsFinal(J, metas, i, r, lo, hi, bn);
    }
  }

  lemma LastIsFinal(J: Journal, metas: seq<nat>, i: nat, r: nat, lo: u16, hi: u16, bn: nat)
    requires LastBefore(J, metas, i, r, |metas|, 0, lo, hi, bn)
    ensures LastFor(J, metas, i, r, lo, hi, bn) && HasData(J, metas, i, r)
  {
    DataIsThere(J, metas[i], r);
  }

  /** Write `w` hands over the data of a ref that is the last for its destination, with its transaction. */
  ghost predicate WriteOf(S: Journal, metas: seq<nat>, i: nat, r: nat, lo: u16, hi: u16, w: Write) {
    && LastFor(S, metas, i, r, lo, hi, w.bn) && HasData(S, metas, i, r) && w.tid == S[metas[i]].tid
    && Delivered(w.data, S[DataPlace(S, metas[i], r)], S[metas[i]].ref[r])
  }

  lemma FinalWriteIs(S: Journal, metas: seq<nat>, i: nat, r: nat, lo: u16, hi: u16, w: Write)
    requires MetasOk(S, metas) && i < |metas| && r < S[metas[i]].nref
    ensures w in FinalWrites(S, metas, i, r, lo, hi) <==> WriteOf(S, metas, i, r, lo, hi, w)
  {
    FinalIff(S, metas, i, r, lo, hi);
    DataIsThere(S, metas[i], r);
    RestoredDelivered(S[DataIndex(S, metas[i], r)], S[metas[i]].ref[r]);
    hide Final, LastFor, DataIndex;
  }

  lemma {:induction false} KeptIff(S: Journal, metas: seq<nat>, mi: nat, k: nat, lo: u16, hi: u16, w: Write)
    requires MetasOk(S, metas) && At(S, metas, mi, k)
    ensures w in Keep(Events(S, metas, mi, k, lo, hi), Later(S, metas, mi, k, lo, hi)) <==>
              exists i: nat, r: nat :: Sooner(i, r, mi, k) && WriteOf(S, metas, i, r, lo, hi, w)
    decreases mi, k
  {
    hide Keep, Later, WriteOf, FinalWrites;
    if k > 0 {
      KeptIff(S, metas, mi, k - 1, lo, hi, w);
      KeepStep(S, metas, mi, k - 1, lo, hi);
      FinalWriteIs(S, metas, mi, k - 1, lo, hi, w);
      hide Events;
      assert forall i: nat, r: nat :: Sooner(i, r, mi, k) <==> Sooner(i, r, mi, k - 1) || (i == mi && r == k - 1);
    } else if mi > 0 {
      var n := S[metas[mi - 1]].nref;
      KeptIff(S, metas, mi - 1, n, lo, hi, w);
      LaterTurn(S, metas, mi - 1, lo, hi);
      forall i: nat, r: nat | WriteOf(S, metas, i, r, lo, hi, w)
        ensures Sooner(i, r, mi, k) <==> Sooner(i, r, mi - 1, n)
      {
        WriteInside(S, metas, i, r, lo, hi, w);
      }
    } else {
      assert Events(S, metas, 0, 0, lo, hi) == [];
      assert forall i: nat, r: nat :: !Sooner(i, r, 0, 0);
      NothingKept(Later(S, metas, 0, 0, lo, hi), w);
    }
  }

  lemma NothingKept(later: set<nat>, w: Write)
    ensures w !in Keep([], later)
  {
  }

  lemma WriteInside(S: Journal, metas: seq<nat>, i: nat, r: nat, lo: u16, hi: u16, w: Write)
    requires WriteOf(S, metas, i, r, lo, hi, w)
    ensures i < |metas| && metas[i] < |S| && r < S[metas[i]].nref
  {
  }

  /** The writes are those of the refs that are the last for their destinations and have data, no others and each
      destination once. */
  lemma WritesMean(env: Env, J0: Journal, J: Journal, metas: seq<nat>, ws: seq<Write>, w: Write)
    requires Outcome(env, J0, J, metas, true, ws)
    ensures w in ws <==> exists i: nat, r: nat :: WriteOf(J, metas, i, r, Lo(J, metas), Hi(J, metas), w)
    ensures DistinctTargets(ws)
  {
    var lo, hi := Lo(J, metas), Hi(J, metas);
    KeepIsPending(Events(J, metas, |metas|, 0, lo, hi), {}, map[]);
    KeptIff(J, metas, |metas|, 0, lo, hi, w);
    assert Later(J, metas, |metas|, 0, lo, hi) == {};
    hide Follows, AllReach, Acceptable, Events, Keep, WriteOf;
    forall i: nat, r: nat | WriteOf(J, metas, i, r, lo, hi, w) ensures Sooner(i, r, |metas|, 0) {
      WriteInside(J, metas, i, r, lo, hi, w);
    }
  }

  // ----- Escaping -----

  /** Journaling: a block that begins with the magic number is stored with another one, and its ref says so. */
  predicate Journaled(b: Block, y: Block, ref: Ref) {
    if b.magic == 0xFBBF_BB00_9EEB_CEED
    then y == b.(magic := y.magic) && y.magic != 0xFBBF_BB00_9EEB_CEED && ref.bflags & 0x100 != 0
    else y == b && ref.bflags & 0x100 == 0
  }

  /** What was journaled is what is on the disk after replay, also if it begins like a metablock; and as stored it
      does not look like one. */
  lemma EscapeRoundTrip(env: Env, J0: Journal, J: Journal, metas: seq<nat>, ws: seq<Write>, disk: Disk, i: nat, r: nat,
      b: Block)
    requires Outcome(env, J0, J, metas, true, ws) && HasData(J, metas, i, r)
    requires LastFor(J, metas, i, r, Lo(J, metas), Hi(J, metas), J[metas[i]].ref[r].bn)
    requires Journaled(b, J[DataPlace(J, metas[i], r)], J[metas[i]].ref[r])
    ensures var bn := J[metas[i]].ref[r].bn; bn in ApplyWrites(disk, ws) && ApplyWrites(disk, ws)[bn] == b
    ensures !LooksMeta(env, J[DataPlace(J, metas[i], r)])
  {
    ReplayMeans(env, J0, J, metas, ws, disk, J[metas[i]].ref[r].bn);
    hide Outcome, LastFor, Follows, AllReach, Acceptable;
  }
}
