/** When replay does what the journal said before analysis flagged blocks in it. */
module JournalLoaded {
  import opened JournalFormat
  import opened JournalReplay
  import opened JournalAnalysis
  import opened JournalChecks

  // ----- Replays of two journals with the same metablocks -----

  ghost predicate SameMetas(S: Journal, T: Journal, metas: seq<nat>) {
    && MetasOk(S, metas) && MetasOk(T, metas) && |S| == |T|
    && forall i :: 0 <= i < |metas| ==> S[metas[i]] == T[metas[i]]
  }

  /** What the final refs write is the same. */
  ghost predicate SameFinalData(S: Journal, T: Journal, metas: seq<nat>, lo: u16, hi: u16)
    requires SameMetas(S, T, metas)
  {
    forall i: nat, r: nat :: i < |metas| && r < S[metas[i]].nref && Final(S, metas, i, r, lo, hi) ==>
      var ref, y := S[metas[i]].ref[r], DataIndex(S, metas[i], r);
      Restored(S[y], ref) == Restored(T[y], ref)
  }

  lemma {:induction false} SameLater(S: Journal, T: Journal, metas: seq<nat>, mi: nat, r: nat, lo: u16, hi: u16)
    requires SameMetas(S, T, metas) && At(S, metas, mi, r)
    ensures Later(S, metas, mi, r, lo, hi) == Later(T, metas, mi, r, lo, hi)
    decreases |metas| - mi, (if mi < |metas| then S[metas[mi]].nref - r else 0)
  {
    if mi < |metas| {
      if r < S[metas[mi]].nref {
        SameLater(S, T, metas, mi, r + 1, lo, hi);
      } else {
        SameLater(S, T, metas, mi + 1, 0, lo, hi);
      }
    }
  }

  /** The same final refs, writing the same data, make the same events the last ones. */
  lemma {:induction false} SameKept(S: Journal, T: Journal, metas: seq<nat>, mi: nat, r: nat, lo: u16, hi: u16)
    requires SameMetas(S, T, metas) && At(S, metas, mi, r) && SameFinalData(S, T, metas, lo, hi)
    ensures Keep(Events(S, metas, mi, r, lo, hi), Later(S, metas, mi, r, lo, hi))
            == Keep(Events(T, metas, mi, r, lo, hi), Later(T, metas, mi, r, lo, hi))
    decreases mi, r
  {
    if r > 0 {
      SameKept(S, T, metas, mi, r - 1, lo, hi);
      KeepStep(S, metas, mi, r - 1, lo, hi);
      KeepStep(T, metas, mi, r - 1, lo, hi);
      SameLater(S, T, metas, mi, r, lo, hi);
      hide Keep, Events, Later;
    } else if mi > 0 {
      hide Keep, SameFinalData;
      SameKept(S, T, metas, mi - 1, S[metas[mi - 1]].nref, lo, hi);
      LaterTurn(S, metas, mi - 1, lo, hi);
      LaterTurn(T, metas, mi - 1, lo, hi);
    }
  }

  /** Fewer refs come later further on. */
  lemma {:induction false} LaterShrinks(S: Journal, metas: seq<nat>, i: nat, r: nat, mi: nat, k: nat, lo: u16, hi: u16)
    requires MetasOk(S, metas) && At(S, metas, i, r) && At(S, metas, mi, k) && (i < mi || (i == mi && r <= k))
    ensures Later(S, metas, mi, k, lo, hi) <= Later(S, metas, i, r, lo, hi)
    decreases |metas| - i, (if i < |metas| then S[metas[i]].nref - r else 0)
  {
    if i != mi || r != k {
      if r < S[metas[i]].nref {
        LaterShrinks(S, metas, i, r + 1, mi, k, lo, hi);
      } else {
        LaterShrinks(S, metas, i + 1, 0, mi, k, lo, hi);
      }
    }
  }

  lemma PendingLast(es: seq<Event>, e: Event)
    requires e.data.Some?
    ensures e.bn in Pending(es + [e]) && Pending(es + [e])[e.bn] == e.data.value
  {
    assert (es + [e])[..|es|] == es;
  }

  lemma PendingOther(es: seq<Event>, e: seq<Event>, bn: nat)
    requires |e| <= 1 && (e != [] ==> e[0].bn != bn)
    ensures bn in Pending(es + e) <==> bn in Pending(es)
    ensures bn in Pending(es) ==> Pending(es + e)[bn] == Pending(es)[bn]
  {
    if e == [] { assert es + e == es; } else { assert (es + e)[..|es|] == es; }
  }

  /** No later ref is for the destination of a final one. */
  lemma OtherEvent(S: Journal, metas: seq<nat>, i: nat, r: nat, mi: nat, k: nat, lo: u16, hi: u16)
    requires MetasOk(S, metas) && mi < |metas| && k < S[metas[mi]].nref && (i < mi || (i == mi && r < k))
    requires i < |metas| && r < S[metas[i]].nref && Final(S, metas, i, r, lo, hi)
    ensures var e := RefEvents(S, metas[mi], k, lo, hi);
            |e| <= 1 && (e != [] ==> e[0].bn != S[metas[i]].ref[r].bn)
  {
    LaterShrinks(S, metas, i, r + 1, mi, k, lo, hi);
    assert Counts(S, metas[mi], k, lo, hi) ==> S[metas[mi]].ref[k].bn in Later(S, metas, mi, k, lo, hi);
  }

  /** What a final ref sets stays pending to the end. */
  lemma {:induction false} FinalIsPending(S: Journal, metas: seq<nat>, i: nat, r: nat, mi: nat, k: nat, lo: u16,
      hi: u16)
    requires MetasOk(S, metas) && At(S, metas, mi, k) && (i < mi || (i == mi && r < k))
    requires i < |metas| && r < S[metas[i]].nref && Final(S, metas, i, r, lo, hi)
    ensures var ref, p := S[metas[i]].ref[r], Pending(Events(S, metas, mi, k, lo, hi));
            ref.bn in p && p[ref.bn] == Restored(S[DataIndex(S, metas[i], r)], ref)
    decreases mi, k
  {
    if k > 0 {
      var es, e := Events(S, metas, mi, k - 1, lo, hi), RefEvents(S, metas[mi], k - 1, lo, hi);
      assert Events(S, metas, mi, k, lo, hi) == es + e;
      if i == mi && r == k - 1 {
        hide Events, Later, Pending;
        PendingLast(es, e[0]);
      } else {
        hide Events, Pending, Final;
        FinalIsPending(S, metas, i, r, mi, k - 1, lo, hi);
        OtherEvent(S, metas, i, r, mi, k - 1, lo, hi);
        hide RefEvents, Later;
        PendingOther(es, e, S[metas[i]].ref[r].bn);
      }
    } else {
      hide Pending, Final;
      FinalIsPending(S, metas, i, r, mi - 1, S[metas[mi - 1]].nref, lo, hi);
    }
  }

  lemma PendingIsApplied(es: seq<Event>)
    ensures ApplyWrites(map[], Keep(es, {})) == Pending(es)
  {
    KeepIsPending(es, {}, map[]);
    assert map[] + (Pending(es) - {}) == Pending(es);
  }

  /** Two journals with the same metablocks have the same replay exactly if their final refs write the same. */
  lemma SameReplay(S: Journal, T: Journal, metas: seq<nat>, lo: u16, hi: u16, disk: Disk)
    requires SameMetas(S, T, metas)
    ensures NaiveReplay(S, metas, lo, hi, disk) == NaiveReplay(T, metas, lo, hi, disk) <==>
            SameFinalData(S, T, metas, lo, hi)
  {
    if SameFinalData(S, T, metas, lo, hi) {
      SameKept(S, T, metas, |metas|, 0, lo, hi);
      PendingIsApplied(Events(S, metas, |metas|, 0, lo, hi));
      PendingIsApplied(Events(T, metas, |metas|, 0, lo, hi));
    }
    if NaiveReplay(S, metas, lo, hi, disk) == NaiveReplay(T, metas, lo, hi, disk) {
      hide NaiveReplay;
      forall i: nat, r: nat | i < |metas| && r < S[metas[i]].nref && Final(S, metas, i, r, lo, hi)
        ensures Restored(S[DataIndex(S, metas[i], r)], S[metas[i]].ref[r])
                == Restored(T[DataIndex(S, metas[i], r)], S[metas[i]].ref[r])
      {
        FinalAgrees(S, T, metas, lo, hi, disk, i, r);
      }
    }
  }

  /** Equal replays have equal data for a final ref. */
  lemma FinalAgrees(S: Journal, T: Journal, metas: seq<nat>, lo: u16, hi: u16, disk: Disk, i: nat, r: nat)
    requires SameMetas(S, T, metas) && i < |metas| && r < S[metas[i]].nref && Final(S, metas, i, r, lo, hi)
    requires NaiveReplay(S, metas, lo, hi, disk) == NaiveReplay(T, metas, lo, hi, disk)
    ensures Restored(S[DataIndex(S, metas[i], r)], S[metas[i]].ref[r])
            == Restored(T[DataIndex(S, metas[i], r)], S[metas[i]].ref[r])
  {
    SameLater(S, T, metas, i, r + 1, lo, hi);
    FinalIsReplayed(S, metas, lo, hi, disk, i, r);
    FinalIsReplayed(T, metas, lo, hi, disk, i, r);
    hide Later, NaiveReplay, Restored, InRegion;
  }

  lemma FinalIsReplayed(S: Journal, metas: seq<nat>, lo: u16, hi: u16, disk: Disk, i: nat, r: nat)
    requires MetasOk(S, metas) && i < |metas| && r < S[metas[i]].nref && Final(S, metas, i, r, lo, hi)
    ensures var ref, d := S[metas[i]].ref[r], NaiveReplay(S, metas, lo, hi, disk);
            ref.bn in d && d[ref.bn] == Restored(S[DataIndex(S, metas[i], r)], ref)
  {
    FinalIsPending(S, metas, i, r, |metas|, 0, lo, hi);
    hide Events, Pending, Final, Restored;
  }

  // ----- The journal as loaded -----

  lemma LoadedMetas(env: Env, J0: Journal, J: Journal, metas: seq<nat>, ok: bool)
    requires Done(env, J0, J, metas, |J0|, ok)
    ensures SameMetas(J, J0, metas)
  {
    DataNotMeta(env, J0, J, metas, |J0|, ok);
    forall i | 0 <= i < |metas| ensures J0[metas[i]] == J[metas[i]] {
      assert metas[i] in metas && BlockDone(env, J0, J, metas, |J0|, metas[i]);
    }
  }

  /** No data block that a final ref writes looks, as loaded, like a metablock without the error flag. */
  ghost predicate FinalDataPlain(env: Env, J0: Journal, metas: seq<nat>, lo: u16, hi: u16)
    requires MetasOk(J0, metas)
  {
    forall i: nat, r: nat :: i < |metas| && r < J0[metas[i]].nref && Final(J0, metas, i, r, lo, hi) ==>
      var y := DataIndex(J0, metas[i], r);
      !(Potential(env, J0[y]) && !J0[y].Has(JF_ERROR))
  }

  /** Restoring the magic number hides no error flag. */
  lemma RestoredIntact(env: Env, J0: Journal, J: Journal, metas: seq<nat>, i: nat, r: nat)
    requires Done(env, J0, J, metas, |J0|, true) && SameMetas(J, J0, metas)
    requires i < |metas| && r < J[metas[i]].nref && !J[metas[i]].ref[r].Nonjournaled()
    ensures var y, ref := DataIndex(J, metas[i], r), J[metas[i]].ref[r];
            Restored(J[y], ref) == Restored(J0[y], ref) <==> !(Potential(env, J0[y]) && !J0[y].Has(JF_ERROR))
  {
    var y, ref := DataIndex(J, metas[i], r), J[metas[i]].ref[r];
    DataIntact(env, J0, J, metas, true, i, r);
    assert BlockDone(env, J0, J, metas, |J0|, y);
    hide Done, Potential;
    if Restored(J[y], ref) == Restored(J0[y], ref) {
      assert Restored(J[y], ref).flags == J[y].flags && Restored(J0[y], ref).flags == J0[y].flags;
    }
  }

  /** An accepted journal is replayed as it was loaded, exactly if no data block that a final ref writes was flagged
      on the way. */
  lemma LoadedReplay(env: Env, J0: Journal, J: Journal, metas: seq<nat>, lo: u16, hi: u16, disk: Disk)
    requires Done(env, J0, J, metas, |J0|, true)
    ensures MetasOk(J, metas) && MetasOk(J0, metas)
    ensures NaiveReplay(J, metas, lo, hi, disk) == NaiveReplay(J0, metas, lo, hi, disk) <==>
            FinalDataPlain(env, J0, metas, lo, hi)
  {
    LoadedMetas(env, J0, J, metas, true);
    SameReplay(J0, J, metas, lo, hi, disk);
    hide NaiveReplay;
    forall i: nat, r: nat | i < |metas| && r < J0[metas[i]].nref && Final(J0, metas, i, r, lo, hi)
      ensures var y, ref := DataIndex(J0, metas[i], r), J0[metas[i]].ref[r];
              Restored(J0[y], ref) == Restored(J[y], ref) <==> !(Potential(env, J0[y]) && !J0[y].Has(JF_ERROR))
    {
      RestoredIntact(env, J0, J, metas, i, r);
      assert DataIndex(J0, metas[i], r) == DataIndex(J, metas[i], r);
    }
    hide Final, Done, Restored, Potential;
  }

  // ----- A journal whose data is flagged on the way -----

  function OnlyMetablock(): Block {
    Block(JOURNALMAGIC, NOCHECKSUM, 0, 1, 5, 6, 5, 0x31, 1, seq(REF_SIZE, _ => Ref(7, NOCHECKSUM, 0, 0)))
  }

  /** A block left over in the journal that looks like a metablock, but is not marked as one; flagging it breaks its
      checksum. */
  predicate Stale(env: Env, b: Block) {
    && b.magic == JOURNALMAGIC && b.checksum == env.tail(b) && b.checksum != NOCHECKSUM
    && b.flags == 0 && b.nref == 0 && |b.ref| == REF_SIZE
    && env.tail(MarkError(b)) != b.checksum
  }

  /** The condition is needed, with any checksum that notices the flag: such a block is flagged first, no longer looks
      like a metablock, and is then accepted as the data of a metablock further on, with the flag in it. */
  lemma FlaggedDataIsReplayed(env: Env, b: Block, disk: Disk)
    requires Stale(env, b)
    ensures var J0, J := [b, OnlyMetablock()], [MarkError(b), OnlyMetablock()];
            && Shape(J0) && AllReach(env, J0, 2) && Done(env, J0, J, [1], 2, true)
            && Acceptable(J, [1]) && MetasOk(J, [1]) && MetasOk(J0, [1])
            && NaiveReplay(J, [1], 5, 6, disk) != NaiveReplay(J0, [1], 5, 6, disk)
  {
    var J0, J := [b, OnlyMetablock()], [MarkError(b), OnlyMetablock()];
    assert (0 as bv16 | 0x02) == 2;
    StaleDone(env, J0, J);
    StaleBounds(J);
    StaleAcceptable(J);
    LoadedReplay(env, J0, J, [1], 5, 6, disk);
    StaleFinal(J0);
    hide Done, AllReach, Shape, Acceptable, NaiveReplay;
  }

  lemma StaleDone(env: Env, J0: Journal, J: Journal)
    requires |J0| == 2 && Stale(env, J0[0]) && J0[1] == OnlyMetablock()
    requires J == [MarkError(J0[0]), OnlyMetablock()] && J[0].flags == 2
    ensures Shape(J0) && AllReach(env, J0, 2) && Done(env, J0, J, [1], 2, true)
  {
  }

  lemma StaleBounds(J: Journal)
    requires |J| == 2 && J[1] == OnlyMetablock()
    ensures InBounds(J, [1]) && MetasOk(J, [1])
  {
  }

  lemma StaleAcceptable(J: Journal)
    requires |J| == 2 && J[1] == OnlyMetablock() && InBounds(J, [1])
    ensures Acceptable(J, [1])
  {
  }

  lemma StaleFinal(J: Journal)
    requires |J| == 2 && J[1] == OnlyMetablock() && MetasOk(J, [1])
    ensures Final(J, [1], 0, 0, 5, 6) && DataIndex(J, 1, 0) == 0
  {
  }
}
