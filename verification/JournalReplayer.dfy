/** The journal replayer: analysis, marking and replay, in place on the loaded journal. */
module JournalReplayer {
  import opened JournalFormat
  import opened JournalReplay
  import opened JournalAnalysis
  import opened JournalChecks
  import opened JournalMarking
  import opened Util

  class JournalReplayer {
    const env: Env
    var jd: array<Block>
    var mr: array<nat>
    var nmr: nat
    var ok: bool
    var writes: seq<Write>
    var replayed: bool

    constructor (env: Env, j: array<Block>)
      ensures this.env == env && jd == j && nmr == 0 && ok && writes == [] && !replayed && fresh(mr) && Sized()
    {
      this.env := env;
      jd := j;
      mr := new nat[j.Length];
      nmr := 0;
      ok := true;
      writes := [];
      replayed := false;
    }

    ghost predicate Sized()
      reads this
    {
      mr.Length == jd.Length && nmr <= mr.Length
    }

    /** The accepted metablocks so far. */
    function Metas(): seq<nat>
      reads this, mr
      requires Sized()
    {
      mr[..nmr]
    }

    method AnalyzeBlockReference(ref: Ref, bi: nat, delta: nat) returns (delta': nat)
      requires bi < jd.Length
      modifies jd, `ok
      ensures delta' == delta + (if ref.Nonjournaled() then 0 else 1)
      ensures ok <==> old(ok && (ref.Nonjournaled() || delta < jd.Length))
      ensures jd[..] == Flagged(old(jd[..]), bi, !old(DatumGood(env, jd[..], bi, ref, delta)))
    {
      delta' := delta;
      if !ref.Nonjournaled() {
        if delta >= jd.Length {
          ok := false;
        }
        var dbi := (bi + delta) % jd.Length;
        var djd := jd[dbi];
        assert djd == jd[..][Onward(jd.Length, bi, delta)];
        if Potential(env, djd) {
          jd[bi] := MarkError(jd[bi]);
        } else if ref.bchecksum != NOCHECKSUM && ref.bchecksum != env.whole(djd) {
          jd[bi] := MarkError(jd[bi]);
        }
        delta' := delta' + 1;
      }
    }

    /** Insert `bi` after the metablocks with a sequence number at most its own. */
    method InsertMeta(bi: nat)
      requires Sized() && nmr < mr.Length && bi < jd.Length
      requires Sorted(jd[..], Metas()) && bi !in Metas()
      modifies mr, `nmr
      ensures Sized() && nmr == old(nmr) + 1
      ensures Sorted(jd[..], Metas())
      ensures forall x :: x in Metas() <==> x in old(Metas()) || x == bi
    {
      var x := 0;
      while x != nmr && jd[bi].seqno - jd[mr[x]].seqno >= 0
        invariant x <= nmr
        invariant forall k :: 0 <= k < x ==> jd[mr[k]].seqno <= jd[bi].seqno
        decreases nmr - x
      {
        assert mr[x] == Metas()[x];
        x := x + 1;
      }
      ghost var was := Metas();
      assert forall k :: 0 <= k < x ==> jd[was[k]].seqno <= jd[bi].seqno;
      assert x < nmr ==> jd[bi].seqno < jd[was[x]].seqno;
      hide Sorted;
      InsertAt(x, bi);
      InsertSorted(jd[..], was, x, bi);
    }

    /** Move the metablocks from place `x` on up by one and put `bi` there. */
    method InsertAt(x: nat, bi: nat)
      requires Sized() && nmr < mr.Length && x <= nmr
      modifies mr, `nmr
      ensures Sized() && Metas() == old(Metas())[..x] + [bi] + old(Metas())[x..]
    {
      forall k | x < k <= nmr {
        mr[k] := mr[k - 1];
      }
      mr[x] := bi;
      nmr := nmr + 1;
    }

    /** The first `n` blocks of the journal `J0` are analyzed. */
    ghost predicate Stands(J0: Journal, n: nat)
      reads this, jd, mr
    {
      && Sized() && nmr <= n && Done(env, J0, jd[..], Metas(), n, ok)
      && Follows(env, J0, jd[..], Metas(), n)
    }

    method AnalyzeBlock(bi: nat, ghost J0: Journal)
      requires bi < jd.Length && Shape(J0) && Stands(J0, bi)
      modifies jd, mr, `nmr, `ok
      ensures Stands(J0, bi + 1)
      ensures ok <==> old(ok) && BlockReaches(env, J0, bi)
    {
      ghost var J, metas, ok0 := jd[..], Metas(), ok;
      assert BlockDone(env, J0, J, metas, bi, bi) && bi !in metas;
      hide Follows, GoodMetablock;
      if Potential(env, jd[bi]) {
        var good := CheckMetablock(bi, J0);
        if good {
          InsertMeta(bi);
          AcceptStep(env, J0, J, metas, Metas(), bi, ok0, ok);
        } else {
          RejectStep(env, J0, J, metas, bi, ok0, ok);
        }
      } else {
        assert !GoodMetablock(env, J, bi) by { NotPotential(env, J, bi); }
        SkipStep(env, J0, J, metas, bi, ok);
      }
      FollowsStep(env, J0, J, metas, Metas(), bi);
    }

    /** Check the header and the data of the metablock at `bi`, flagging it if either is bad. */
    method CheckMetablock(bi: nat, ghost J0: Journal) returns (good: bool)
      requires Sized() && bi < jd.Length && Shape(J0)
      requires Done(env, J0, jd[..], Metas(), bi, ok) && jd[bi] == J0[bi] && Potential(env, jd[bi])
      modifies jd, `ok
      ensures ok <==> old(ok && BlockReaches(env, jd[..], bi))
      ensures good ==> jd[..] == old(jd[..]) && Accepted(env, jd[..], bi, ok)
      ensures !good ==> jd[..] == old(jd[..])[bi := MarkError(old(jd[bi]))] && !GoodMetablock(env, J0, bi)
      ensures good <==> old(GoodMetablock(env, jd[..], bi))
    {
      ghost var J, metas, ok0 := jd[..], Metas(), ok;
      var b := jd[bi];
      hide Done, Block.Has, Potential;
      if !HeaderOk(b) {
        jd[bi] := MarkError(jd[bi]);
        assert jd[..] == J[bi := MarkError(b)];
      } else {
        HeaderHasNoError(b);
      }
      MarkedHasError(b);
      var delta;
      ghost var marked;
      delta, marked := CheckRefs(bi, b, J, !HeaderOk(b));
      if b.nref > REF_SIZE {
        CheckPast(bi, b, delta, J);
      }
      assert jd[bi] == jd[..][bi];
      good := !jd[bi].Has(JF_ERROR);
      if !good && HeaderOk(b) {
        ghost var r: nat :| r < b.nref && !RefGood(env, J, bi, r);
        BadRef(env, J0, J, metas, ok0, bi, r);
      }
    }

    /** Check the data of every ref of the metablock at `bi`; `bad` tells that it is flagged already. */
    method CheckRefs(bi: nat, b: Block, ghost J: Journal, ghost bad: bool) returns (delta: nat, ghost marked: bool)
      requires bi < jd.Length == |J| && b == J[bi] && |b.ref| == REF_SIZE
      requires jd[..] == Flagged(J, bi, bad)
      modifies jd, `ok
      ensures ok <==> old(ok) && Reach(J, bi, Min(b.nref, REF_SIZE))
      ensures delta == Delta(b, Min(b.nref, REF_SIZE))
      ensures jd[..] == Flagged(J, bi, marked) && CheckedTo(env, J, bi, Min(b.nref, REF_SIZE), bad, marked)
    {
      delta := 1;
      var refi := 0;
      marked := bad;
      var n := Min(b.nref, REF_SIZE);
      while refi != n
        invariant 0 <= refi <= n && delta == Delta(b, refi)
        invariant jd[..] == Flagged(J, bi, marked)
        invariant ok <==> old(ok) && Reach(J, bi, refi)
        invariant CheckedTo(env, J, bi, refi, bad, marked)
        decreases n - refi
      {
        ghost var now := jd[..];
        ghost var good := RefStep(env, J, bi, marked, refi, now);
        hide *;
        assert jd[bi] == now[bi];
        delta := AnalyzeBlockReference(jd[bi].ref[refi], bi, delta);
        CheckedStep(env, J, bi, refi, bad, marked, marked || !good);
        marked := marked || !good;
        refi := refi + 1;
      }
    }

    /** The refs that a flagged metablock claims to have behind its end. */
    method CheckPast(bi: nat, b: Block, delta0: nat, ghost J: Journal)
      requires bi < jd.Length == |J| && b == J[bi] && b.nref > REF_SIZE == |b.ref| && delta0 == Delta(b, REF_SIZE)
      requires jd[..] == Flagged(J, bi, true)
      modifies jd, `ok
      ensures ok <==> old(ok) && PastReach(env, J, bi, b.nref)
      ensures jd[..] == Flagged(J, bi, true)
    {
      var delta, refi := delta0, REF_SIZE;
      while refi != b.nref
        invariant REF_SIZE <= refi <= b.nref && delta == PastDelta(env, b, bi, refi)
        invariant jd[..] == Flagged(J, bi, true)
        invariant ok <==> old(ok) && PastReach(env, J, bi, refi)
      {
        var ref := env.past(bi, refi);
        PastStep(env, J, bi, refi);
        FlaggedTwice(J, bi, true, !DatumGood(env, jd[..], bi, ref, delta));
        hide *;
        delta := AnalyzeBlockReference(ref, bi, delta);
        refi := refi + 1;
      }
    }

    /** One metablock of the scan for transaction `tid`; the new flags and whether no error was found. */
    method ScanMetablock(tid: u16, mi: nat, flags: bv16) returns (flags': bv16, fine: bool)
      requires Sized() && mi < nmr && InBounds(jd[..], Metas())
      requires Scanned(jd[..], Metas(), tid, mi, flags)
      ensures Scanned(jd[..], Metas(), tid, mi + 1, flags')
      ensures fine <==>
              PlaceOk(jd[..], Metas(), tid, mi) &&
              (Own(jd[..], Metas(), tid, mi) ==> !Completed(jd[..], Metas(), tid, mi))
    {
      ghost var J, metas := jd[..], Metas();
      var jmb := jd[mr[mi]];
      assert jmb == Meta(J, metas, mi) && HeaderOk(jmb);
      ScanStep(J, metas, tid, mi, flags);
      OwnFlagBits(jmb, tid);
      hide OwnFlags, Flag, With, Seen, Committed, Completed, TidGt, Block.Has, Block.Completes, Block.Commits;
      fine := true;
      flags' := flags;
      if flags != 0 {
        var last := jd[mr[mi - 1]];
        assert last == Meta(J, metas, mi - 1);
        var want_seq := Wrap(last.seqno + 1);
        if jmb.seqno != want_seq && !Flag(flags, JF_COMMIT) {
          fine := false;
        }
      }
      if jmb.tid == tid {
        var own := CheckOwn(jmb, tid, flags);
        fine := fine && own;
        flags' := With(flags, OwnFlags(jmb, tid));
      }
    }

    /** The checks on a metablock of transaction `tid` itself. */
    method CheckOwn(jmb: Block, tid: u16, flags: bv16) returns (fine: bool)
      ensures fine <==>
              && (Flag(OwnFlags(jmb, tid), JF_START) <==> flags == 0)
              && !(Flag(flags, JF_COMMIT) && jmb.nref != 0)
              && !Flag(flags, JF_COMPLETE) && !Flag(OwnFlags(jmb, tid), JF_COMPLETE)
    {
      fine := true;
      var tid_flags := OwnFlags(jmb, tid);
      hide OwnFlags, Flag;
      if Flag(tid_flags, JF_START) != (flags == 0) {
        fine := false;
      }
      if Flag(flags, JF_COMMIT) && jmb.nref != 0 {
        fine := false;
      }
      if Flag(flags, JF_COMPLETE) {
        fine := false;
      }
      if Flag(tid_flags, JF_COMPLETE) {
        fine := false;
      }
    }

    method AnalyzeTid(tid: u16)
      requires Sized() && InBounds(jd[..], Metas())
      modifies `ok
      ensures ok <==> old(ok) && TxnOk(jd[..], Metas(), tid)
    {
      ghost var J, metas := jd[..], Metas();
      var flags: bv16 := 0;
      var mi := 0;
      assert Scanned(J, metas, tid, 0, 0);
      while mi != nmr
        invariant mi <= nmr
        invariant Scanned(J, metas, tid, mi, flags)
        invariant ok <==> old(ok) && forall j: nat :: j < mi ==> PlaceOk(J, metas, tid, j)
        decreases nmr - mi
      {
        var fine: bool;
        flags, fine := ScanMetablock(tid, mi, flags);
        if !fine {
          ok := false;
          if Completed(J, metas, tid, mi) { CompletedIsMisplaced(J, metas, tid, mi); }
        }
        mi := mi + 1;
      }
      if !Flag(flags, JF_COMMIT) {
        ok := false;
      }
    }

    // ----- Flagging overwritten references -----

    /** Flag the refs to `bn` among the first `n` of one metablock. */
    method MarkOneBlock(x: nat, bn: nat, n: nat)
      requires x < jd.Length && n <= |jd[x].ref|
      modifies jd
      ensures jd[..] == old(jd[..])[x := MarkRefs(old(jd[x]), bn, n)]
    {
      ghost var b := jd[x];
      var refx := n;
      while refx != 0
        invariant 0 <= refx <= n
        invariant jd[x] == b.(ref := jd[x].ref) && |jd[x].ref| == |b.ref|
        invariant forall s :: 0 <= s < |b.ref| ==>
          jd[x].ref[s] == if refx <= s < n && b.ref[s].bn == bn then b.ref[s].Overwrite() else b.ref[s]
        invariant forall y :: 0 <= y < jd.Length && y != x ==> jd[y] == old(jd[y])
      {
        var ref := jd[x].ref;
        if ref[refx - 1].bn == bn {
          jd[x] := jd[x].(ref := ref[refx - 1 := ref[refx - 1].Overwrite()]);
        }
        refx := refx - 1;
      }
      assert jd[x].ref == MarkRefs(b, bn, n).ref;
    }

    /** Flag what metablock number `mx - 1` has before the place `(m, r)`. */
    method MarkTurn(bn: nat, mx: nat, refx: Option<nat>, ghost m: nat, ghost r: nat, ghost S: Journal, ghost J: Journal)
      requires Sized() && MetasOk(S, Metas()) && SameLayout(S, J, Metas()) && m < nmr && r <= S[Metas()[m]].nref
      requires 0 < mx <= m + 1 && refx == (if mx == m + 1 then Some(r) else None)
      requires MarkedFrom(S, J, jd[..], Metas(), mx, m, r, bn)
      modifies jd
      ensures MarkedFrom(S, J, jd[..], Metas(), mx - 1, m, r, bn)
    {
      ghost var metas := Metas();
      hide MarkRefs, MetasOk, Before, MarkedFrom, SameLayout;
      var x := mr[mx - 1];
      ghost var now := jd[..];
      assert x == metas[mx - 1];
      MarkNext(S, J, now, metas, mx, m, r, bn);
      var n := match refx case Some(k) => if k > jd[x].nref then jd[x].nref else k case None => jd[x].nref;
      BeforeIs(S, metas, mx - 1, m, r);
      MarkOneBlock(x, bn, n);
      MarkedMore(S, J, now, jd[..], metas, mx, m, r, bn);
    }

    /** Flag every ref to `bn` before ref `refx0` of metablock number `mx0 - 1`. */
    method MarkOverwrittenBlock(bn: nat, mx0: nat, refx0: nat, ghost S: Journal)
      requires Sized() && 1 <= mx0 <= nmr && MetasOk(S, Metas()) && SameLayout(S, jd[..], Metas())
      requires refx0 <= S[Metas()[mx0 - 1]].nref
      modifies jd
      ensures MarkedBefore(S, old(jd[..]), jd[..], Metas(), mx0 - 1, refx0, bn)
    {
      ghost var J, metas := jd[..], Metas();
      var mx, refx := mx0, Some(refx0);
      assert MarkedFrom(S, J, J, metas, mx0, mx0 - 1, refx0, bn);
      hide MarkRefs, MetasOk, Before, MarkedFrom, SameLayout, MarkedBefore, JournalReplayer.Metas;
      while mx != 0
        invariant 0 <= mx <= mx0 && Metas() == metas
        invariant refx == if mx == mx0 then Some(refx0) else None
        invariant MarkedFrom(S, J, jd[..], metas, mx, mx0 - 1, refx0, bn)
      {
        MarkTurn(bn, mx, refx, mx0 - 1, refx0, S, J);
        mx, refx := mx - 1, None;
      }
      MarkedBeforeAll(S, J, jd[..], metas, mx0 - 1, refx0, bn);
    }

    /** What the pass finds at ref `r` of metablock number `mx - 1`. */
    lemma RefOnPass(mx: nat, r: nat, S: Journal, lo: u16, hi: u16)
      requires Sized() && 1 <= mx <= nmr && MetasOk(S, Metas())
      requires r < S[Metas()[mx - 1]].nref && PartMarked(S, jd[..], Metas(), lo, hi, mx - 1, r + 1)
      ensures var x := mr[mx - 1];
              && x == Metas()[mx - 1] < jd.Length == |S| && r < |jd[x].ref| && r < |S[x].ref|
              && jd[x].ref[r].bn == S[x].ref[r].bn
              && (jd[x].ref[r].Overwritten() <==>
                    S[x].ref[r].Overwritten() || S[x].ref[r].bn in Later(S, Metas(), mx - 1, r + 1, lo, hi))
      ensures SameLayout(S, jd[..], Metas())
    {
      assert mr[mx - 1] == Metas()[mx - 1] && jd[mr[mx - 1]] == jd[..][mr[mx - 1]];
      StillClear(S, jd[..], Metas(), lo, hi, mx - 1, r);
      PartMarkedLayout(S, jd[..], Metas(), lo, hi, mx - 1, r + 1);
    }

    /** Flag what ref `r` of metablock number `mx - 1` repeats, unless it is flagged itself. */
    method FlagEarlier(mx: nat, r: nat, ghost S: Journal, ghost lo: u16, ghost hi: u16)
      requires Sized() && 1 <= mx <= nmr && MetasOk(S, Metas()) && InRegion(lo, hi, S[Metas()[mx - 1]].tid)
      requires r < S[Metas()[mx - 1]].nref && PartMarked(S, jd[..], Metas(), lo, hi, mx - 1, r + 1)
      modifies jd
      ensures PartMarked(S, jd[..], Metas(), lo, hi, mx - 1, r)
    {
      hide PartMarked, MarkedBefore, SameLayout, Later, Ref.Overwritten, InRegion, Ref.Overwrite, MetasOk;
      ghost var J, metas := jd[..], Metas();
      var x := mr[mx - 1];
      RefOnPass(mx, r, S, lo, hi);
      hide JournalReplayer.Metas;
      var ref := jd[x].ref[r];
      if !ref.Overwritten() {
        MarkOverwrittenBlock(ref.bn, mx, r, S);
        MarkRef(S, J, jd[..], metas, lo, hi, mx - 1, r);
      } else {
        SkipRef(S, J, metas, lo, hi, mx - 1, r);
      }
    }

    lemma StartOfPass(mx: nat, S: Journal, lo: u16, hi: u16)
      requires Sized() && 1 <= mx <= nmr && MetasOk(S, Metas()) && PartMarked(S, jd[..], Metas(), lo, hi, mx, 0)
      ensures var x := mr[mx - 1];
              && x == Metas()[mx - 1] < jd.Length && x < |S| && jd[x].nref == S[x].nref && S[x].nref <= |S[x].ref|
              && PartMarked(S, jd[..], Metas(), lo, hi, mx - 1, S[x].nref)
    {
      TurnBack(S, jd[..], Metas(), lo, hi, mx - 1);
      PartMarkedLayout(S, jd[..], Metas(), lo, hi, mx, 0);
    }

    method AnalyzeOverwrittenBlocks(mx: nat, ghost S: Journal, ghost lo: u16, ghost hi: u16)
      requires Sized() && 1 <= mx <= nmr && MetasOk(S, Metas()) && InRegion(lo, hi, S[Metas()[mx - 1]].tid)
      requires PartMarked(S, jd[..], Metas(), lo, hi, mx, 0)
      modifies jd
      ensures PartMarked(S, jd[..], Metas(), lo, hi, mx - 1, 0)
    {
      ghost var metas := Metas();
      var x := mr[mx - 1];
      StartOfPass(mx, S, lo, hi);
      hide PartMarked, SameLayout, InRegion, MetasOk, JournalReplayer.Metas;
      var refx: nat := jd[x].nref;
      while refx != 0
        invariant 0 <= refx <= S[x].nref
        invariant Metas() == metas && PartMarked(S, jd[..], metas, lo, hi, mx - 1, refx)
      {
        FlagEarlier(mx, refx - 1, S, lo, hi);
        refx := refx - 1;
      }
    }

    /** One metablock of the backward pass. */
    method PassMetablock(mx: nat, lo: u16, hi: u16, ghost S: Journal)
      requires Sized() && 1 <= mx <= nmr && MetasOk(S, Metas()) && PartMarked(S, jd[..], Metas(), lo, hi, mx, 0)
      modifies jd
      ensures PartMarked(S, jd[..], Metas(), lo, hi, mx - 1, 0)
    {
      ghost var metas := Metas();
      var x := mr[mx - 1];
      PartMarkedLayout(S, jd[..], metas, lo, hi, mx, 0);
      assert x == metas[mx - 1] && jd[x].tid == jd[..][metas[mx - 1]].tid == S[x].tid;
      hide SameLayout, PartMarked;
      if TidGe(jd[x].tid, lo) && TidLt(jd[x].tid, hi) {
        AnalyzeOverwrittenBlocks(mx, S, lo, hi);
      } else {
        TurnBack(S, jd[..], metas, lo, hi, mx - 1);
        SkipRefs(S, jd[..], metas, lo, hi, mx - 1, S[x].nref);
      }
    }

    /** Flag, in every accepted metablock, what a later ref of the region repeats. */
    method MarkAll(lo: u16, hi: u16)
      requires Sized() && MetasOk(jd[..], Metas())
      modifies jd
      ensures Marked(old(jd[..]), jd[..], Metas(), lo, hi)
    {
      ghost var S, metas := jd[..], Metas();
      MarkingStarts(S, metas, lo, hi);
      hide PartMarked, Marked;
      var mx := nmr;
      while mx != 0
        invariant 0 <= mx <= nmr
        invariant PartMarked(S, jd[..], metas, lo, hi, mx, 0)
      {
        PassMetablock(mx, lo, hi, S);
        mx := mx - 1;
      }
      MarkingEnds(S, jd[..], metas, lo, hi);
    }

    // ----- analyze -----

    method AnalyzeBlocks()
      requires Sized() && nmr == 0 && ok && Shape(jd[..])
      modifies jd, mr, `nmr, `ok
      ensures Sized() && Done(env, old(jd[..]), jd[..], Metas(), jd.Length, ok)
      ensures Follows(env, old(jd[..]), jd[..], Metas(), jd.Length)
      ensures ok <==> AllReach(env, old(jd[..]), jd.Length)
    {
      ghost var J0 := jd[..];
      NothingDone(env, J0);
      assert Metas() == [] && Follows(env, J0, J0, [], 0);
      hide Done, Follows, Shape, AllReach;
      AnalyzeEach(J0);
    }

    /** The loop over all blocks. */
    method AnalyzeEach(ghost J0: Journal)
      requires jd.Length == |J0| && Shape(J0) && Stands(J0, 0) && ok
      modifies jd, mr, `nmr, `ok
      ensures Stands(J0, |J0|)
      ensures ok <==> AllReach(env, J0, |J0|)
    {
      hide JournalReplayer.Stands, Shape, AllReach, BlockReaches;
      ReachNone(env, J0);
      var bi := 0;
      while bi != jd.Length
        invariant 0 <= bi <= jd.Length && Stands(J0, bi)
        invariant ok <==> AllReach(env, J0, bi)
      {
        AnalyzeBlock(bi, J0);
        ReachStep(env, J0, bi);
        bi := bi + 1;
      }
    }

    /** Check a metablock against the one before it. */
    method CheckPair(last: Block, cur: Block)
      modifies `ok
      ensures ok <==> old(ok) && PairCheck(last, cur)
    {
      hide TidLt;
      if cur.seqno == last.seqno {
        ok := false;
      }
      if TidLt(cur.commit_boundary, last.commit_boundary) {
        ok := false;
      }
      if TidLt(cur.complete_boundary, last.complete_boundary) {
        ok := false;
      }
      if cur.nref != 0 && TidLt(cur.tid, last.commit_boundary) {
        ok := false;
      }
    }

    /** Check a metablock by itself. */
    method CheckSelf(cur: Block)
      modifies `ok
      ensures ok <==> old(ok) && SelfCheck(cur)
    {
      hide TidLt, TidGt, TidGe, Block.Has;
      if TidGt(cur.complete_boundary, cur.commit_boundary) {
        ok := false;
      }
      if cur.nref != 0 && TidLt(cur.tid, cur.complete_boundary) {
        ok := false;
      }
      if cur.Has(JF_COMPLETE) && TidGe(cur.tid, cur.complete_boundary) {
        ok := false;
      }
      if cur.Has(JF_COMMIT) && TidGe(cur.tid, cur.commit_boundary) {
        ok := false;
      }
    }

    /** Check neighbouring metablocks against each other. */
    method CheckMetablocks()
      requires Sized() && InBounds(jd[..], Metas()) && ok
      modifies `ok
      ensures ok <==> AllChecked(jd[..], Metas())
    {
      ghost var J, metas := jd[..], Metas();
      hide PairCheck, SelfCheck, HeaderOk;
      var mi := 0;
      while mi != nmr
        invariant 0 <= mi <= nmr
        invariant ok <==> forall k: nat :: k < mi ==> MetaCheck(J, metas, k)
      {
        var cur := jd[mr[mi]];
        assert cur == Meta(J, metas, mi);
        if mi != 0 {
          assert jd[mr[mi - 1]] == Meta(J, metas, mi - 1);
          CheckPair(jd[mr[mi - 1]], cur);
        }
        CheckSelf(cur);
        assert MetaCheck(J, metas, mi) <==> (mi > 0 ==> PairCheck(Meta(J, metas, mi - 1), cur)) && SelfCheck(cur);
        mi := mi + 1;
      }
    }

    /** Check every transaction from `lo` up to `hi`, counting around 2^16. */
    method CheckTransactions(lo: u16, hi: u16)
      requires Sized() && InBounds(jd[..], Metas()) && ok && !TidGt(lo, hi)
      modifies `ok
      ensures ok <==> forall t: u16 :: InRegion(lo, hi, t) ==> TxnOk(jd[..], Metas(), t)
    {
      ghost var J, metas := jd[..], Metas();
      var tid := lo;
      ghost var k: nat := 0;
      CountStep(lo, hi, 0);
      hide *;
      while tid != hi
        invariant k <= RegionSize(lo, hi) && tid == Counted(lo, k) && (tid == hi <==> k == RegionSize(lo, hi))
        invariant ok <==> forall j: nat :: j < k ==> TxnOk(J, metas, Counted(lo, j))
        decreases RegionSize(lo, hi) - k
      {
        AnalyzeTid(tid);
        CountStep(lo, hi, k);
        CountStep(lo, hi, k + 1);
        tid := Wrap(tid as int + 1);
        k := k + 1;
      }
      CountedAll(J, metas, lo, hi);
    }

    method Analyze() returns (r: bool, ghost J1: Journal)
      requires Sized() && nmr == 0 && ok && Shape(jd[..])
      modifies jd, mr, `nmr, `ok
      ensures Sized() && Done(env, old(jd[..]), J1, Metas(), |J1|, AllReach(env, old(jd[..]), jd.Length))
      ensures Follows(env, old(jd[..]), J1, Metas(), |J1|)
      ensures InBounds(J1, Metas()) && MetasOk(J1, Metas())
      ensures r <==> AllReach(env, old(jd[..]), jd.Length) && Acceptable(J1, Metas())
      ensures r ==> ok && nmr > 0 && Marked(J1, jd[..], Metas(), Lo(J1, Metas()), Hi(J1, Metas()))
    {
      ghost var J0 := jd[..];
      AnalyzeBlocks();
      J1 := jd[..];
      ghost var metas := Metas();
      DoneInBounds(env, J0, J1, metas, ok);
      hide Done, MetasOk, Marked, Shape, TxnOk, MetaCheck, AllReach, Follows;
      if !ok {
        return false, J1;
      } else if nmr == 0 {
        return false, J1;
      }
      CheckMetablocks();
      if !ok {
        return false, J1;
      }
      var complete_boundary, commit_boundary := jd[mr[nmr - 1]].complete_boundary, jd[mr[nmr - 1]].commit_boundary;
      assert complete_boundary == Lo(J1, metas) && commit_boundary == Hi(J1, metas) by {
        assert mr[nmr - 1] == metas[|metas| - 1];
      }
      assert !TidGt(Lo(J1, metas), Hi(J1, metas)) by { LastOrdered(J1, metas); }
      CheckTransactions(complete_boundary, commit_boundary);
      MarkAll(complete_boundary, commit_boundary);
      r := ok;
    }

    // ----- run -----

    /** What replay works on: the accepted metablocks, none of whose data blocks coincide. */
    ghost predicate Replayable(S: Journal)
      reads this, mr
    {
      Sized() && MetasOk(S, Metas()) && DataDistinct(S, Metas()) && DataApart(S, Metas())
    }

    /** Metablock `mi`, with `n` refs, is replayed up to its ref `r`, whose data block is `delta` blocks on. */
    ghost predicate Running(S: Journal, mi: nat, r: nat, n: nat, delta: nat, lo: u16, hi: u16, w0: seq<Write>)
      reads this, mr, jd
    {
      && Replayable(S) && mi < nmr && r <= n == S[Metas()[mi]].nref && delta == Delta(S[Metas()[mi]], r)
      && InRegion(lo, hi, S[Metas()[mi]].tid)
      && Untouched(S, jd[..], Metas(), mi, r)
      && WroteUpTo(S, Metas(), mi, r, lo, hi, w0, writes)
    }

    /** Everything before metablock `mi` is replayed. */
    ghost predicate Ran(S: Journal, mi: nat, lo: u16, hi: u16, w0: seq<Write>)
      reads this, mr, jd
    {
      && Replayable(S) && mi <= nmr && Untouched(S, jd[..], Metas(), mi, 0)
      && w0 <= writes && Writes(S, Metas(), mi, 0, lo, hi) == writes[|w0|..]
    }

    /** Replay one ref of a transaction in the region. */
    method RunRef(mi: nat, refi: nat, ghost nref: nat, delta: nat, ghost lo: u16, ghost hi: u16, ghost S: Journal,
        ghost w0: seq<Write>)
      returns (delta': nat)
      requires Running(S, mi, refi, nref, delta, lo, hi, w0) && refi < nref
      modifies jd, `writes
      ensures Running(S, mi, refi + 1, nref, delta', lo, hi, w0) && Metas() == old(Metas())
    {
      ghost var J, w := jd[..], writes;
      var bi := mr[mi];
      RefHere(S, mi, refi, nref, delta, lo, hi, w0);
      assert Ready(S, J, w, mi, refi, nref, delta, lo, hi, w0);
      hide JournalReplayer.Running, JournalReplayer.Ready, JournalReplayer.Replayable, JournalReplayer.Metas;
      hide MetasOk, InRegion, DataIndex;
      var ref := jd[bi].ref[refi];
      delta' := delta;
      if !ref.Overwritten() && !ref.Nonjournaled() {
        WriteData(bi, ref, (bi + delta) % jd.Length);
      }
      if !ref.Nonjournaled() {
        delta' := delta' + 1;
      }
      hide Ref.Overwritten, Ref.Nonjournaled;
      RefDone(S, J, w, mi, refi, nref, delta, lo, hi, w0);
    }

    /** Hand a data block to the callback, with its magic number restored if it was escaped. */
    method WriteData(bi: nat, ref: Ref, dbi: nat)
      requires bi < jd.Length && dbi < jd.Length
      modifies jd, `writes
      ensures jd[..] == old(jd[..])[dbi := Restored(old(jd[dbi]), ref)]
      ensures writes == old(writes) + [Write(old(jd[bi].tid), ref.bn, Restored(old(jd[dbi]), ref))]
    {
      if ref.Escaped() {
        jd[dbi] := jd[dbi].(magic := JOURNALMAGIC);
      }
      writes := writes + [Write(jd[bi].tid, ref.bn, jd[dbi])];
    }

    /** What `Running` says of a state with journal `J` and writes `w`. */
    ghost predicate Ready(S: Journal, J: Journal, w: seq<Write>, mi: nat, r: nat, n: nat, delta: nat, lo: u16, hi: u16,
        w0: seq<Write>)
      reads this, mr
    {
      && Replayable(S) && mi < nmr && r < n == S[Metas()[mi]].nref && delta == Delta(S[Metas()[mi]], r)
      && InRegion(lo, hi, S[Metas()[mi]].tid) && Untouched(S, J, Metas(), mi, r)
      && WroteUpTo(S, Metas(), mi, r, lo, hi, w0, w)
    }

    lemma RefHere(S: Journal, mi: nat, r: nat, n: nat, delta: nat, lo: u16, hi: u16, w0: seq<Write>)
      requires Running(S, mi, r, n, delta, lo, hi, w0) && r < n
      ensures var bi := mr[mi];
              && bi == Metas()[mi] < jd.Length == |S| && r < |S[bi].ref| && jd[bi] == S[bi]
              && InRegion(lo, hi, S[bi].tid)
              && var dbi := (bi + delta) % jd.Length;
                 !S[bi].ref[r].Nonjournaled() ==> dbi == DataIndex(S, bi, r) && jd[dbi] == S[dbi]
    {
      assert mr[mi] == Metas()[mi] && jd[mr[mi]] == jd[..][mr[mi]];
      hide DataDistinct, DataApart, WroteUpTo, InRegion;
    }

    /** One more ref is replayed. */
    lemma RefDone(S: Journal, J: Journal, w: seq<Write>, mi: nat, r: nat, n: nat, delta: nat, lo: u16, hi: u16,
        w0: seq<Write>)
      requires Ready(S, J, w, mi, r, n, delta, lo, hi, w0) && |jd[..]| == |J|
      requires Metas()[mi] < |S| && r < |S[Metas()[mi]].ref|
      requires var bi := Metas()[mi]; var ref := S[bi].ref[r];
               if ref.Overwritten() || ref.Nonjournaled() then jd[..] == J && writes == w
               else
                 && jd[..] == J[DataIndex(S, bi, r) := Restored(S[DataIndex(S, bi, r)], ref)]
                 && writes == w + [Write(S[bi].tid, ref.bn, Restored(S[DataIndex(S, bi, r)], ref))]
      ensures Running(S, mi, r + 1, n, if S[Metas()[mi]].ref[r].Nonjournaled() then delta else delta + 1, lo, hi, w0)
    {
      var metas, bi := Metas(), Metas()[mi];
      assert writes == w + RefWrites(S, bi, r, lo, hi) by { hide Untouched, WroteUpTo, DataDistinct, DataApart; }
      UntouchedStep(S, J, jd[..], metas, mi, r);
      WroteMore(S, metas, mi, r, lo, hi, w0, w, writes);
      hide Untouched, RefWrites, WroteUpTo, InRegion, Restored, DataIndex, DataDistinct, DataApart;
    }

    /** Replay the refs of a metablock in the region. */
    method RunRefs(mi: nat, nref: nat, ghost lo: u16, ghost hi: u16, ghost S: Journal, ghost w0: seq<Write>)
      requires Running(S, mi, 0, nref, 1, lo, hi, w0)
      modifies jd, `writes
      ensures Running(S, mi, nref, nref, Delta(S[Metas()[mi]], nref), lo, hi, w0) && Metas() == old(Metas())
    {
      var delta, refi: nat := 1, 0;
      ghost var metas := Metas();
      while refi != nref
        invariant 0 <= refi <= nref && Running(S, mi, refi, nref, delta, lo, hi, w0) && Sized() && Metas() == metas
      {
        hide JournalReplayer.Running;
        delta := RunRef(mi, refi, nref, delta, lo, hi, S, w0);
        refi := refi + 1;
      }
    }

    method RunMetablock(mi: nat, lo: u16, hi: u16, ghost S: Journal, ghost w0: seq<Write>)
      requires Ran(S, mi, lo, hi, w0) && mi < nmr
      modifies jd, `writes
      ensures Ran(S, mi + 1, lo, hi, w0)
    {
      ghost var metas, w := Metas(), writes;
      assert mr[mi] == metas[mi] && jd[mr[mi]] == jd[..][metas[mi]] == S[metas[mi]];
      if TidGe(jd[mr[mi]].tid, lo) && TidLt(jd[mr[mi]].tid, hi) {
        assert WroteUpTo(S, metas, mi, 0, lo, hi, w, writes) && Delta(S[metas[mi]], 0) == 1;
        RunRefs(mi, jd[mr[mi]].nref, lo, hi, S, w);
      } else {
        NoWrites(S, metas, mi, jd[mr[mi]].nref, lo, hi);
        assert WroteUpTo(S, metas, mi, S[metas[mi]].nref, lo, hi, w, writes);
      }
      hide Untouched, DataDistinct, DataApart, WroteUpTo, Writes, InRegion;
      UntouchedTurn(S, jd[..], metas, mi);
      WroteBlock(S, metas, mi, lo, hi, w0, w, writes);
    }

    method Run()
      requires ok && nmr > 0 && Replayable(jd[..])
      modifies jd, `writes, `replayed
      ensures Sized() && Metas() == old(Metas())
      ensures writes == old(writes) +
              Writes(old(jd[..]), Metas(), nmr, 0, Lo(old(jd[..]), Metas()), Hi(old(jd[..]), Metas()))
      ensures replayed
    {
      ghost var S, w0, metas := jd[..], writes, Metas();
      assert mr[nmr - 1] == metas[nmr - 1];
      var complete_boundary, commit_boundary := jd[mr[nmr - 1]].complete_boundary, jd[mr[nmr - 1]].commit_boundary;
      assert Ran(S, 0, complete_boundary, commit_boundary, w0);
      hide Untouched, DataDistinct, DataApart, MetasOk, Writes;
      var mi := 0;
      while mi != nmr
        invariant 0 <= mi <= nmr && Sized() && Metas() == metas
        invariant Ran(S, mi, complete_boundary, commit_boundary, w0)
      {
        hide JournalReplayer.Ran, JournalReplayer.Metas;
        RunMetablock(mi, complete_boundary, commit_boundary, S, w0);
        mi := mi + 1;
      }
      replayed := true;
    }
  }

  /** Metablocks number `mx` and up have been flagged as far as they come before the place `(m, r)`. */
  ghost predicate MarkedFrom(S: Journal, J: Journal, now: Journal, metas: seq<nat>, mx: nat, m: nat, r: nat, bn: nat)
    requires MetasOk(S, metas) && SameLayout(S, J, metas) && m < |metas| && r <= S[metas[m]].nref
  {
    && |now| == |J|
    && (forall x :: 0 <= x < |J| && x !in metas ==> now[x] == J[x])
    && (forall i: nat :: i < |metas| ==>
          Before(S, metas, i, m, r) <= |J[metas[i]].ref|
          && now[metas[i]] == if mx <= i then MarkRefs(J[metas[i]], bn, Before(S, metas, i, m, r)) else J[metas[i]])
  }

  lemma BeforeIs(S: Journal, metas: seq<nat>, i: nat, m: nat, r: nat)
    requires MetasOk(S, metas) && i <= m < |metas| && r <= S[metas[m]].nref
    ensures Before(S, metas, i, m, r) == if i == m then r else S[metas[i]].nref
  {
  }

  lemma MarkNext(S: Journal, J: Journal, now: Journal, metas: seq<nat>, mx: nat, m: nat, r: nat, bn: nat)
    requires MetasOk(S, metas) && SameLayout(S, J, metas) && m < |metas| && r <= S[metas[m]].nref && 0 < mx <= m + 1
    requires MarkedFrom(S, J, now, metas, mx, m, r, bn)
    ensures var x := metas[mx - 1];
            && x < |now| == |J| && now[x] == J[x] && J[x].nref == S[x].nref <= |J[x].ref|
            && Before(S, metas, mx - 1, m, r) <= |now[x].ref|
  {
    hide MarkRefs, Before;
  }

  lemma MarkedMore(S: Journal, J: Journal, now: Journal, now': Journal, metas: seq<nat>, mx: nat, m: nat, r: nat,
      bn: nat)
    requires MetasOk(S, metas) && SameLayout(S, J, metas) && m < |metas| && r <= S[metas[m]].nref && 0 < mx <= m + 1
    requires MarkedFrom(S, J, now, metas, mx, m, r, bn) && metas[mx - 1] < |now|
    requires var x := metas[mx - 1]; var n := Before(S, metas, mx - 1, m, r);
             n <= |now[x].ref| && now' == now[x := MarkRefs(now[x], bn, n)]
    ensures MarkedFrom(S, J, now', metas, mx - 1, m, r, bn)
  {
    hide MarkRefs, Before;
  }

  lemma MarkedBeforeAll(S: Journal, J: Journal, now: Journal, metas: seq<nat>, m: nat, r: nat, bn: nat)
    requires MetasOk(S, metas) && SameLayout(S, J, metas) && m < |metas| && r <= S[metas[m]].nref
    requires MarkedFrom(S, J, now, metas, 0, m, r, bn)
    ensures MarkedBefore(S, J, now, metas, m, r, bn)
  {
    hide MarkRefs;
  }

  // ----- Data blocks met once -----

  /** No two journaled refs of accepted metablocks have the same data block. */
  ghost predicate DataDistinct(S: Journal, metas: seq<nat>)
    requires MetasOk(S, metas)
  {
    forall i: nat, r: nat, j: nat, s: nat ::
      (i < |metas| && r < S[metas[i]].nref && !S[metas[i]].ref[r].Nonjournaled() &&
       j < |metas| && s < S[metas[j]].nref && !S[metas[j]].ref[s].Nonjournaled() &&
       DataIndex(S, metas[i], r) == DataIndex(S, metas[j], s)) ==> i == j && r == s
  }

  /** Replay has come to the place `(mi, r)`: metablocks, and the data of the refs from there on, are as in `S`. */
  ghost predicate Untouched(S: Journal, J: Journal, metas: seq<nat>, mi: nat, r: nat)
    requires MetasOk(S, metas)
  {
    && |J| == |S|
    && (forall i: nat :: i < |metas| ==> J[metas[i]] == S[metas[i]])
    && (forall i: nat, s: nat ::
          i < |metas| && s < S[metas[i]].nref && !S[metas[i]].ref[s].Nonjournaled() &&
          (mi < i || (mi == i && r <= s)) ==>
          J[DataIndex(S, metas[i], s)] == S[DataIndex(S, metas[i], s)])
  }

  /** What was written since `w0` is what the log asks for from the start of metablock `mi` to its ref `r`. */
  ghost predicate WroteUpTo(S: Journal, metas: seq<nat>, mi: nat, r: nat, lo: u16, hi: u16, w0: seq<Write>,
      w: seq<Write>)
    requires MetasOk(S, metas) && mi < |metas| && r <= S[metas[mi]].nref
  {
    w0 <= w && Writes(S, metas, mi, r, lo, hi) == Writes(S, metas, mi, 0, lo, hi) + w[|w0|..]
  }

  lemma WroteBlock(S: Journal, metas: seq<nat>, mi: nat, lo: u16, hi: u16, w0: seq<Write>, w: seq<Write>,
      w': seq<Write>)
    requires MetasOk(S, metas) && mi < |metas| && w0 <= w && Writes(S, metas, mi, 0, lo, hi) == w[|w0|..]
    requires WroteUpTo(S, metas, mi, S[metas[mi]].nref, lo, hi, w, w')
    ensures w0 <= w' && Writes(S, metas, mi + 1, 0, lo, hi) == w'[|w0|..]
  {
    assert w'[|w0|..] == w[|w0|..] + w'[|w|..];
  }

  lemma WroteMore(S: Journal, metas: seq<nat>, mi: nat, r: nat, lo: u16, hi: u16, w0: seq<Write>, w: seq<Write>,
      w': seq<Write>)
    requires MetasOk(S, metas) && mi < |metas| && r < S[metas[mi]].nref
    requires WroteUpTo(S, metas, mi, r, lo, hi, w0, w) && w' == w + RefWrites(S, metas[mi], r, lo, hi)
    ensures WroteUpTo(S, metas, mi, r + 1, lo, hi, w0, w')
  {
    var all := Writes(S, metas, mi, 0, lo, hi);
    assert Writes(S, metas, mi, r + 1, lo, hi) == Writes(S, metas, mi, r, lo, hi) + RefWrites(S, metas[mi], r, lo, hi);
    hide RefWrites, Writes;
    AppendBehind(all, w0, w, RefWrites(S, metas[mi], r, lo, hi));
  }

  lemma AppendBehind<T>(all: seq<T>, w0: seq<T>, w: seq<T>, x: seq<T>)
    requires w0 <= w
    ensures w0 <= w + x && (all + w[|w0|..]) + x == all + (w + x)[|w0|..]
  {
  }

  lemma UntouchedStep(S: Journal, J: Journal, J': Journal, metas: seq<nat>, mi: nat, r: nat)
    requires MetasOk(S, metas) && DataDistinct(S, metas) && DataApart(S, metas)
    requires mi < |metas| && r < S[metas[mi]].nref && Untouched(S, J, metas, mi, r) && |J'| == |J|
    requires J' == J || (!S[metas[mi]].ref[r].Nonjournaled() &&
             J' == J[DataIndex(S, metas[mi], r) := J'[DataIndex(S, metas[mi], r)]])
    ensures Untouched(S, J', metas, mi, r + 1)
  {
  }

  lemma UntouchedTurn(S: Journal, J: Journal, metas: seq<nat>, mi: nat)
    requires MetasOk(S, metas) && mi < |metas| &&
             (Untouched(S, J, metas, mi, S[metas[mi]].nref) || Untouched(S, J, metas, mi, 0))
    ensures Untouched(S, J, metas, mi + 1, 0)
  {
  }

  /** A metablock outside the region writes nothing. */
  lemma {:induction false} NoWrites(S: Journal, metas: seq<nat>, mi: nat, r: nat, lo: u16, hi: u16)
    requires MetasOk(S, metas) && mi < |metas| && r <= S[metas[mi]].nref && !InRegion(lo, hi, S[metas[mi]].tid)
    ensures Writes(S, metas, mi, r, lo, hi) == Writes(S, metas, mi, 0, lo, hi)
  {
    if r > 0 { NoWrites(S, metas, mi, r - 1, lo, hi); }
  }

  lemma DoneInBounds(env: Env, J0: Journal, J: Journal, metas: seq<nat>, ok: bool)
    requires Done(env, J0, J, metas, |J|, ok)
    ensures InBounds(J, metas) && MetasOk(J, metas)
  {
    DataNotMeta(env, J0, J, metas, |J|, ok);
    forall i | 0 <= i < |metas| ensures metas[i] < |J| && HeaderOk(J[metas[i]]) {
      assert metas[i] in metas && Accepted(env, J, metas[i], ok);
    }
  }

  lemma LastOrdered(J: Journal, metas: seq<nat>)
    requires InBounds(J, metas) && metas != [] && AllChecked(J, metas)
    ensures !TidGt(Lo(J, metas), Hi(J, metas))
  {
    assert MetaCheck(J, metas, |metas| - 1);
  }

  lemma CountStep(lo: u16, hi: u16, k: nat)
    requires k <= RegionSize(lo, hi)
    ensures Counted(lo, 0) == lo
    ensures Counted(lo, k) == hi <==> k == RegionSize(lo, hi)
    ensures Counted(lo, k + 1) == Wrap(Counted(lo, k) as int + 1)
  {
  }

  /** The ids counted from `lo` up to `hi` are those the comparisons select. */
  lemma CountedAll(J: Journal, metas: seq<nat>, lo: u16, hi: u16)
    requires InBounds(J, metas) && !TidGt(lo, hi)
    ensures (forall j: nat :: j < RegionSize(lo, hi) ==> TxnOk(J, metas, Counted(lo, j))) <==>
            (forall t: u16 :: InRegion(lo, hi, t) ==> TxnOk(J, metas, t))
  {
    hide TxnOk;
    forall t: u16 ensures InRegion(lo, hi, t) <==> exists j: nat :: j < RegionSize(lo, hi) && Counted(lo, j) == t {
      RegionIsCounted(lo, hi, t);
    }
    hide InRegion, RegionSize, Counted;
  }

  lemma InsertSorted(J: Journal, metas: seq<nat>, x: nat, bi: nat)
    requires Sorted(J, metas) && x <= |metas| && bi < |J| && bi !in metas
    requires forall k :: 0 <= k < x ==> J[metas[k]].seqno <= J[bi].seqno
    requires x < |metas| ==> J[bi].seqno < J[metas[x]].seqno
    ensures Sorted(J, metas[..x] + [bi] + metas[x..])
    ensures forall y :: y in metas[..x] + [bi] + metas[x..] <==> y in metas || y == bi
  {
    var m := metas[..x] + [bi] + metas[x..];
    assert metas == metas[..x] + metas[x..];
    forall i, j | 0 <= i < j < |m| ensures J[m[i]].seqno <= J[m[j]].seqno && m[i] != m[j] {
      InsertedPair(J, metas, x, bi, i, j);
    }
    forall i | 0 <= i < |m| ensures m[i] < |J| {
      if |m| > 1 { InsertedPair(J, metas, x, bi, if i > 0 then 0 else i, if i > 0 then i else 1); }
    }
    hide Sorted;
    SortedIntro(J, m);
  }

  lemma SortedIntro(J: Journal, m: seq<nat>)
    requires forall i :: 0 <= i < |m| ==> m[i] < |J|
    requires forall i, j :: 0 <= i < j < |m| ==> J[m[i]].seqno <= J[m[j]].seqno && m[i] != m[j]
    ensures Sorted(J, m)
  {
  }

  lemma InsertedPair(J: Journal, metas: seq<nat>, x: nat, bi: nat, i: nat, j: nat)
    requires Sorted(J, metas) && x <= |metas| && bi < |J| && bi !in metas
    requires forall k :: 0 <= k < x ==> J[metas[k]].seqno <= J[bi].seqno
    requires x < |metas| ==> J[bi].seqno < J[metas[x]].seqno
    requires i < j <= |metas|
    ensures var m := metas[..x] + [bi] + metas[x..];
            m[i] < |J| && m[j] < |J| && J[m[i]].seqno <= J[m[j]].seqno && m[i] != m[j]
  {
    var a := if i < x then metas[i] else if i == x then bi else metas[i - 1];
    var b := if j < x then metas[j] else if j == x then bi else metas[j - 1];
    assert (metas[..x] + [bi] + metas[x..])[i] == a && (metas[..x] + [bi] + metas[x..])[j] == b;
  }

  /** What checking one more ref means for the journal with the metablock possibly flagged. */
  lemma RefStep(env: Env, J: Journal, bi: nat, marked: bool, r: nat, now: Journal) returns (good: bool)
    requires bi < |J| && r < |J[bi].ref| && now == Flagged(J, bi, marked)
    ensures now[bi].ref == J[bi].ref
    ensures Delta(now[bi], r) == Delta(J[bi], r) && Delta(now[bi], r + 1) == Delta(J[bi], r + 1)
    ensures good == RefGood(env, now, bi, r) && (!marked ==> good == RefGood(env, J, bi, r))
    ensures Flagged(now, bi, !good) == Flagged(J, bi, marked || !good)
  {
    FlaggedDelta(J, bi, marked, r);
    FlaggedDelta(J, bi, marked, r + 1);
    good := RefGood(env, now, bi, r);
    FlaggedTwice(J, bi, marked, !good);
  }

  /** The first `n` refs of the metablock at `bi` have been checked: it is flagged, beyond `bad`, exactly if one of
      them is not good. */
  ghost predicate CheckedTo(env: Env, J: Journal, bi: nat, n: nat, bad: bool, marked: bool)
    requires bi < |J| && n <= |J[bi].ref|
  {
    && (bad ==> marked)
    && (marked && !bad ==> exists r: nat :: r < n && !RefGood(env, J, bi, r))
    && (!marked ==> forall r: nat :: r < n ==> RefGood(env, J, bi, r))
  }

  lemma CheckedStep(env: Env, J: Journal, bi: nat, n: nat, bad: bool, marked: bool, marked': bool)
    requires bi < |J| && n < |J[bi].ref| && CheckedTo(env, J, bi, n, bad, marked)
    requires marked ==> marked'
    requires !marked ==> marked' == !RefGood(env, J, bi, n)
    ensures CheckedTo(env, J, bi, n + 1, bad, marked')
    ensures Reach(J, bi, n + 1) <==> Reach(J, bi, n) && (J[bi].ref[n].Nonjournaled() || Delta(J[bi], n) < |J|)
  {
  }

  lemma NotPotential(env: Env, J: Journal, x: nat)
    requires x < |J| && !Potential(env, J[x])
    ensures !GoodMetablock(env, J, x)
  {
  }

  lemma ReachNone(env: Env, J0: Journal)
    ensures AllReach(env, J0, 0)
  {
  }

  lemma ReachStep(env: Env, J0: Journal, n: nat)
    requires n < |J0|
    ensures AllReach(env, J0, n + 1) <==> AllReach(env, J0, n) && BlockReaches(env, J0, n)
  {
  }

  lemma PastStep(env: Env, J: Journal, x: nat, r: nat)
    requires x < |J| && |J[x].ref| <= r
    ensures PastDelta(env, J[x], x, r + 1) ==
            PastDelta(env, J[x], x, r) + (if env.past(x, r).Nonjournaled() then 0 else 1)
    ensures PastReach(env, J, x, r + 1) <==>
              PastReach(env, J, x, r) && (env.past(x, r).Nonjournaled() || PastDelta(env, J[x], x, r) < |J|)
  {
  }

  /** A metablock completing its transaction is itself out of place. */
  lemma CompletedIsMisplaced(J: Journal, metas: seq<nat>, t: u16, n: nat)
    requires InBounds(J, metas) && n <= |metas| && Completed(J, metas, t, n)
    ensures exists j: nat :: j < n && !PlaceOk(J, metas, t, j)
  {
    var j: nat :| j < n && Own(J, metas, t, j) && Meta(J, metas, j).Completes(t);
    assert !PlaceOk(J, metas, t, j);
  }
}
