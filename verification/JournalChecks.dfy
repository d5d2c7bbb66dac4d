/** The checks on metablocks and on transactions. */
module JournalChecks {
  import opened JournalFormat
  import opened JournalReplay
  import opened JournalAnalysis

  ghost predicate InBounds(J: Journal, metas: seq<nat>) {
    forall i :: 0 <= i < |metas| ==> metas[i] < |J| && HeaderOk(J[metas[i]])
  }

  /** Metablock number `mi`. */
  function Meta(J: Journal, metas: seq<nat>, mi: nat): Block
    requires mi < |metas| && metas[mi] < |J|
  {
    J[metas[mi]]
  }

  /** A metablock against the one before it. */
  predicate PairCheck(last: Block, cur: Block) {
    && cur.seqno != last.seqno
    && !TidLt(cur.commit_boundary, last.commit_boundary)
    && !TidLt(cur.complete_boundary, last.complete_boundary)
    && !(cur.nref != 0 && TidLt(cur.tid, last.commit_boundary))
  }

  /** A metablock by itself. */
  predicate SelfCheck(cur: Block) {
    && !TidGt(cur.complete_boundary, cur.commit_boundary)
    && !(cur.nref != 0 && TidLt(cur.tid, cur.complete_boundary))
    && !(cur.Has(JF_COMPLETE) && TidGe(cur.tid, cur.complete_boundary))
    && !(cur.Has(JF_COMMIT) && TidGe(cur.tid, cur.commit_boundary))
  }

  predicate MetaCheck(J: Journal, metas: seq<nat>, mi: nat)
    requires mi < |metas| && metas[mi] < |J| && (mi > 0 ==> metas[mi - 1] < |J|)
  {
    && (mi > 0 ==> PairCheck(Meta(J, metas, mi - 1), Meta(J, metas, mi)))
    && SelfCheck(Meta(J, metas, mi))
  }

  /** The sorted list, once checked for duplicates, is strictly increasing. */
  lemma {:induction false} StrictlyIncreasing(J: Journal, metas: seq<nat>, i: nat, j: nat)
    requires Sorted(J, metas) && i < j < |metas|
    requires forall mi: nat :: mi < |metas| ==> MetaCheck(J, metas, mi)
    ensures Meta(J, metas, i).seqno < Meta(J, metas, j).seqno
  {
    assert MetaCheck(J, metas, j);
    if i < j - 1 { StrictlyIncreasing(J, metas, i, j - 1); }
  }

  // ----- One transaction -----

  predicate Own(J: Journal, metas: seq<nat>, t: u16, mi: nat)
    requires mi < |metas| && metas[mi] < |J|
  {
    Meta(J, metas, mi).tid == t
  }

  ghost predicate Seen(J: Journal, metas: seq<nat>, t: u16, n: nat)
    requires InBounds(J, metas) && n <= |metas|
  {
    exists j: nat :: j < n && Own(J, metas, t, j)
  }

  ghost predicate Committed(J: Journal, metas: seq<nat>, t: u16, n: nat)
    requires InBounds(J, metas) && n <= |metas|
  {
    exists j: nat :: j < n && Own(J, metas, t, j) && Meta(J, metas, j).Commits(t)
  }

  ghost predicate Completed(J: Journal, metas: seq<nat>, t: u16, n: nat)
    requires InBounds(J, metas) && n <= |metas|
  {
    exists j: nat :: j < n && Own(J, metas, t, j) && Meta(J, metas, j).Completes(t)
  }

  /** Metablock `mi` is where transaction `t` allows it to be: no sequence number is missing between the start of `t`
      and its commit, and metablocks of `t` start, continue and stop it in order. */
  ghost predicate PlaceOk(J: Journal, metas: seq<nat>, t: u16, mi: nat)
    requires InBounds(J, metas) && mi < |metas|
  {
    var b := Meta(J, metas, mi);
    && (Seen(J, metas, t, mi) && !Committed(J, metas, t, mi) ==> b.seqno == Wrap(Meta(J, metas, mi - 1).seqno + 1))
    && (Own(J, metas, t, mi) ==>
          && (b.Has(JF_START) <==> !Seen(J, metas, t, mi))
          && (Committed(J, metas, t, mi) ==> b.nref == 0)
          && !b.Completes(t))
  }

  ghost predicate TxnOk(J: Journal, metas: seq<nat>, t: u16)
    requires InBounds(J, metas)
  {
    (forall mi: nat :: mi < |metas| ==> PlaceOk(J, metas, t, mi)) && Committed(J, metas, t, |metas|)
  }

  /** The shape of an accepted transaction: its first metablock `f` is its only start, its first committing metablock
      is `c`, everything from `f` to `c` is in the log without a gap, data stops at `c`, and it is not complete. */
  ghost predicate Shaped(J: Journal, metas: seq<nat>, t: u16, f: nat, c: nat)
    requires InBounds(J, metas)
  {
    && f <= c < |metas| && Own(J, metas, t, f) && Own(J, metas, t, c)
    && (forall j: nat :: j < |metas| && Own(J, metas, t, j) ==>
          f <= j && (Meta(J, metas, j).Has(JF_START) <==> j == f)
          && (Meta(J, metas, j).Commits(t) ==> c <= j)
          && (j > c ==> Meta(J, metas, j).nref == 0)
          && !Meta(J, metas, j).Completes(t))
    && Meta(J, metas, c).Commits(t)
    && (forall j: nat :: f < j <= c ==> Meta(J, metas, j).seqno == Wrap(Meta(J, metas, j - 1).seqno + 1))
  }

  lemma {:induction false} LeastOwn(J: Journal, metas: seq<nat>, t: u16, n: nat) returns (f: nat)
    requires InBounds(J, metas) && n <= |metas| && Seen(J, metas, t, n)
    ensures f < n && Own(J, metas, t, f) && !Seen(J, metas, t, f)
  {
    if Seen(J, metas, t, n - 1) { f := LeastOwn(J, metas, t, n - 1); } else { f := n - 1; }
  }

  lemma {:induction false} LeastCommit(J: Journal, metas: seq<nat>, t: u16, n: nat) returns (c: nat)
    requires InBounds(J, metas) && n <= |metas| && Committed(J, metas, t, n)
    ensures c < n && Own(J, metas, t, c) && Meta(J, metas, c).Commits(t) && !Committed(J, metas, t, c)
  {
    if Committed(J, metas, t, n - 1) { c := LeastCommit(J, metas, t, n - 1); } else { c := n - 1; }
  }

  /** The place-by-place check accepts exactly the transactions of that shape. */
  lemma TxnOkIffShaped(J: Journal, metas: seq<nat>, t: u16)
    requires InBounds(J, metas)
    ensures TxnOk(J, metas, t) <==> exists f: nat, c: nat :: Shaped(J, metas, t, f, c)
  {
    if TxnOk(J, metas, t) {
      var c := LeastCommit(J, metas, t, |metas|);
      var f := LeastOwn(J, metas, t, |metas|);
      OkIsShaped(J, metas, t, f, c);
    }
    if f: nat, c: nat :| Shaped(J, metas, t, f, c) {
      forall mi: nat | mi < |metas| ensures PlaceOk(J, metas, t, mi) {
        ShapedIsOk(J, metas, t, f, c, mi);
      }
    }
  }

  lemma OkIsShaped(J: Journal, metas: seq<nat>, t: u16, f: nat, c: nat)
    requires InBounds(J, metas) && TxnOk(J, metas, t) && f < |metas| && c < |metas|
    requires Own(J, metas, t, f) && !Seen(J, metas, t, f)
    requires Own(J, metas, t, c) && Meta(J, metas, c).Commits(t) && !Committed(J, metas, t, c)
    ensures Shaped(J, metas, t, f, c)
  {
    hide Block.Commits, Block.Completes, Block.Has;
    forall j: nat | j < |metas| && Own(J, metas, t, j)
      ensures f <= j && (Meta(J, metas, j).Has(JF_START) <==> j == f)
          && (Meta(J, metas, j).Commits(t) ==> c <= j)
          && (j > c ==> Meta(J, metas, j).nref == 0)
          && !Meta(J, metas, j).Completes(t)
    {
      assert PlaceOk(J, metas, t, j);
    }
    forall j: nat | f < j <= c ensures Meta(J, metas, j).seqno == Wrap(Meta(J, metas, j - 1).seqno + 1) {
      assert PlaceOk(J, metas, t, j);
    }
  }

  lemma ShapedIsOk(J: Journal, metas: seq<nat>, t: u16, f: nat, c: nat, mi: nat)
    requires InBounds(J, metas) && Shaped(J, metas, t, f, c) && mi < |metas|
    ensures PlaceOk(J, metas, t, mi)
  {
    hide Block.Commits, Block.Completes, Block.Has;
    assert Seen(J, metas, t, mi) <==> f < mi;
    assert Committed(J, metas, t, mi) <==> c < mi;
  }

  // ----- The scan that decides it -----

  /** Flags gathered from the metablocks of `t` among the first `n`. */
  ghost predicate Scanned(J: Journal, metas: seq<nat>, t: u16, n: nat, flags: bv16)
    requires InBounds(J, metas) && n <= |metas|
  {
    && (flags != 0 <==> Seen(J, metas, t, n))
    && (Flag(flags, JF_COMMIT) <==> Committed(J, metas, t, n))
    && (Flag(flags, JF_COMPLETE) <==> Completed(J, metas, t, n))
  }

  function OwnFlags(b: Block, t: u16): bv16 {
    var f := b.flags;
    var g := if TidGt(b.commit_boundary, t) then f | JF_COMMIT else f;
    if TidGt(b.complete_boundary, t) then g | JF_COMPLETE else g
  }

  lemma OrCommit(f: bv16)
    ensures (f | 0x20) & 0x20 != 0 && (f | 0x20) & 0x40 == f & 0x40 && (f | 0x20) & 0x10 == f & 0x10 && f | 0x20 != 0
  {
  }

  lemma OrComplete(f: bv16)
    ensures (f | 0x40) & 0x40 != 0 && (f | 0x40) & 0x20 == f & 0x20 && (f | 0x40) & 0x10 == f & 0x10 && f | 0x40 != 0
  {
  }

  lemma OwnFlagBits(b: Block, t: u16)
    requires HeaderOk(b)
    ensures OwnFlags(b, t) != 0
    ensures Flag(OwnFlags(b, t), JF_START) <==> b.Has(JF_START)
    ensures Flag(OwnFlags(b, t), JF_COMMIT) <==> b.Commits(t)
    ensures Flag(OwnFlags(b, t), JF_COMPLETE) <==> b.Completes(t)
  {
    var f := b.flags;
    OrCommit(f);
    OrComplete(f);
    OrComplete(f | 0x20);
    assert f & 0x01 != 0 ==> f != 0;
    hide TidGt;
  }

  lemma UnionBits(f: bv16, g: bv16)
    ensures Flag(With(f, g), JF_COMMIT) <==> Flag(f, JF_COMMIT) || Flag(g, JF_COMMIT)
    ensures Flag(With(f, g), JF_COMPLETE) <==> Flag(f, JF_COMPLETE) || Flag(g, JF_COMPLETE)
    ensures g != 0 ==> With(f, g) != 0
  {
  }

  lemma ScanStep(J: Journal, metas: seq<nat>, t: u16, n: nat, flags: bv16)
    requires InBounds(J, metas) && n < |metas| && Scanned(J, metas, t, n, flags)
    ensures Scanned(J, metas, t, n + 1,
                    if Own(J, metas, t, n) then With(flags, OwnFlags(Meta(J, metas, n), t)) else flags)
  {
    var b := Meta(J, metas, n);
    OwnFlagBits(b, t);
    UnionBits(flags, OwnFlags(b, t));
    hide OwnFlags, Flag, With;
    assert Seen(J, metas, t, n + 1) <==> Seen(J, metas, t, n) || Own(J, metas, t, n);
    assert Committed(J, metas, t, n + 1) <==> Committed(J, metas, t, n) || (Own(J, metas, t, n) && b.Commits(t));
    assert Completed(J, metas, t, n + 1) <==> Completed(J, metas, t, n) || (Own(J, metas, t, n) && b.Completes(t));
  }

  // ----- Acceptance -----

  /** First id not complete, and first id not committed: the boundaries in the last metablock. */
  function Lo(J: Journal, metas: seq<nat>): u16
    requires metas != [] && metas[|metas| - 1] < |J|
  {
    Meta(J, metas, |metas| - 1).complete_boundary
  }

  function Hi(J: Journal, metas: seq<nat>): u16
    requires metas != [] && metas[|metas| - 1] < |J|
  {
    Meta(J, metas, |metas| - 1).commit_boundary
  }

  ghost predicate AllChecked(J: Journal, metas: seq<nat>)
    requires InBounds(J, metas)
  {
    forall mi: nat :: mi < |metas| ==> MetaCheck(J, metas, mi)
  }

  /** What `analyze` demands of the list of metablocks that survive the block-by-block checks. */
  ghost predicate Acceptable(J: Journal, metas: seq<nat>)
    requires InBounds(J, metas)
  {
    && metas != []
    && AllChecked(J, metas)
    && forall t: u16 :: InRegion(Lo(J, metas), Hi(J, metas), t) ==> TxnOk(J, metas, t)
  }

  /** Boundaries of a list of metablocks: each is not below the one before, data is never of a transaction that an
      earlier metablock committed or its own completed, and the two boundaries of a metablock are in order and above
      what it commits or completes itself. */
  ghost predicate Bounded(J: Journal, metas: seq<nat>)
    requires InBounds(J, metas)
  {
    && (forall i: nat :: i + 1 < |metas| ==> Grows(Meta(J, metas, i), Meta(J, metas, i + 1)))
    && (forall i: nat :: i < |metas| ==> InOrder(Meta(J, metas, i)))
  }

  predicate Grows(a: Block, b: Block) {
    && TidDiff(b.commit_boundary, a.commit_boundary) >= 0
    && TidDiff(b.complete_boundary, a.complete_boundary) >= 0
    && (b.nref > 0 ==> TidDiff(b.tid, a.commit_boundary) >= 0)
  }

  predicate InOrder(b: Block) {
    && TidDiff(b.complete_boundary, b.commit_boundary) <= 0
    && (b.nref > 0 ==> TidDiff(b.tid, b.complete_boundary) >= 0)
    && (b.Has(JF_COMPLETE) ==> TidDiff(b.tid, b.complete_boundary) < 0)
    && (b.Has(JF_COMMIT) ==> TidDiff(b.tid, b.commit_boundary) < 0)
  }

  ghost predicate Increasing(J: Journal, metas: seq<nat>)
    requires InBounds(J, metas)
  {
    forall i: nat, j: nat :: i < j < |metas| ==> Meta(J, metas, i).seqno < Meta(J, metas, j).seqno
  }

  lemma CheckedIffBounded(J: Journal, metas: seq<nat>)
    requires InBounds(J, metas) && Sorted(J, metas)
    ensures AllChecked(J, metas) <==> Increasing(J, metas) && Bounded(J, metas)
  {
    if AllChecked(J, metas) {
      forall i: nat, j: nat | i < j < |metas| ensures Meta(J, metas, i).seqno < Meta(J, metas, j).seqno {
        StrictlyIncreasing(J, metas, i, j);
      }
      hide TidDiff;
      forall i: nat | i + 1 < |metas| ensures Grows(Meta(J, metas, i), Meta(J, metas, i + 1)) {
        assert MetaCheck(J, metas, i + 1);
      }
      forall i: nat | i < |metas| ensures InOrder(Meta(J, metas, i)) {
        assert MetaCheck(J, metas, i);
      }
    }
    if Increasing(J, metas) && Bounded(J, metas) {
      hide TidDiff;
      forall mi: nat | mi < |metas| ensures MetaCheck(J, metas, mi) {
        if mi > 0 {
          var i: nat := mi - 1;
          assert Grows(Meta(J, metas, i), Meta(J, metas, i + 1));
        }
        assert InOrder(Meta(J, metas, mi));
      }
    }
  }

  /** A journal is accepted exactly if it has metablocks, strictly ordered by sequence number, with boundaries in
      order, and every transaction between the two final boundaries is wholly in the log, started once, committed and
      not complete. */
  lemma AcceptableMeans(J: Journal, metas: seq<nat>)
    requires InBounds(J, metas) && Sorted(J, metas)
    ensures Acceptable(J, metas) <==>
              && metas != [] && Increasing(J, metas) && Bounded(J, metas)
              && forall t: u16 :: InRegion(Lo(J, metas), Hi(J, metas), t) ==>
                   exists f: nat, c: nat :: Shaped(J, metas, t, f, c)
  {
    CheckedIffBounded(J, metas);
    hide AllChecked, Increasing, Bounded, TxnOk, Shaped, InRegion;
    forall t: u16 ensures TxnOk(J, metas, t) <==> exists f: nat, c: nat :: Shaped(J, metas, t, f, c) {
      TxnOkIffShaped(J, metas, t);
    }
  }
}
