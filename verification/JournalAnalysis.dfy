/** Which blocks of a journal are accepted as metablocks, and what acceptance guarantees. */
module JournalAnalysis {
  import opened JournalFormat
  import opened JournalReplay
  import opened Util

  /** What the analysis finds besides the journal: the checksums of a block from its sequence number on and of a whole
      block, and the refs read behind block `x` when it claims more than it holds: from ref number 339 on. */
  datatype Env = Env(tail: Block -> nat, whole: Block -> nat, past: (nat, nat) -> Ref)

  predicate Potential(env: Env, b: Block) {
    b.magic == JOURNALMAGIC && (b.checksum == NOCHECKSUM || b.checksum == env.tail(b))
  }

  function MarkError(b: Block): Block { b.(flags := b.flags | JF_ERROR) }

  lemma ErrorBits(f: bv16)
    ensures (f | 0x02) & 0x02 != 0
    ensures f & 0x06 == 0 ==> f & 0x02 == 0
    ensures f & 0x02 != 0 <==> f | 0x02 == f
    ensures (f | 0x02) | 0x02 == f | 0x02
  {
  }

  lemma MarkedHasError(b: Block)
    ensures MarkError(b).Has(JF_ERROR)
    ensures MarkError(MarkError(b)) == MarkError(b)
    ensures MarkError(b) == b <==> b.Has(JF_ERROR)
  {
    var f := b.flags;
    ErrorBits(f);
    assert MarkError(b).flags == f | 0x02;
    assert b.Has(JF_ERROR) <==> f & 0x02 != 0;
    assert MarkError(b).Has(JF_ERROR) <==> (f | 0x02) & 0x02 != 0;
    hide Block.Has;
  }

  /** The journal with the metablock at `bi` flagged, or not. */
  function Flagged(J: Journal, bi: nat, marked: bool): (r: Journal)
    requires bi < |J|
    ensures |r| == |J|
  {
    if marked then J[bi := MarkError(J[bi])] else J
  }

  lemma FlaggedTwice(J: Journal, bi: nat, m: bool, n: bool)
    requires bi < |J|
    ensures Flagged(Flagged(J, bi, m), bi, n) == Flagged(J, bi, m || n)
    ensures Flagged(J, bi, m)[bi].ref == J[bi].ref
  {
    MarkedHasError(J[bi]);
  }

  predicate HeaderOk(b: Block) {
    !b.Has(JF_ERROR | JF_CORRUPT) && b.Has(JF_META) && b.nref <= REF_SIZE
  }

  lemma HeaderHasNoError(b: Block)
    requires HeaderOk(b)
    ensures !b.Has(JF_ERROR)
  {
    ErrorBits(b.flags);
  }

  /** The data block of a journaled ref, `delta` blocks on from block `x`, is no metablock and has the checksum the
      ref records. */
  predicate DatumGood(env: Env, J: Journal, x: nat, ref: Ref, delta: nat)
    requires x < |J|
  {
    ref.Nonjournaled() ||
    var y := Onward(|J|, x, delta);
    !Potential(env, J[y]) && (ref.bchecksum == NOCHECKSUM || ref.bchecksum == env.whole(J[y]))
  }

  predicate RefGood(env: Env, J: Journal, x: nat, r: nat)
    requires x < |J| && r < |J[x].ref|
  {
    DatumGood(env, J, x, J[x].ref[r], Delta(J[x], r))
  }

  /** The data blocks of the first `n` refs do not go around the journal. */
  ghost predicate Reach(J: Journal, x: nat, n: nat)
    requires x < |J| && n <= |J[x].ref|
  {
    forall r: nat :: r < n && !J[x].ref[r].Nonjournaled() ==> Delta(J[x], r) < |J|
  }

  /** The offset of ref `r`, which may be read behind the block. */
  function PastDelta(env: Env, b: Block, x: nat, r: nat): nat {
    if r <= |b.ref| then Delta(b, r)
    else PastDelta(env, b, x, r - 1) + (if env.past(x, r - 1).Nonjournaled() then 0 else 1)
  }

  ghost predicate PastReach(env: Env, J: Journal, x: nat, n: nat)
    requires x < |J|
  {
    forall r: nat :: |J[x].ref| <= r < n && !env.past(x, r).Nonjournaled() ==> PastDelta(env, J[x], x, r) < |J|
  }

  ghost predicate BlockReaches(env: Env, J: Journal, x: nat)
    requires x < |J|
  {
    Potential(env, J[x]) ==> Reach(J, x, Min(J[x].nref, |J[x].ref|)) && PastReach(env, J, x, J[x].nref)
  }

  /** No potential metablock among the first `n` blocks has more data blocks than fit. */
  ghost predicate AllReach(env: Env, J: Journal, n: nat)
    requires n <= |J|
  {
    forall x: nat :: x < n ==> BlockReaches(env, J, x)
  }

  ghost predicate Shape(J: Journal) {
    forall x :: 0 <= x < |J| ==> |J[x].ref| == REF_SIZE
  }

  ghost predicate Sorted(J: Journal, metas: seq<nat>) {
    && (forall i :: 0 <= i < |metas| ==> metas[i] < |J|)
    && forall i, j :: 0 <= i < j < |metas| ==> J[metas[i]].seqno <= J[metas[j]].seqno && metas[i] != metas[j]
  }

  /** State of the analysis after the first `n` blocks: `J0` as loaded, `J` as it is now. */
  ghost predicate Done(env: Env, J0: Journal, J: Journal, metas: seq<nat>, n: nat, ok: bool) {
    && |J| == |J0| && n <= |J0|
    && (forall x :: 0 <= x < |J0| ==> BlockDone(env, J0, J, metas, n, x))
    && Sorted(J, metas)
    && (forall x :: x in metas ==> x < n && Accepted(env, J, x, ok))
    && (forall x: nat :: x < n && Potential(env, J0[x]) ==> x in metas || J[x] == MarkError(J0[x]))
    && (forall x: nat :: x < n && GoodMetablock(env, J0, x) ==> x in metas)
  }

  ghost predicate BlockDone(env: Env, J0: Journal, J: Journal, metas: seq<nat>, n: nat, x: nat)
    requires x < |J0| == |J|
  {
    && (J[x] == J0[x] || (x < n && Potential(env, J0[x]) && x !in metas && J[x] == MarkError(J0[x])))
    && (x in metas ==> Potential(env, J0[x]))
  }

  ghost predicate Accepted(env: Env, J: Journal, x: nat, ok: bool)
    requires x < |J|
  {
    && HeaderOk(J[x]) && |J[x].ref| == REF_SIZE
    && (forall r: nat :: r < J[x].nref ==> RefGood(env, J, x, r))
    && (ok ==> Reach(J, x, J[x].nref))
  }

  /** A metablock whose header and data are in order in the journal as loaded. */
  ghost predicate GoodMetablock(env: Env, J0: Journal, x: nat)
    requires x < |J0|
  {
    && Potential(env, J0[x]) && HeaderOk(J0[x]) && J0[x].RefsFit()
    && forall r: nat :: r < J0[x].nref ==> RefGood(env, J0, x, r)
  }

  // ----- What the analysis finds, as a function of the journal -----

  /** The journal after its first `n` blocks: each metablock that is not good by then is flagged. */
  ghost function Analyzed(env: Env, J0: Journal, n: nat): (J: Journal)
    requires n <= |J0|
    ensures |J| == |J0|
  {
    if n == 0 then J0
    else
      var J := Analyzed(env, J0, n - 1);
      if Potential(env, J[n - 1]) && !GoodMetablock(env, J, n - 1) then J[n - 1 := MarkError(J[n - 1])] else J
  }

  /** Block `x` is a good metablock once those before it are analyzed. */
  ghost predicate Taken(env: Env, J0: Journal, x: nat)
    requires x < |J0|
  {
    GoodMetablock(env, Analyzed(env, J0, x), x)
  }

  ghost predicate Follows(env: Env, J0: Journal, J: Journal, metas: seq<nat>, n: nat) {
    && n <= |J0| && J == Analyzed(env, J0, n)
    && forall x: nat :: x in metas <==> x < n && Taken(env, J0, x)
  }

  lemma FollowsStep(env: Env, J0: Journal, J: Journal, metas: seq<nat>, metas': seq<nat>, bi: nat)
    requires Follows(env, J0, J, metas, bi) && bi < |J0|
    requires if GoodMetablock(env, J, bi) then forall x: nat :: x in metas' <==> x in metas || x == bi
             else metas' == metas
    ensures var bad := Potential(env, J[bi]) && !GoodMetablock(env, J, bi);
            Follows(env, J0, if bad then J[bi := MarkError(J[bi])] else J, metas', bi + 1)
  {
    hide GoodMetablock;
  }

  /** Blocks in sequence order without repetition are determined by which they are. */
  lemma {:induction false} SameList(J: Journal, a: seq<nat>, b: seq<nat>)
    requires Sorted(J, a) && Sorted(J, b) && forall x: nat :: x in a <==> x in b
    requires forall i, j :: 0 <= i < j < |a| ==> J[a[i]].seqno != J[a[j]].seqno
    ensures a == b
  {
    assert a != [] ==> a[|a| - 1] in b;
    assert b != [] ==> b[|b| - 1] in a;
    if a != [] && b != [] {
      LastIsSame(J, a, b);
      WithoutLast(J, a);
      WithoutLast(J, b);
      var a', b' := a[..|a| - 1], b[..|b| - 1];
      forall z: nat ensures z in a' <==> z in b' { assert z in a <==> z in b; }
      hide Sorted;
      SameList(J, a', b');
    }
  }

  lemma LastIsSame(J: Journal, a: seq<nat>, b: seq<nat>)
    requires Sorted(J, a) && Sorted(J, b) && a != [] && b != [] && b[|b| - 1] in a && a[|a| - 1] in b
    requires forall i, j :: 0 <= i < j < |a| ==> J[a[i]].seqno != J[a[j]].seqno
    ensures a[|a| - 1] == b[|b| - 1]
  {
  }

  lemma WithoutLast(J: Journal, a: seq<nat>)
    requires Sorted(J, a) && a != []
    ensures Sorted(J, a[..|a| - 1]) && forall z: nat :: z in a[..|a| - 1] <==> z in a && z != a[|a| - 1]
  {
  }

  /** Accepted metablocks and the data blocks of accepted metablocks never coincide. */
  lemma DataNotMeta(env: Env, J0: Journal, J: Journal, metas: seq<nat>, n: nat, ok: bool)
    requires Done(env, J0, J, metas, n, ok)
    ensures MetasOk(J, metas) && DataApart(J, metas)
  {
    forall i | 0 <= i < |metas| ensures J[metas[i]].RefsFit() {
      assert metas[i] in metas && Accepted(env, J, metas[i], ok);
    }
    forall i: nat, r: nat | i < |metas| && r < J[metas[i]].nref && !J[metas[i]].ref[r].Nonjournaled()
      ensures DataIndex(J, metas[i], r) !in metas
    {
      var y := DataIndex(J, metas[i], r);
      assert metas[i] in metas && Accepted(env, J, metas[i], ok) && RefGood(env, J, metas[i], r);
      assert BlockDone(env, J0, J, metas, n, y);
    }
  }

  /** The data block of an accepted metablock is unchanged from the journal as loaded exactly when it did not look
      like a metablock without the error flag. */
  lemma DataIntact(env: Env, J0: Journal, J: Journal, metas: seq<nat>, ok: bool, i: nat, r: nat)
    requires Done(env, J0, J, metas, |J0|, ok)
    requires i < |metas| && r < J[metas[i]].nref && r < |J[metas[i]].ref| && !J[metas[i]].ref[r].Nonjournaled()
    ensures var y := DataIndex(J, metas[i], r);
            J[y] == J0[y] <==> !(Potential(env, J0[y]) && !J0[y].Has(JF_ERROR))
  {
    var y := DataIndex(J, metas[i], r);
    assert metas[i] in metas && Accepted(env, J, metas[i], ok) && RefGood(env, J, metas[i], r);
    assert BlockDone(env, J0, J, metas, |J0|, y);
    MarkedHasError(J0[y]);
  }

  lemma {:induction false} DeltaStep(b: Block, r: nat, s: nat)
    requires r < s <= |b.ref| && !b.ref[r].Nonjournaled()
    ensures Delta(b, r) < Delta(b, s)
  {
    if s > r + 1 { DeltaStep(b, r, s - 1); }
  }

  lemma DeltaInjective(b: Block, r: nat, s: nat)
    requires r < |b.ref| && s < |b.ref| && !b.ref[r].Nonjournaled() && !b.ref[s].Nonjournaled()
    requires Delta(b, r) == Delta(b, s)
    ensures r == s
  {
    if r < s { DeltaStep(b, r, s); }
    if s < r { DeltaStep(b, s, r); }
  }

  /** Every offset below that of a ref belongs to an earlier journaled ref. */
  lemma {:induction false} DeltaOnto(b: Block, r: nat, d: nat) returns (s: nat)
    requires r <= |b.ref| && 1 <= d < Delta(b, r)
    ensures s < r && !b.ref[s].Nonjournaled() && Delta(b, s) == d
  {
    if Delta(b, r - 1) == d { s := r - 1; } else { s := DeltaOnto(b, r - 1, d); }
  }

  /** No accepted metablock lies between another one and its last data block. */
  lemma NotInside(J: Journal, metas: seq<nat>, i: nat, r: nat, e: nat)
    requires MetasOk(J, metas) && DataApart(J, metas)
    requires i < |metas| && r < J[metas[i]].nref && 1 <= e < Delta(J[metas[i]], r)
    ensures Onward(|J|, metas[i], Delta(J[metas[i]], r) - e) !in metas
  {
    var k := DeltaOnto(J[metas[i]], r, Delta(J[metas[i]], r) - e);
    assert DataIndex(J, metas[i], k) !in metas;
  }

  /** The data blocks of the accepted metablocks are pairwise distinct. */
  lemma DataDisjoint(env: Env, J0: Journal, J: Journal, metas: seq<nat>, i: nat, r: nat, j: nat, s: nat)
    requires Done(env, J0, J, metas, |J0|, true) && i < |metas| && j < |metas|
    requires |J[metas[i]].ref| == |J[metas[j]].ref| == REF_SIZE
    requires r < J[metas[i]].nref && r < REF_SIZE && !J[metas[i]].ref[r].Nonjournaled()
    requires s < J[metas[j]].nref && s < REF_SIZE && !J[metas[j]].ref[s].Nonjournaled()
    requires DataIndex(J, metas[i], r) == DataIndex(J, metas[j], s)
    ensures i == j && r == s
  {
    var a, b := metas[i], metas[j];
    assert a in metas && b in metas && Accepted(env, J, a, true) && Accepted(env, J, b, true);
    DataNotMeta(env, J0, J, metas, |J0|, true);
    hide Done, Accepted;
    ApartIsDisjoint(J, metas, i, r, j, s);
  }

  lemma ApartIsDisjoint(J: Journal, metas: seq<nat>, i: nat, r: nat, j: nat, s: nat)
    requires MetasOk(J, metas) && DataApart(J, metas) && i < |metas| && j < |metas|
    requires r < J[metas[i]].nref && !J[metas[i]].ref[r].Nonjournaled() && Delta(J[metas[i]], r) < |J|
    requires s < J[metas[j]].nref && !J[metas[j]].ref[s].Nonjournaled() && Delta(J[metas[j]], s) < |J|
    requires DataIndex(J, metas[i], r) == DataIndex(J, metas[j], s)
    ensures i == j && r == s
  {
    hide Onward, Delta, DataApart;
    NotFurther(J, metas, i, r, j, s);
    NotFurther(J, metas, j, s, i, r);
    SameBase(|J|, metas[i], metas[j], Delta(J[metas[i]], r));
    hide *;
    DeltaInjective(J[metas[i]], r, s);
  }

  /** Two refs with the same data block: neither is further from its metablock. */
  lemma NotFurther(J: Journal, metas: seq<nat>, i: nat, r: nat, j: nat, s: nat)
    requires MetasOk(J, metas) && DataApart(J, metas) && i < |metas| && j < |metas|
    requires r < J[metas[i]].nref && Delta(J[metas[i]], r) < |J|
    requires s < J[metas[j]].nref && Delta(J[metas[j]], s) < |J|
    requires DataIndex(J, metas[i], r) == DataIndex(J, metas[j], s)
    ensures Delta(J[metas[i]], r) <= Delta(J[metas[j]], s)
  {
    hide Onward, Delta, DataApart;
    var d, e := Delta(J[metas[i]], r), Delta(J[metas[j]], s);
    assert Onward(|J|, metas[i], d) == Onward(|J|, metas[j], e) && metas[j] in metas;
    hide *;
    if d > e {
      NotInside(J, metas, i, r, e);
      Shift(|J|, metas[i], d, metas[j], e);
    }
  }

  lemma SameBase(nb: nat, a: nat, b: nat, d: nat)
    requires a < nb && b < nb && d < nb && Onward(nb, a, d) == Onward(nb, b, d)
    ensures a == b
  {
    Around(nb, a, d);
    Around(nb, b, d);
  }

  lemma Shift(nb: nat, a: nat, d: nat, b: nat, e: nat)
    requires a < nb && b < nb && e < d < nb && Onward(nb, a, d) == Onward(nb, b, e)
    ensures Onward(nb, a, d - e) == b
  {
    Around(nb, a, d);
    Around(nb, b, e);
    Around(nb, a, d - e);
  }

  /** Going around at most once. */
  lemma Around(nb: nat, a: nat, d: nat)
    requires a < nb && d < nb
    ensures Onward(nb, a, d) == if a + d < nb then a + d else a + d - nb
  {
  }

  // ----- One more block analyzed -----

  lemma SkipStep(env: Env, J0: Journal, J: Journal, metas: seq<nat>, bi: nat, ok: bool)
    requires Done(env, J0, J, metas, bi, ok) && bi < |J0| && !Potential(env, J0[bi])
    ensures Done(env, J0, J, metas, bi + 1, ok)
  {
    var n := bi + 1;
    forall x | 0 <= x < |J0| ensures BlockDone(env, J0, J, metas, n, x) {
      assert BlockDone(env, J0, J, metas, bi, x);
    }
  }

  lemma RejectStep(env: Env, J0: Journal, J: Journal, metas: seq<nat>, bi: nat, ok: bool, ok': bool)
    requires Done(env, J0, J, metas, bi, ok) && bi < |J0| && Potential(env, J0[bi])
    requires (ok' ==> ok) && !GoodMetablock(env, J0, bi)
    ensures Done(env, J0, J[bi := MarkError(J[bi])], metas, bi + 1, ok')
  {
    var J' := J[bi := MarkError(J[bi])];
    assert BlockDone(env, J0, J, metas, bi, bi);
    var n := bi + 1;
    forall x | 0 <= x < |J0| ensures BlockDone(env, J0, J', metas, n, x) {
      assert BlockDone(env, J0, J, metas, bi, x);
    }
    forall x | x in metas ensures Accepted(env, J', x, ok') {
      assert Accepted(env, J, x, ok);
      AcceptedKept(env, J, x, ok, ok', bi);
    }
  }

  /** Flagging a block that still looks like a metablock does not affect accepted metablocks. */
  lemma AcceptedKept(env: Env, J: Journal, x: nat, ok: bool, ok': bool, bi: nat)
    requires x < |J| && bi < |J| && x != bi && Accepted(env, J, x, ok) && Potential(env, J[bi]) && (ok' ==> ok)
    ensures Accepted(env, J[bi := MarkError(J[bi])], x, ok')
  {
    var J' := J[bi := MarkError(J[bi])];
    forall r: nat | r < J'[x].nref ensures RefGood(env, J', x, r) {
      assert RefGood(env, J, x, r);
    }
  }

  lemma AcceptStep(env: Env, J0: Journal, J: Journal, metas: seq<nat>, metas': seq<nat>, bi: nat, ok: bool, ok': bool)
    requires Done(env, J0, J, metas, bi, ok) && bi < |J0| && Potential(env, J0[bi])
    requires (ok' ==> ok) && Accepted(env, J, bi, ok')
    requires Sorted(J, metas') && forall x :: x in metas' <==> x in metas || x == bi
    ensures Done(env, J0, J, metas', bi + 1, ok')
  {
    assert BlockDone(env, J0, J, metas, bi, bi);
    var n := bi + 1;
    forall x | 0 <= x < |J0| ensures BlockDone(env, J0, J, metas', n, x) {
      assert BlockDone(env, J0, J, metas, bi, x);
    }
    forall x | x in metas' ensures x < bi + 1 && Accepted(env, J, x, ok') {
      if x != bi { assert Accepted(env, J, x, ok); }
    }
  }

  /** A ref that is good in the journal as loaded is still good when its metablock is analyzed. */
  lemma GoodStaysGood(env: Env, J0: Journal, J: Journal, metas: seq<nat>, n: nat, ok: bool, x: nat, r: nat)
    requires Done(env, J0, J, metas, n, ok) && n <= x < |J0| && r < |J0[x].ref| && J[x] == J0[x]
    requires RefGood(env, J0, x, r)
    ensures RefGood(env, J, x, r)
  {
    if !J0[x].ref[r].Nonjournaled() {
      assert BlockDone(env, J0, J, metas, n, DataIndex(J0, x, r));
    }
  }

  lemma NothingDone(env: Env, J0: Journal)
    ensures Done(env, J0, J0, [], 0, true)
  {
  }

  lemma BadRef(env: Env, J0: Journal, J: Journal, metas: seq<nat>, ok: bool, bi: nat, r: nat)
    requires Done(env, J0, J, metas, bi, ok) && bi < |J0| && J[bi] == J0[bi]
    requires r < J[bi].nref && r < |J[bi].ref| && !RefGood(env, J, bi, r)
    ensures !GoodMetablock(env, J0, bi)
  {
    if GoodMetablock(env, J0, bi) { GoodStaysGood(env, J0, J, metas, bi, ok, bi, r); }
  }

  lemma {:induction false} FlaggedDelta(J: Journal, bi: nat, m: bool, r: nat)
    requires bi < |J| && r <= |J[bi].ref|
    ensures r <= |Flagged(J, bi, m)[bi].ref| && Delta(Flagged(J, bi, m)[bi], r) == Delta(J[bi], r)
  {
    if r > 0 { FlaggedDelta(J, bi, m, r - 1); }
  }
}
