/** The backward pass that flags overwritten references. */
module JournalMarking {
  import opened JournalFormat
  import opened JournalReplay

  /** `b` with those of its first `n` refs flagged that go to `bn`. */
  function MarkRefs(b: Block, bn: nat, n: nat): (r: Block)
    requires n <= |b.ref|
    ensures r == b.(ref := r.ref) && |r.ref| == |b.ref|
    ensures forall s :: 0 <= s < |b.ref| ==>
            r.ref[s] == if s < n && b.ref[s].bn == bn then b.ref[s].Overwrite() else b.ref[s]
  {
    b.(ref := seq(|b.ref|, s requires 0 <= s < |b.ref| => if s < n &&
        b.ref[s].bn == bn then b.ref[s].Overwrite() else b.ref[s]))
  }

  /** Number of refs of metablock `i` that come before the place `(m, r)`. */
  function Before(S: Journal, metas: seq<nat>, i: nat, m: nat, r: nat): (n: nat)
    requires MetasOk(S, metas) && i < |metas| && m < |metas| && r <= S[metas[m]].nref
    ensures n <= S[metas[i]].nref
  {
    if i < m then S[metas[i]].nref else if i == m then r else 0
  }

  /** Destinations of refs known, once the pass has come down to `(m, r)`, to repeat that of ref `s` of metablock
      `i`. */
  function Known(S: Journal, metas: seq<nat>, lo: u16, hi: u16, i: nat, s: nat, m: nat, r: nat): set<nat>
    requires MetasOk(S, metas) && i < |metas| && s < S[metas[i]].nref && At(S, metas, m, r)
  {
    if i < m || (i == m && s < r) then Later(S, metas, m, r, lo, hi) else Later(S, metas, i, s + 1, lo, hi)
  }

  ghost predicate PartMarkedRef(S: Journal, b: Block, metas: seq<nat>, lo: u16, hi: u16, i: nat, s: nat, m: nat, r: nat)
    requires MetasOk(S, metas) && i < |metas| && s < S[metas[i]].nref && At(S, metas, m, r) && s < |b.ref|
  {
    var ref := S[metas[i]].ref[s];
    b.ref[s] == if ref.bn in Known(S, metas, lo, hi, i, s, m, r) then ref.Overwrite() else ref
  }

  ghost predicate PartMarkedBlock(S: Journal, b: Block, metas: seq<nat>, lo: u16, hi: u16, i: nat, m: nat, r: nat)
    requires MetasOk(S, metas) && i < |metas| && At(S, metas, m, r)
  {
    var old_b := S[metas[i]];
    && b == old_b.(ref := b.ref) && |b.ref| == |old_b.ref|
    && (forall s :: old_b.nref <= s < |old_b.ref| ==> b.ref[s] == old_b.ref[s])
    && (forall s: nat :: s < old_b.nref ==> PartMarkedRef(S, b, metas, lo, hi, i, s, m, r))
  }

  /** The pass has come down to the place `(m, r)`. */
  ghost predicate PartMarked(S: Journal, J: Journal, metas: seq<nat>, lo: u16, hi: u16, m: nat, r: nat)
    requires MetasOk(S, metas) && At(S, metas, m, r)
  {
    && |J| == |S|
    && (forall x :: 0 <= x < |S| && x !in metas ==> J[x] == S[x])
    && (forall i: nat :: i < |metas| ==> PartMarkedBlock(S, J[metas[i]], metas, lo, hi, i, m, r))
  }

  lemma MarkingStarts(S: Journal, metas: seq<nat>, lo: u16, hi: u16)
    requires MetasOk(S, metas)
    ensures PartMarked(S, S, metas, lo, hi, |metas|, 0)
  {
  }

  lemma MarkingEnds(S: Journal, J: Journal, metas: seq<nat>, lo: u16, hi: u16)
    requires MetasOk(S, metas) && PartMarked(S, J, metas, lo, hi, 0, 0)
    ensures Marked(S, J, metas, lo, hi)
  {
    forall i: nat | i < |metas| ensures MarkedBlock(S, J[metas[i]], metas, i, lo, hi) {
      assert PartMarkedBlock(S, J[metas[i]], metas, lo, hi, i, 0, 0);
      forall s: nat | s < S[metas[i]].nref
        ensures J[metas[i]].ref[s] == if S[metas[i]].ref[s].bn in Later(S, metas, i, s + 1, lo, hi)
                                      then S[metas[i]].ref[s].Overwrite() else S[metas[i]].ref[s]
      {
        assert PartMarkedRef(S, J[metas[i]], metas, lo, hi, i, s, 0, 0);
      }
    }
  }

  /** Moving to a place with the same later destinations changes nothing. */
  lemma SamePlace(S: Journal, J: Journal, metas: seq<nat>, lo: u16, hi: u16, m: nat, r: nat, m': nat, r': nat)
    requires MetasOk(S, metas) && At(S, metas, m, r) && At(S, metas, m', r') && PartMarked(S, J, metas, lo, hi, m, r)
    requires m' <= m && (m' == m ==> r' <= r)
    requires forall i: nat, s: nat :: i < |metas| && s < S[metas[i]].nref ==>
               Known(S, metas, lo, hi, i, s, m, r) == Known(S, metas, lo, hi, i, s, m', r')
    ensures PartMarked(S, J, metas, lo, hi, m', r')
  {
    forall i: nat | i < |metas| ensures PartMarkedBlock(S, J[metas[i]], metas, lo, hi, i, m', r') {
      assert PartMarkedBlock(S, J[metas[i]], metas, lo, hi, i, m, r);
      forall s: nat | s < S[metas[i]].nref ensures PartMarkedRef(S, J[metas[i]], metas, lo, hi, i, s, m', r') {
        assert PartMarkedRef(S, J[metas[i]], metas, lo, hi, i, s, m, r);
      }
    }
  }

  /** From the start of one metablock to the end of the one before. */
  lemma TurnBack(S: Journal, J: Journal, metas: seq<nat>, lo: u16, hi: u16, m: nat)
    requires MetasOk(S, metas) && m < |metas| && PartMarked(S, J, metas, lo, hi, m + 1, 0)
    ensures PartMarked(S, J, metas, lo, hi, m, S[metas[m]].nref)
  {
    LaterTurn(S, metas, m, lo, hi);
    forall i: nat, s: nat | i < |metas| && s < S[metas[i]].nref
      ensures Known(S, metas, lo, hi, i, s, m + 1, 0) == Known(S, metas, lo, hi, i, s, m, S[metas[m]].nref)
    {
    }
    SamePlace(S, J, metas, lo, hi, m + 1, 0, m, S[metas[m]].nref);
  }

  /** A ref that does not count, or whose destination a later ref repeats, adds nothing. */
  lemma SkipRef(S: Journal, J: Journal, metas: seq<nat>, lo: u16, hi: u16, m: nat, r: nat)
    requires MetasOk(S, metas) && m < |metas| && r < S[metas[m]].nref && PartMarked(S, J, metas, lo, hi, m, r + 1)
    requires !Counts(S, metas[m], r, lo, hi) || S[metas[m]].ref[r].bn in Later(S, metas, m, r + 1, lo, hi)
    ensures PartMarked(S, J, metas, lo, hi, m, r)
  {
    assert Later(S, metas, m, r, lo, hi) == Later(S, metas, m, r + 1, lo, hi);
    SamePlace(S, J, metas, lo, hi, m, r + 1, m, r);
  }

  /** `J'` is `J` with every ref to `bn` before the place `(m, r)` flagged. */
  ghost predicate MarkedBefore(S: Journal, J: Journal, J': Journal, metas: seq<nat>, m: nat, r: nat, bn: nat)
    requires MetasOk(S, metas) && m < |metas| && r <= S[metas[m]].nref
  {
    && |J'| == |J| == |S|
    && (forall x :: 0 <= x < |J| && x !in metas ==> J'[x] == J[x])
    && (forall i: nat :: i < |metas| ==>
          S[metas[i]].nref <= |J[metas[i]].ref| && J'[metas[i]] == MarkRefs(J[metas[i]], bn, Before(S, metas, i, m, r)))
  }

  /** Flagging what a counted ref repeats brings the pass down past it. */
  lemma MarkRef(S: Journal, J: Journal, J': Journal, metas: seq<nat>, lo: u16, hi: u16, m: nat, r: nat)
    requires MetasOk(S, metas) && m < |metas| && r < S[metas[m]].nref && PartMarked(S, J, metas, lo, hi, m, r + 1)
    requires Counts(S, metas[m], r, lo, hi) && MarkedBefore(S, J, J', metas, m, r, S[metas[m]].ref[r].bn)
    ensures PartMarked(S, J', metas, lo, hi, m, r)
  {
    forall i: nat | i < |metas| ensures PartMarkedBlock(S, J'[metas[i]], metas, lo, hi, i, m, r) {
      assert PartMarkedBlock(S, J[metas[i]], metas, lo, hi, i, m, r + 1);
      forall s: nat | s < S[metas[i]].nref ensures PartMarkedRef(S, J'[metas[i]], metas, lo, hi, i, s, m, r) {
        MarkOneRef(S, J, J', metas, lo, hi, m, r, i, s);
      }
    }
  }

  lemma OverwriteTwice(ref: Ref)
    ensures ref.Overwrite().Overwrite() == ref.Overwrite() && ref.Overwrite().bn == ref.bn
  {
    OverwriteFlag(ref);
    OverwriteFlag(ref.Overwrite());
  }

  lemma MarkOneRef(S: Journal, J: Journal, J': Journal, metas: seq<nat>, lo: u16, hi: u16, m: nat, r: nat, i: nat,
      s: nat)
    requires MetasOk(S, metas) && m < |metas| && r < S[metas[m]].nref && i < |metas| && s < S[metas[i]].nref
    requires |J| == |J'| == |S| && |J[metas[i]].ref| == |S[metas[i]].ref|
    requires PartMarkedRef(S, J[metas[i]], metas, lo, hi, i, s, m, r + 1)
    requires Counts(S, metas[m], r, lo, hi)
    requires J'[metas[i]] == MarkRefs(J[metas[i]], S[metas[m]].ref[r].bn, Before(S, metas, i, m, r))
    ensures PartMarkedRef(S, J'[metas[i]], metas, lo, hi, i, s, m, r)
  {
    OverwriteTwice(S[metas[i]].ref[s]);
    assert Later(S, metas, m, r, lo, hi) == Later(S, metas, m, r + 1, lo, hi) + {S[metas[m]].ref[r].bn};
  }

  /** Whether a ref still looks not overwritten when the pass comes to it. */
  lemma StillClear(S: Journal, J: Journal, metas: seq<nat>, lo: u16, hi: u16, m: nat, r: nat)
    requires MetasOk(S, metas) && m < |metas| && r < S[metas[m]].nref && PartMarked(S, J, metas, lo, hi, m, r + 1)
    ensures |J| == |S| && |J[metas[m]].ref| == |S[metas[m]].ref| && J[metas[m]].nref == S[metas[m]].nref
    ensures J[metas[m]].tid == S[metas[m]].tid && J[metas[m]].ref[r].bn == S[metas[m]].ref[r].bn
    ensures J[metas[m]].ref[r].Overwritten() <==>
              S[metas[m]].ref[r].Overwritten() || S[metas[m]].ref[r].bn in Later(S, metas, m, r + 1, lo, hi)
  {
    assert PartMarkedBlock(S, J[metas[m]], metas, lo, hi, m, m, r + 1);
    assert PartMarkedRef(S, J[metas[m]], metas, lo, hi, m, r, m, r + 1);
    OverwriteFlag(S[metas[m]].ref[r]);
  }

  /** A metablock outside the region is passed over. */
  lemma {:induction false} SkipRefs(S: Journal, J: Journal, metas: seq<nat>, lo: u16, hi: u16, m: nat, r: nat)
    requires MetasOk(S, metas) && m < |metas| && r <= S[metas[m]].nref && PartMarked(S, J, metas, lo, hi, m, r)
    requires !InRegion(lo, hi, S[metas[m]].tid)
    ensures PartMarked(S, J, metas, lo, hi, m, 0)
  {
    if r > 0 {
      SkipRef(S, J, metas, lo, hi, m, r - 1);
      SkipRefs(S, J, metas, lo, hi, m, r - 1);
    }
  }

  /** The journal keeps its layout while refs are being flagged. */
  ghost predicate SameLayout(S: Journal, J: Journal, metas: seq<nat>)
    requires MetasOk(S, metas)
  {
    |J| == |S| && forall i: nat :: i < |metas| ==>
      |J[metas[i]].ref| == |S[metas[i]].ref| && J[metas[i]].nref == S[metas[i]].nref &&
          J[metas[i]].tid == S[metas[i]].tid
  }

  lemma PartMarkedLayout(S: Journal, J: Journal, metas: seq<nat>, lo: u16, hi: u16, m: nat, r: nat)
    requires MetasOk(S, metas) && At(S, metas, m, r) && PartMarked(S, J, metas, lo, hi, m, r)
    ensures SameLayout(S, J, metas)
  {
    forall i: nat | i < |metas|
      ensures |J[metas[i]].ref| == |S[metas[i]].ref| && J[metas[i]].nref == S[metas[i]].nref
      ensures J[metas[i]].tid == S[metas[i]].tid
    {
      assert PartMarkedBlock(S, J[metas[i]], metas, lo, hi, i, m, r);
    }
  }
}
