/** The journal's blocks and the arithmetic of transaction ids. */
module JournalFormat {

  type u16 = x: int | 0 <= x < 0x1_0000

  function Wrap(x: int): u16 { x % 0x1_0000 }

  /** `tiddiff_t(x - y)`: the 16-bit difference read as a signed number. */
  function TidDiff(x: u16, y: u16): (d: int)
    ensures -0x8000 <= d < 0x8000
  {
    var m := Wrap(x - y);
    if m >= 0x8000 then m - 0x1_0000 else m
  }

  predicate TidLt(x: u16, y: u16) { TidDiff(x, y) < 0 }
  predicate TidGe(x: u16, y: u16) { TidDiff(x, y) >= 0 }
  predicate TidGt(x: u16, y: u16) { TidDiff(x, y) > 0 }

  const JOURNALMAGIC := 0xFBBF_BB00_9EEB_CEED
  const NOCHECKSUM := 0x8260_0A5F
  const REF_SIZE := 339

  const JF_META: bv16 := 0x01
  const JF_ERROR: bv16 := 0x02
  const JF_CORRUPT: bv16 := 0x04
  const JF_START: bv16 := 0x10
  const JF_COMMIT: bv16 := 0x20
  const JF_COMPLETE: bv16 := 0x40

  const JBF_ESCAPED: bv16 := 0x100
  const JBF_NONJOURNALED: bv16 := 0x200
  const JBF_OVERWRITTEN: bv16 := 0x400

  predicate Flag(f: bv16, bits: bv16) { f & bits != 0 }

  function With(f: bv16, g: bv16): bv16 { f | g }

  /** A reference; twelve bytes, of which the last two are unused. */
  datatype Ref = Ref(bn: nat, bchecksum: nat, bflags: bv16, padding: nat)
  {
    predicate Nonjournaled() { bflags & JBF_NONJOURNALED != 0 }
    predicate Overwritten() { bflags & JBF_OVERWRITTEN != 0 }
    predicate Escaped() { bflags & JBF_ESCAPED != 0 }
    function Overwrite(): Ref { this.(bflags := bflags | JBF_OVERWRITTEN) }
  }

  /** A block of the journal. Its 4096 bytes are exactly these fields, so data blocks have this shape as well. */
  datatype Block = Block(magic: nat, checksum: nat, padding: nat, seqno: u16, tid: u16,
                         commit_boundary: u16, complete_boundary: u16, flags: bv16, nref: u16, ref: seq<Ref>)
  {
    predicate Has(bits: bv16) { flags & bits != 0 }

    /** The refs in use lie inside the block. */
    predicate RefsFit() { nref <= |ref| }

    predicate Commits(t: u16) { Has(JF_COMMIT) || TidGt(commit_boundary, t) }
    predicate Completes(t: u16) { Has(JF_COMPLETE) || TidGt(complete_boundary, t) }
  }

  type Journal = seq<Block>

  /** The transaction ids from `complete` up to `commit`, going around at 2^16. */
  function RegionSize(complete: u16, commit: u16): u16 { Wrap(commit - complete) }

  predicate InRegion(complete: u16, commit: u16, t: u16) { TidGe(t, complete) && TidLt(t, commit) }

  /** The `k`th id met when counting up from `complete`. */
  function Counted(complete: u16, k: nat): u16 { Wrap(complete + k) }

  lemma SelectedIff(complete: u16, commit: u16, t: u16)
    requires !TidGt(complete, commit)
    ensures InRegion(complete, commit, t) <==> Wrap(t - complete) < RegionSize(complete, commit)
  {
  }

  lemma CountedOnce(complete: u16, t: u16, j: nat)
    requires j < 0x1_0000
    ensures Counted(complete, j) == t <==> j == Wrap(t - complete)
  {
  }

  /** When `complete` is not above `commit`, counting up from `complete` to `commit`, around 2^16 if need be, meets
      exactly the ids that the two comparisons select. */
  lemma RegionIsCounted(complete: u16, commit: u16, t: u16)
    requires !TidGt(complete, commit)
    ensures InRegion(complete, commit, t) <==>
            exists k: nat :: k < RegionSize(complete, commit) && Counted(complete, k) == t
  {
    var k: nat := Wrap(t - complete);
    SelectedIff(complete, commit, t);
    CountedOnce(complete, t, k);
    forall j: nat | j < RegionSize(complete, commit) ensures Counted(complete, j) == t <==> j == k {
      CountedOnce(complete, t, j);
    }
    hide *;
  }

  /** Counting and comparing agree on every id exactly if `complete` is not above `commit`; otherwise counting starts
      with an id that the comparisons do not select. */
  lemma RegionIffOrdered(complete: u16, commit: u16)
    ensures !TidGt(complete, commit) <==>
            forall t: u16 :: InRegion(complete, commit, t) <==>
                             exists k: nat :: k < RegionSize(complete, commit) && Counted(complete, k) == t
  {
    if TidGt(complete, commit) {
      var k: nat := 0;
      assert k < RegionSize(complete, commit) && Counted(complete, k) == complete;
      assert !InRegion(complete, commit, complete);
    } else {
      forall t: u16
        ensures InRegion(complete, commit, t) <==>
                exists k: nat :: k < RegionSize(complete, commit) && Counted(complete, k) == t
      {
        RegionIsCounted(complete, commit, t);
      }
    }
  }
}
