/** The checksum of journal blocks is CRC32C over their bytes, which notices the error flag. */
module JournalChecksum {
  import C = Crc32c
  import opened JournalFormat
  import opened JournalReplay
  import opened JournalAnalysis
  import opened JournalChecks
  import opened JournalLoaded

  type byte = C.byte

  // ----- The bytes of a block, little-endian -----

  /** Byte `k` of a number. */
  function ByteAt(x: nat, k: nat): byte
    decreases k
  {
    if k == 0 then (x % 256) as byte else ByteAt(x / 256, k - 1)
  }

  function Bytes(x: nat, size: nat): (s: seq<byte>)
    ensures |s| == size
  {
    seq(size, k requires 0 <= k < size => ByteAt(x, k))
  }

  function LowByte(f: bv16): byte { (f & 0xFF) as byte }
  function HighByte(f: bv16): byte { (f >> 8) as byte }

  function RefBytes(ref: Ref): (s: seq<byte>)
    ensures |s| == 12
  {
    Bytes(ref.bn, 4) + Bytes(ref.bchecksum, 4) + [LowByte(ref.bflags), HighByte(ref.bflags)] + Bytes(ref.padding, 2)
  }

  function RefsBytes(refs: seq<Ref>): (s: seq<byte>)
    ensures |s| == 12 * |refs|
  {
    if refs == [] then [] else RefBytes(refs[0]) + RefsBytes(refs[1..])
  }

  /** From the sequence number to the flags, and what follows their low byte. */
  function BeforeFlags(b: Block): seq<byte> {
    Bytes(b.seqno, 2) + Bytes(b.tid, 2) + Bytes(b.commit_boundary, 2) + Bytes(b.complete_boundary, 2)
  }

  function AfterFlags(b: Block): seq<byte> {
    [HighByte(b.flags)] + Bytes(b.nref, 2) + RefsBytes(b.ref)
  }

  /** What the checksum in a metablock covers: all but the first 16 of its 4096 bytes. */
  function TailBytes(b: Block): seq<byte> {
    BeforeFlags(b) + [LowByte(b.flags)] + AfterFlags(b)
  }

  function WholeBytes(b: Block): seq<byte> {
    Bytes(b.magic, 8) + Bytes(b.checksum, 4) + Bytes(b.padding, 4) + TailBytes(b)
  }

  lemma BlockSize(b: Block)
    requires |b.ref| == REF_SIZE
    ensures |TailBytes(b)| == 4096 - 16 && |WholeBytes(b)| == 4096
  {
  }

  function TailSum(b: Block): C.Sum { C.Crc(0, TailBytes(b)) }
  function WholeSum(b: Block): C.Sum { C.Crc(0, WholeBytes(b)) }

  type Refs = (nat, nat) -> Ref

  /** The checksums that the replayer uses, with anything behind the blocks. */
  function Summed(past: Refs): Env { Env((b: Block) => TailSum(b) as nat, (b: Block) => WholeSum(b) as nat, past) }

  // ----- The flag is noticed -----

  lemma FlagByte(f: bv16)
    requires f & JF_ERROR == 0
    ensures LowByte(f | JF_ERROR) != LowByte(f) && HighByte(f | JF_ERROR) == HighByte(f)
  {
  }

  lemma SameSums(x: C.Sum, y: C.Sum)
    requires x as nat == y as nat
    ensures x == y
  {
    assert (x as nat) as C.Sum == x && (y as nat) as C.Sum == y;
  }

  /** Flagging a block that has no error flag changes its checksum. */
  lemma FlagChangesSum(b: Block, past: Refs)
    requires !b.Has(JF_ERROR)
    ensures Summed(past).tail(MarkError(b)) != Summed(past).tail(b)
  {
    FlagByte(b.flags);
    hide LowByte, HighByte, C.Crc;
    C.ChangedByte(0, BeforeFlags(b), LowByte(MarkError(b).flags), LowByte(b.flags), AfterFlags(b));
    if TailSum(MarkError(b)) as nat == TailSum(b) as nat { SameSums(TailSum(MarkError(b)), TailSum(b)); }
  }

  /** So every block that carries its checksum, looks like a metablock and has no flags is one that the analysis
      spoils. */
  lemma UnmarkedIsStale(b: Block, past: Refs)
    requires b.magic == JOURNALMAGIC && b.checksum == Summed(past).tail(b) && b.checksum != NOCHECKSUM
    requires b.flags == 0 && b.nref == 0 && |b.ref| == REF_SIZE
    ensures Stale(Summed(past), b)
  {
    var f := b.flags;
    assert f & JF_ERROR == 0;
    FlagChangesSum(b, past);
  }

  function Unmarked(seqno: u16, checksum: nat): Block {
    Block(JOURNALMAGIC, checksum, 0, seqno, 0, 0, 0, 0, 0, seq(REF_SIZE, _ => Ref(0, 0, 0, 0)))
  }

  /** There are such blocks. */
  lemma StaleExists(past: Refs) returns (b: Block)
    ensures Stale(Summed(past), b)
  {
    var x, y := Unmarked(0, 0), Unmarked(1, 0);
    SeqnoChangesSum(past);
    var seqno: u16 := if Summed(past).tail(x) != NOCHECKSUM then 0 else 1;
    b := Unmarked(seqno, Summed(past).tail(Unmarked(seqno, 0)));
    SumIgnoresItself(seqno, b.checksum, past);
    UnmarkedIsStale(b, past);
  }

  lemma SumIgnoresItself(seqno: u16, checksum: nat, past: Refs)
    ensures Summed(past).tail(Unmarked(seqno, checksum)) == Summed(past).tail(Unmarked(seqno, 0))
  {
    assert TailBytes(Unmarked(seqno, checksum)) == TailBytes(Unmarked(seqno, 0));
  }

  lemma SeqnoChangesSum(past: Refs)
    ensures Summed(past).tail(Unmarked(0, 0)) != Summed(past).tail(Unmarked(1, 0))
  {
    var x, y := Unmarked(0, 0), Unmarked(1, 0);
    var q := SeqnoBytes();
    hide C.Crc, Unmarked, TailBytes;
    C.ChangedByte(0, [], 0, 1, q);
    if TailSum(x) as nat == TailSum(y) as nat { SameSums(TailSum(x), TailSum(y)); }
  }

  lemma SeqnoBytes() returns (q: seq<byte>)
    ensures TailBytes(Unmarked(0, 0)) == [] + [0] + q && TailBytes(Unmarked(1, 0)) == [] + [1] + q
  {
    q := [0] + (Bytes(0, 2) + Bytes(0, 2) + Bytes(0, 2) + [LowByte(0)] + AfterFlags(Unmarked(0, 0)));
    SmallBytes();
    SameAfter();
    hide Bytes, LowByte, AfterFlags;
  }

  lemma SmallBytes()
    ensures Bytes(0, 2) == [0, 0] && Bytes(1, 2) == [1, 0]
  {
    assert ByteAt(0, 1) == ByteAt(0, 0) == 0 && ByteAt(1, 1) == ByteAt(0, 0) && ByteAt(1, 0) == 1;
  }

  lemma SameAfter()
    ensures AfterFlags(Unmarked(0, 0)) == AfterFlags(Unmarked(1, 0))
  {
  }

  /** The journals that are not replayed as they were loaded exist for the checksum in use. */
  lemma FlaggedDataIsReplayed(past: Refs, disk: Disk) returns (b: Block)
    ensures var J0, J, env := [b, OnlyMetablock()], [MarkError(b), OnlyMetablock()], Summed(past);
            && Shape(J0) && AllReach(env, J0, 2) && Done(env, J0, J, [1], 2, true)
            && Acceptable(J, [1]) && MetasOk(J, [1]) && MetasOk(J0, [1])
            && NaiveReplay(J, [1], 5, 6, disk) != NaiveReplay(J0, [1], 5, 6, disk)
  {
    b := StaleExists(past);
    hide *;
    JournalLoaded.FlaggedDataIsReplayed(Summed(past), b, disk);
  }
}
