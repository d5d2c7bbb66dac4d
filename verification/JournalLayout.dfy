/** A block is its 4096 bytes, field by field. */
module JournalLayout {
  import opened JournalFormat
  import opened JournalChecksum
  import C = Crc32c

  // ----- Little-endian numbers -----

  function Power(k: nat): nat { if k == 0 then 1 else 256 * Power(k - 1) }

  function Value(b: byte): (v: nat)
    ensures v < 256
  {
    b as nat
  }

  lemma LastByte(b: byte)
    ensures Value(b) == 255 <==> b == 255
  {
  }

  lemma NextByte(b: byte)
    requires b != 255
    ensures Value(b + 1) == Value(b) + 1
  {
  }

  lemma {:induction false} ByteFor(x: nat) returns (b: byte)
    requires x < 256
    ensures Value(b) == x
    decreases x
  {
    if x == 0 {
      b := 0;
    } else {
      b := ByteFor(x - 1);
      LastByte(b);
      NextByte(b);
      b := b + 1;
    }
  }

  lemma ByteOfValue(b: byte)
    ensures Value(b) as byte == b
  {
  }

  lemma ValueOfByte(x: nat)
    ensures Value(ByteAt(x, 0)) == x % 256
  {
    var b := ByteFor(x % 256);
    ByteOfValue(b);
    hide Value;
  }

  /** The number that bytes stand for, least significant first. */
  function Number(s: seq<byte>): (x: nat) {
    if s == [] then 0 else Value(s[0]) + 256 * Number(s[1..])
  }

  lemma ShiftedBytes(x: nat, size: nat)
    requires size > 0
    ensures Bytes(x, size) == [ByteAt(x, 0)] + Bytes(x / 256, size - 1)
  {
    assert forall k :: 0 < k < size ==> ByteAt(x, k) == ByteAt(x / 256, k - 1);
    assert ByteAt(x, 0) == Bytes(x, size)[0];
    hide ByteAt;
  }

  lemma {:induction false} NumberBytes(x: nat, size: nat)
    requires x < Power(size)
    ensures Number(Bytes(x, size)) == x
  {
    hide Value, ByteAt;
    if size > 0 {
      ShiftedBytes(x, size);
      assert x / 256 < Power(size - 1);
      NumberBytes(x / 256, size - 1);
      ValueOfByte(x);
      assert Bytes(x, size)[1..] == Bytes(x / 256, size - 1);
      hide Bytes;
    }
  }

  /** A number from its lowest byte and the others. */
  lemma Joined(b: byte, y: nat)
    ensures (Value(b) + 256 * y) / 256 == y && ByteAt(Value(b) + 256 * y, 0) == b
  {
    ByteOfValue(b);
    assert (Value(b) + 256 * y) % 256 == Value(b);
    hide Value;
  }

  lemma {:induction false} BytesNumber(s: seq<byte>)
    ensures Number(s) < Power(|s|) && Bytes(Number(s), |s|) == s
  {
    if s == [] {
      assert Bytes(0, 0) == [];
    } else {
      hide Value, Bytes, ByteAt;
      BytesNumber(s[1..]);
      Joined(s[0], Number(s[1..]));
      ShiftedBytes(Number(s), |s|);
      assert s == [s[0]] + s[1..];
    }
  }

  function Word(low: byte, high: byte): bv16 { ((high as bv16) << 8) | (low as bv16) }

  lemma WordRound(f: bv16, low: byte, high: byte)
    ensures Word(LowByte(f), HighByte(f)) == f
    ensures LowByte(Word(low, high)) == low && HighByte(Word(low, high)) == high
  {
  }

  // ----- Decoding -----

  function RefOf(s: seq<byte>): Ref
    requires |s| == 12
  {
    Ref(Number(s[..4]), Number(s[4..8]), Word(s[8], s[9]), Number(s[10..]))
  }

  function RefsOf(s: seq<byte>): seq<Ref>
    requires |s| % 12 == 0
  {
    if s == [] then [] else [RefOf(s[..12])] + RefsOf(s[12..])
  }

  function Short(s: seq<byte>): u16
    requires |s| == 2
  {
    BytesNumber(s);
    Powers();
    Number(s)
  }

  lemma Powers()
    ensures Power(2) == 0x1_0000 && Power(4) == 0x1_0000_0000 && Power(8) == 0x1_0000_0000_0000_0000
  {
    assert Power(3) == 256 * Power(2) && Power(5) == 256 * Power(4) && Power(6) == 256 * Power(5);
    assert Power(7) == 256 * Power(6);
  }

  /** The block that 4096 bytes are. */
  function BlockOf(s: seq<byte>): Block
    requires |s| == 4096
  {
    Block(Number(s[..8]), Number(s[8..12]), Number(s[12..16]), Short(s[16..18]), Short(s[18..20]), Short(s[20..22]),
          Short(s[22..24]), Word(s[24], s[25]), Short(s[26..28]), RefsOf(s[28..]))
  }

  // ----- Round trips -----

  predicate RefFits(ref: Ref) { ref.bn < 0x1_0000_0000 && ref.bchecksum < 0x1_0000_0000 && ref.padding < 0x1_0000 }

  /** Every field fits its width. */
  predicate BlockFits(b: Block) {
    && b.magic < 0x1_0000_0000_0000_0000 && b.checksum < 0x1_0000_0000 && b.padding < 0x1_0000_0000
    && |b.ref| == REF_SIZE && forall r :: 0 <= r < |b.ref| ==> RefFits(b.ref[r])
  }

  lemma RefRoundTrip(ref: Ref)
    requires RefFits(ref)
    ensures RefOf(RefBytes(ref)) == ref
  {
    Powers();
    NumberBytes(ref.bn, 4);
    NumberBytes(ref.bchecksum, 4);
    NumberBytes(ref.padding, 2);
    WordRound(ref.bflags, 0, 0);
    var s := RefBytes(ref);
    assert s[..4] == Bytes(ref.bn, 4) && s[4..8] == Bytes(ref.bchecksum, 4) && s[10..] == Bytes(ref.padding, 2);
    hide Bytes, Number, LowByte, HighByte, Word, Power;
  }

  lemma {:induction false} RefsRoundTrip(refs: seq<Ref>)
    requires forall r :: 0 <= r < |refs| ==> RefFits(refs[r])
    ensures RefsOf(RefsBytes(refs)) == refs
  {
    if refs != [] {
      var s := RefsBytes(refs);
      RefRoundTrip(refs[0]);
      RefsRoundTrip(refs[1..]);
      assert s[..12] == RefBytes(refs[0]) && s[12..] == RefsBytes(refs[1..]);
      hide RefOf, RefBytes, RefFits;
    }
  }

  /** Where each field is. */
  lemma Layout(b: Block)
    requires |b.ref| == REF_SIZE
    ensures var w := WholeBytes(b);
            && |w| == 4096 && w[..8] == Bytes(b.magic, 8) && w[8..12] == Bytes(b.checksum, 4)
            && w[12..16] == Bytes(b.padding, 4) && w[16..18] == Bytes(b.seqno, 2) && w[18..20] == Bytes(b.tid, 2)
            && w[20..22] == Bytes(b.commit_boundary, 2) && w[22..24] == Bytes(b.complete_boundary, 2)
            && w[24] == LowByte(b.flags) && w[25] == HighByte(b.flags) && w[26..28] == Bytes(b.nref, 2)
            && w[28..] == RefsBytes(b.ref) && w[16..] == TailBytes(b)
  {
    hide Bytes, RefsBytes, LowByte, HighByte;
  }

  /** Decoding the bytes of a block gives the block back: no two blocks have the same bytes. */
  lemma BlockRoundTrip(b: Block)
    requires BlockFits(b)
    ensures |WholeBytes(b)| == 4096 && BlockOf(WholeBytes(b)) == b
  {
    Layout(b);
    Powers();
    NumberBytes(b.magic, 8);
    NumberBytes(b.checksum, 4);
    NumberBytes(b.padding, 4);
    NumberBytes(b.seqno, 2);
    NumberBytes(b.tid, 2);
    NumberBytes(b.commit_boundary, 2);
    NumberBytes(b.complete_boundary, 2);
    NumberBytes(b.nref, 2);
    WordRound(b.flags, 0, 0);
    RefsRoundTrip(b.ref);
    hide Bytes, Number, LowByte, HighByte, Word, Power, RefsBytes, RefsOf, WholeBytes, TailBytes;
  }

  lemma RefBytesBack(s: seq<byte>)
    requires |s| == 12
    ensures RefFits(RefOf(s)) && RefBytes(RefOf(s)) == s
  {
    Powers();
    BytesNumber(s[..4]);
    BytesNumber(s[4..8]);
    BytesNumber(s[10..]);
    WordRound(0, s[8], s[9]);
    hide Bytes, Number, LowByte, HighByte, Word, Power;
    assert s == s[..4] + s[4..8] + [s[8], s[9]] + s[10..];
  }

  lemma {:induction false} RefsBytesBack(s: seq<byte>)
    requires |s| % 12 == 0
    ensures |RefsOf(s)| * 12 == |s| && RefsBytes(RefsOf(s)) == s
    ensures forall r :: 0 <= r < |RefsOf(s)| ==> RefFits(RefsOf(s)[r])
  {
    if s != [] {
      RefBytesBack(s[..12]);
      RefsBytesBack(s[12..]);
      assert s == s[..12] + s[12..];
      assert RefsOf(s)[1..] == RefsOf(s[12..]);
      hide RefOf, RefBytes, RefFits;
    }
  }

  lemma ShortBack(s: seq<byte>)
    requires |s| == 2
    ensures Bytes(Short(s), 2) == s
  {
    BytesNumber(s);
  }

  /** And any 4096 bytes are the bytes of the block that they decode to, in which every field fits. */
  lemma BytesRoundTrip(s: seq<byte>)
    requires |s| == 4096
    ensures BlockFits(BlockOf(s)) && WholeBytes(BlockOf(s)) == s
  {
    hide Bytes, Number, LowByte, HighByte, Word, Power, RefsOf, RefsBytes, Short, RefFits;
    Powers();
    BytesNumber(s[..8]);
    BytesNumber(s[8..12]);
    BytesNumber(s[12..16]);
    ShortBack(s[16..18]);
    ShortBack(s[18..20]);
    ShortBack(s[20..22]);
    ShortBack(s[22..24]);
    ShortBack(s[26..28]);
    WordRound(0, s[24], s[25]);
    RefsBytesBack(s[28..]);
    Pieces(s);
  }

  lemma Pieces(s: seq<byte>)
    requires |s| == 4096
    ensures s == s[..8] + s[8..12] + s[12..16] + (s[16..18] + s[18..20] + s[20..22] + s[22..24] + [s[24]] +
                                                   ([s[25]] + s[26..28] + s[28..]))
  {
  }

  // ----- What the checksums notice -----

  /** The bytes differ at place `k` and nowhere else. */
  predicate OneByte(s: seq<byte>, t: seq<byte>, k: nat) {
    k < |s| == |t| && s[k] != t[k] && s[..k] == t[..k] && s[k + 1..] == t[k + 1..]
  }

  lemma OneByteSum(s: seq<byte>, t: seq<byte>, k: nat)
    requires OneByte(s, t, k)
    ensures C.Crc(0, s) as nat != C.Crc(0, t) as nat
  {
    assert s == s[..k] + [s[k]] + s[k + 1..] && t == s[..k] + [t[k]] + s[k + 1..];
    hide C.Crc;
    C.ChangedByte(0, s[..k], s[k], t[k], s[k + 1..]);
    if C.Crc(0, s) as nat == C.Crc(0, t) as nat { SameSums(C.Crc(0, s), C.Crc(0, t)); }
  }

  /** A damaged byte of a data block is noticed by the checksum in its reference; in a metablock from its sixteenth byte
      on, by its own. */
  lemma DamageNoticed(b: Block, d: Block, k: nat, past: Refs)
    requires |b.ref| == |d.ref| == REF_SIZE && OneByte(WholeBytes(b), WholeBytes(d), k)
    ensures Summed(past).whole(b) != Summed(past).whole(d)
    ensures k >= 16 ==> Summed(past).tail(b) != Summed(past).tail(d)
  {
    hide C.Crc, WholeBytes, TailBytes, OneByte, Bytes, RefsBytes, LowByte, HighByte;
    OneByteSum(WholeBytes(b), WholeBytes(d), k);
    if k >= 16 {
      TailIs(b);
      TailIs(d);
      TailOneByte(WholeBytes(b), WholeBytes(d), k);
      OneByteSum(TailBytes(b), TailBytes(d), k - 16);
    }
  }

  lemma TailIs(b: Block)
    requires |b.ref| == REF_SIZE
    ensures |WholeBytes(b)| == 4096 && TailBytes(b) == WholeBytes(b)[16..]
  {
    Layout(b);
  }

  lemma TailOneByte(s: seq<byte>, t: seq<byte>, k: nat)
    requires OneByte(s, t, k) && 16 <= k && |s| == |t|
    ensures |s| > 16 && OneByte(s[16..], t[16..], k - 16)
  {
    assert s[16..][..k - 16] == s[..k][16..] && t[16..][..k - 16] == t[..k][16..];
    assert s[16..][k - 16 + 1..] == s[k + 1..] && t[16..][k - 16 + 1..] == t[k + 1..];
  }
}
