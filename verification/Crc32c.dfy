/** CRC32C four bytes at a time, with tables, and the bit-at-a-time checksum it computes. */
module Crc32c {

  type byte = bv8

  /** A checksum. */
  type Sum = bv32

  // ----- Words, with the operations kept apart from their bits -----

  const ZERO: bv32 := 0
  const ONE: bv32 := 1
  const POLY: bv32 := 0x82F6_3B78

  function Xor(x: bv32, y: bv32): bv32 { x ^ y }
  function Not(x: bv32): bv32 { x ^ 0xFFFF_FFFF }
  function Half(x: bv32): bv32 { x >> 1 }
  predicate Odd(x: bv32) { x & 1 != 0 }

  /** The low byte of a word, and the rest moved down. */
  function Low(x: bv32): byte { (x & 0xFF) as byte }
  function Rest(x: bv32): bv32 { x >> 8 }

  /** A byte at place `k` of a word. */
  function Put(b: byte, k: nat): bv32
    requires k < 4
  {
    if k == 0 then b as bv32 else if k == 1 then (b as bv32) << 8 else if k == 2
        then (b as bv32) << 16 else (b as bv32) << 24
  }

  /** The byte at place `k` of a word. */
  function Get(x: bv32, k: nat): byte
    requires k < 4
  {
    if k == 0 then (x & 0xFF) as byte else if k == 1 then ((x >> 8) & 0xFF) as byte
    else if k == 2 then ((x >> 16) & 0xFF) as byte else ((x >> 24) & 0xFF) as byte
  }

  function XorByte(a: byte, b: byte): byte { a ^ b }

  /** Four bytes in memory order, as a little-endian word. */
  function Word(b0: byte, b1: byte, b2: byte, b3: byte): bv32 {
    (b0 as bv32) | ((b1 as bv32) << 8) | ((b2 as bv32) << 16) | ((b3 as bv32) << 24)
  }

  lemma Assoc(x: bv32, y: bv32, z: bv32)
    ensures Xor(Xor(x, y), z) == Xor(x, Xor(y, z))
  {
  }

  lemma Comm(x: bv32, y: bv32)
    ensures Xor(x, y) == Xor(y, x)
  {
  }

  lemma Cancel(x: bv32, y: bv32)
    ensures Xor(Xor(x, y), y) == x
  {
  }

  lemma Neutral(x: bv32)
    ensures Xor(x, ZERO) == x
  {
  }

  lemma NotNot(x: bv32)
    ensures Not(Not(x)) == x
  {
  }

  lemma HalfXor(x: bv32, y: bv32)
    ensures Half(Xor(x, y)) == Xor(Half(x), Half(y))
  {
  }

  lemma OddXor(x: bv32, y: bv32)
    ensures Odd(Xor(x, y)) <==> Odd(x) != Odd(y)
  {
  }

  lemma OddOne(x: bv32)
    ensures !Odd(Xor(x, if Odd(x) then ONE else ZERO)) && Half(Xor(x, if Odd(x) then ONE else ZERO)) == Half(x)
  {
  }

  // ----- One bit and eight bits at a time -----

  /** Shift one bit out, with feedback. */
  function Shift(x: bv32): bv32 {
    if Odd(x) then Xor(Half(x), POLY) else Half(x)
  }

  function Shifts(k: nat, x: bv32): bv32 {
    if k == 0 then x else Shifts(k - 1, Shift(x))
  }

  function Shift8(x: bv32): bv32 { Shifts(8, x) }

  /** One bit of the message enters at the low end. */
  function BitStep(crc: bv32, bit: bool): bv32 {
    Shift(Xor(crc, if bit then ONE else ZERO))
  }

  function BitSteps(crc: bv32, bits: seq<bool>): bv32
    decreases |bits|
  {
    if bits == [] then crc else BitSteps(BitStep(crc, bits[0]), bits[1..])
  }

  /** The `k` low bits of a word, lowest first. */
  function LowBits(x: bv32, k: nat): seq<bool>
    decreases k
  {
    if k == 0 then [] else [Odd(x)] + LowBits(Half(x), k - 1)
  }

  /** The bits of a message, each byte low bit first. */
  function MessageBits(buf: seq<byte>): seq<bool> {
    if buf == [] then [] else LowBits(Put(buf[0], 0), 8) + MessageBits(buf[1..])
  }

  /** The checksum of a message, continuing from that of what came before: bit at a time. */
  function Crc(crc: bv32, buf: seq<byte>): bv32 {
    Not(BitSteps(Not(crc), MessageBits(buf)))
  }

  // ----- Linearity -----

  lemma ShiftLinear(x: bv32, y: bv32)
    ensures Shift(Xor(x, y)) == Xor(Shift(x), Shift(y))
  {
    hide Xor, Half, Odd;
    var a, b := Half(x), Half(y);
    HalfXor(x, y);
    OddXor(x, y);
    Assoc(a, b, POLY);
    Comm(b, POLY);
    Assoc(a, POLY, b);
    Assoc(Xor(a, POLY), b, POLY);
    Assoc(Xor(a, b), POLY, POLY);
    Cancel(Xor(a, b), POLY);
  }

  lemma {:induction false} ShiftsLinear(k: nat, x: bv32, y: bv32)
    ensures Shifts(k, Xor(x, y)) == Xor(Shifts(k, x), Shifts(k, y))
    decreases k
  {
    hide Xor, Shift;
    if k > 0 {
      ShiftLinear(x, y);
      ShiftsLinear(k - 1, Shift(x), Shift(y));
    }
  }

  lemma {:induction false} ShiftsAdd(j: nat, k: nat, x: bv32)
    ensures Shifts(j + k, x) == Shifts(k, Shifts(j, x))
    decreases j
  {
    hide Shift;
    if j > 0 { ShiftsAdd(j - 1, k, Shift(x)); }
  }

  function Halves(k: nat, x: bv32): bv32 {
    if k == 0 then x else Halves(k - 1, Half(x))
  }

  /** Zero bits at the low end only move the rest down. */
  lemma {:induction false} ShiftsOfZeros(k: nat, x: bv32)
    requires forall j: nat :: j < k ==> !Odd(Halves(j, x))
    ensures Shifts(k, x) == Halves(k, x)
    decreases k
  {
    hide Xor, Half, Odd;
    if k > 0 {
      assert !Odd(Halves(0, x));
      forall j: nat | j < k - 1 ensures !Odd(Halves(j, Half(x))) { assert !Odd(Halves(j + 1, x)); }
      ShiftsOfZeros(k - 1, Half(x));
    }
  }

  lemma HalvesAre(x: bv32)
    ensures Halves(0, x) == x && Halves(1, x) == Half(x) && Halves(2, x) == Half(Half(x))
    ensures Halves(3, x) == Half(Half(Half(x)))
    ensures Halves(4, x) == Half(Half(Half(Half(x)))) && Halves(5, x) == Half(Half(Half(Half(Half(x)))))
    ensures Halves(6, x) == Half(Half(Half(Half(Half(Half(x))))))
    ensures Halves(7, x) == Half(Half(Half(Half(Half(Half(Half(x)))))))
    ensures Halves(8, x) == Half(Half(Half(Half(Half(Half(Half(Half(x))))))))
  {
    hide Half;
    HalvesLast(7, x); HalvesLast(6, x); HalvesLast(5, x); HalvesLast(4, x);
    HalvesLast(3, x); HalvesLast(2, x); HalvesLast(1, x); HalvesLast(0, x);
  }

  lemma {:induction false} HalvesLast(k: nat, x: bv32)
    ensures Halves(k + 1, x) == Half(Halves(k, x))
    decreases k
  {
    hide Half;
    if k > 0 { HalvesLast(k - 1, Half(x)); }
  }

  lemma EightHalves(x: bv32)
    ensures Halves(8, x) == Rest(x)
  {
    hide Half, Rest;
    HalvesAre(x);
    HalfEight(x);
  }

  lemma HalfEight(x: bv32)
    ensures Half(Half(Half(Half(Half(Half(Half(Half(x)))))))) == Rest(x)
  {
  }

  lemma UpIsEven(b: byte, k: nat)
    requires 1 <= k < 4
    ensures !Odd(Put(b, k)) && !Odd(Half(Put(b, k))) && !Odd(Half(Half(Put(b, k)))) && !Odd(Half(Half(Half(Put(b, k)))))
  {
  }

  lemma UpIsEvenHigh(b: byte, k: nat)
    requires 1 <= k < 4
    ensures !Odd(Half(Half(Half(Half(Put(b, k)))))) && !Odd(Half(Half(Half(Half(Half(Put(b, k)))))))
    ensures !Odd(Half(Half(Half(Half(Half(Half(Put(b, k))))))))
    ensures !Odd(Half(Half(Half(Half(Half(Half(Half(Put(b, k)))))))))
  {
  }

  lemma RestPut(b: byte, k: nat)
    requires 1 <= k < 4
    ensures Rest(Put(b, k)) == Put(b, k - 1)
  {
  }

  /** A byte higher up moves down one place. */
  lemma Shift8Put(b: byte, k: nat)
    requires 1 <= k < 4
    ensures Shift8(Put(b, k)) == Put(b, k - 1)
  {
    var x := Put(b, k);
    UpIsEven(b, k);
    UpIsEvenHigh(b, k);
    RestPut(b, k);
    hide Odd, Half, Put, Rest;
    EvenHalves(x);
    ShiftsOfZeros(8, x);
    EightHalves(x);
  }

  lemma EvenHalves(x: bv32)
    requires !Odd(x) && !Odd(Half(x)) && !Odd(Half(Half(x))) && !Odd(Half(Half(Half(x))))
    requires !Odd(Half(Half(Half(Half(x))))) && !Odd(Half(Half(Half(Half(Half(x))))))
    requires !Odd(Half(Half(Half(Half(Half(Half(x))))))) && !Odd(Half(Half(Half(Half(Half(Half(Half(x))))))))
    ensures forall j: nat :: j < 8 ==> !Odd(Halves(j, x))
  {
    HalvesAre(x);
    hide Odd, Half, Halves;
    forall j: nat | j < 8 ensures !Odd(Halves(j, x)) {
      if j < 4 { assert j == 0 || j == 1 || j == 2 || j == 3; } else { assert j == 4 || j == 5 || j == 6 || j == 7; }
    }
  }

  // ----- A byte at a time -----

  function ByteStep(crc: bv32, b: byte): bv32 { Shift8(Xor(crc, Put(b, 0))) }

  function ByteSteps(crc: bv32, buf: seq<byte>): bv32
    decreases |buf|
  {
    if buf == [] then crc else ByteSteps(ByteStep(crc, buf[0]), buf[1..])
  }

  /** Bits entered at once, above the ones that have entered, wait their turn. */
  lemma {:induction false} BitsEnter(crc: bv32, x: bv32, k: nat)
    ensures Shifts(k, Xor(crc, x)) == Xor(BitSteps(crc, LowBits(x, k)), Halves(k, x))
    decreases k
  {
    hide Xor, Half, Odd, Shift;
    if k > 0 {
      var bit := if Odd(x) then ONE else ZERO;
      OneBitEnters(crc, x);
      BitsEnter(BitStep(crc, Odd(x)), Half(x), k - 1);
      var bits := LowBits(x, k);
      assert bits[0] == Odd(x) && bits[1..] == LowBits(Half(x), k - 1);
      assert BitSteps(crc, bits) == BitSteps(BitStep(crc, bits[0]), bits[1..]);
    }
  }

  lemma OneBitEnters(crc: bv32, x: bv32)
    ensures Shift(Xor(crc, x)) == Xor(BitStep(crc, Odd(x)), Half(x))
  {
    hide Xor, Half, Odd;
    var bit := if Odd(x) then ONE else ZERO;
    OddOne(x);
    Cancel(x, bit);
    Comm(Xor(x, bit), bit);
    Assoc(crc, bit, Xor(x, bit));
    ShiftLinear(Xor(crc, bit), Xor(x, bit));
  }

  lemma RestOfByte(b: byte)
    ensures Rest(Put(b, 0)) == ZERO
  {
  }

  /** A byte entered at once has the effect of its eight bits one by one. */
  lemma ByteIsEightBits(crc: bv32, b: byte)
    ensures ByteStep(crc, b) == BitSteps(crc, LowBits(Put(b, 0), 8))
  {
    hide Xor, Put, Rest;
    BitsEnter(crc, Put(b, 0), 8);
    EightHalves(Put(b, 0));
    RestOfByte(b);
    Neutral(BitSteps(crc, LowBits(Put(b, 0), 8)));
  }

  lemma {:induction false} BitStepsAppend(crc: bv32, a: seq<bool>, b: seq<bool>)
    ensures BitSteps(crc, a + b) == BitSteps(BitSteps(crc, a), b)
    decreases |a|
  {
    hide BitStep;
    if a == [] {
      assert a + b == b;
    } else {
      assert (a + b)[1..] == a[1..] + b;
      BitStepsAppend(BitStep(crc, a[0]), a[1..], b);
    }
  }

  lemma {:induction false} BytesAreBits(crc: bv32, buf: seq<byte>)
    ensures ByteSteps(crc, buf) == BitSteps(crc, MessageBits(buf))
    decreases |buf|
  {
    hide ByteStep, LowBits, Put;
    if buf != [] {
      ByteIsEightBits(crc, buf[0]);
      BitStepsAppend(crc, LowBits(Put(buf[0], 0), 8), MessageBits(buf[1..]));
      BytesAreBits(ByteStep(crc, buf[0]), buf[1..]);
    }
  }

  lemma {:induction false} ByteStepsAppend(crc: bv32, a: seq<byte>, b: seq<byte>)
    ensures ByteSteps(crc, a + b) == ByteSteps(ByteSteps(crc, a), b)
    decreases |a|
  {
    hide ByteStep;
    if a == [] {
      assert a + b == b;
    } else {
      assert (a + b)[1..] == a[1..] + b;
      ByteStepsAppend(ByteStep(crc, a[0]), a[1..], b);
    }
  }

  // ----- The tables -----

  /** `crc32c_lookup[k][i]`. */
  function Lookup(k: nat, i: byte): bv32
    decreases k
  {
    if k == 0 then Shift8(Put(i, 0))
    else var t := Lookup(k - 1, i); Xor(Rest(t), Lookup(0, Low(t)))
  }

  lemma WordParts(x: bv32)
    ensures x == Xor(Xor(Xor(Put(Get(x, 3), 3), Put(Get(x, 2), 2)), Put(Get(x, 1), 1)), Put(Get(x, 0), 0))
  {
  }

  lemma RestParts(x: bv32)
    ensures Rest(x) == Xor(Xor(Put(Get(x, 3), 2), Put(Get(x, 2), 1)), Put(Get(x, 1), 0)) && Low(x) == Get(x, 0)
  {
  }

  /** A byte is shifted out by a table lookup. */
  lemma Shift8Split(x: bv32)
    ensures Shift8(x) == Xor(Rest(x), Lookup(0, Low(x)))
  {
    hide Xor, Put, Get, Low, Rest, Shift;
    var a, b, c, d := Put(Get(x, 3), 3), Put(Get(x, 2), 2), Put(Get(x, 1), 1), Put(Get(x, 0), 0);
    WordParts(x);
    RestParts(x);
    ShiftsLinear(8, Xor(Xor(a, b), c), d);
    ShiftsLinear(8, Xor(a, b), c);
    ShiftsLinear(8, a, b);
    Shift8Put(Get(x, 1), 1);
    Shift8Put(Get(x, 2), 2);
    Shift8Put(Get(x, 3), 3);
  }

  /** Table `k` shifts a byte out over `k + 1` bytes. */
  lemma {:induction false} LookupShifts(k: nat, i: byte)
    ensures Lookup(k, i) == Shifts(8 * (k + 1), Put(i, 0))
    decreases k
  {
    hide Xor, Put, Low, Rest, Shift;
    if k > 0 {
      LookupShifts(k - 1, i);
      Shift8Split(Lookup(k - 1, i));
      ShiftsAdd(8 * k, 8, Put(i, 0));
    }
  }

  lemma ByteMix(crc: bv32, b: byte)
    ensures Low(Xor(crc, Put(b, 0))) == XorByte(Low(crc), b) && Rest(Xor(crc, Put(b, 0))) == Rest(crc)
  {
  }

  /** The table step of the first and last loops. */
  lemma TableByteStep(crc: bv32, b: byte)
    ensures Xor(Rest(crc), Lookup(0, XorByte(Low(crc), b))) == ByteStep(crc, b)
  {
    hide Xor, Put, Low, Rest, Shifts, Lookup, XorByte;
    Shift8Split(Xor(crc, Put(b, 0)));
    ByteMix(crc, b);
  }

  /** The table step of the middle loop. */
  function SliceStep(crc: bv32, w: bv32): bv32 {
    var crc1 := Xor(crc, w);
    Xor(Xor(Xor(Lookup(0, Get(crc1, 3)), Lookup(1, Get(crc1, 2))), Lookup(2, Get(crc1, 1))), Lookup(3, Get(crc1, 0)))
  }

  /** A byte at place `k` first takes `k` bytes' shifts to come down. */
  lemma {:induction false} ShiftsPut(b: byte, k: nat, n: nat)
    requires k < 4
    ensures Shifts(8 * k + n, Put(b, k)) == Shifts(n, Put(b, 0))
    decreases k
  {
    hide Put, Shifts;
    if k > 0 {
      ShiftsAdd(8, 8 * (k - 1) + n, Put(b, k));
      Shift8Put(b, k);
      ShiftsPut(b, k - 1, n);
    }
  }

  /** Four table lookups shift a whole word out. */
  lemma SliceShifts(crc: bv32, w: bv32)
    ensures SliceStep(crc, w) == Shifts(32, Xor(crc, w))
  {
    hide Xor, Put, Get, Shifts, Lookup;
    var x := Xor(crc, w);
    var a, b, c, d := Put(Get(x, 3), 3), Put(Get(x, 2), 2), Put(Get(x, 1), 1), Put(Get(x, 0), 0);
    WordParts(x);
    ShiftsLinear(32, Xor(Xor(a, b), c), d);
    ShiftsLinear(32, Xor(a, b), c);
    ShiftsLinear(32, a, b);
    ShiftsPut(Get(x, 3), 3, 8); LookupShifts(0, Get(x, 3));
    ShiftsPut(Get(x, 2), 2, 16); LookupShifts(1, Get(x, 2));
    ShiftsPut(Get(x, 1), 1, 24); LookupShifts(2, Get(x, 1));
    ShiftsPut(Get(x, 0), 0, 32); LookupShifts(3, Get(x, 0));
  }

  lemma WordMix(crc: bv32, b0: byte, b1: byte, b2: byte, b3: byte)
    ensures Xor(crc, Word(b0, b1, b2, b3)) == Xor(Xor(Xor(Xor(crc, Put(b0, 0)), Put(b1, 1)), Put(b2, 2)), Put(b3, 3))
  {
    hide Xor, Put, Word;
    var a, b, c, d := Put(b0, 0), Put(b1, 1), Put(b2, 2), Put(b3, 3);
    WordIs(b0, b1, b2, b3);
    Assoc(crc, Xor(Xor(a, b), c), d);
    Assoc(crc, Xor(a, b), c);
    Assoc(crc, a, b);
  }

  lemma WordIs(b0: byte, b1: byte, b2: byte, b3: byte)
    ensures Word(b0, b1, b2, b3) == Xor(Xor(Xor(Put(b0, 0), Put(b1, 1)), Put(b2, 2)), Put(b3, 3))
  {
  }

  /** Bytes waiting at places 1 to `k` enter after the byte at place 0 has been shifted out. */
  lemma OneByteOut(x: bv32, b1: byte, b2: byte, b3: byte)
    ensures Shift8(Xor(Xor(Xor(x, Put(b1, 1)), Put(b2, 2)), Put(b3, 3)))
            == Xor(Xor(Xor(Shift8(x), Put(b1, 0)), Put(b2, 1)), Put(b3, 2))
  {
    hide Xor, Put, Shifts;
    ShiftsLinear(8, Xor(Xor(x, Put(b1, 1)), Put(b2, 2)), Put(b3, 3));
    ShiftsLinear(8, Xor(x, Put(b1, 1)), Put(b2, 2));
    ShiftsLinear(8, x, Put(b1, 1));
    Shift8Put(b1, 1);
    Shift8Put(b2, 2);
    Shift8Put(b3, 3);
  }

  lemma TwoBytesOut(x: bv32, b2: byte, b3: byte)
    ensures Shift8(Xor(Xor(x, Put(b2, 1)), Put(b3, 2))) == Xor(Xor(Shift8(x), Put(b2, 0)), Put(b3, 1))
  {
    hide Xor, Put, Shifts;
    ShiftsLinear(8, Xor(x, Put(b2, 1)), Put(b3, 2));
    ShiftsLinear(8, x, Put(b2, 1));
    Shift8Put(b2, 1);
    Shift8Put(b3, 2);
  }

  lemma ThreeBytesOut(x: bv32, b3: byte)
    ensures Shift8(Xor(x, Put(b3, 1))) == Xor(Shift8(x), Put(b3, 0))
  {
    hide Xor, Put, Shifts;
    ShiftsLinear(8, x, Put(b3, 1));
    Shift8Put(b3, 1);
  }

  /** A word is its four bytes, one after the other. */
  lemma SliceIsFourBytes(crc: bv32, b0: byte, b1: byte, b2: byte, b3: byte)
    ensures SliceStep(crc, Word(b0, b1, b2, b3)) == ByteStep(ByteStep(ByteStep(ByteStep(crc, b0), b1), b2), b3)
  {
    hide Xor, Put, Get, Word, Shifts, SliceStep;
    var w := Word(b0, b1, b2, b3);
    SliceShifts(crc, w);
    WordMix(crc, b0, b1, b2, b3);
    var x := Xor(crc, w);
    ShiftsAdd(8, 24, x);
    ShiftsAdd(8, 16, Shift8(x));
    ShiftsAdd(8, 8, Shift8(Shift8(x)));
    OneByteOut(Xor(crc, Put(b0, 0)), b1, b2, b3);
    TwoBytesOut(Xor(ByteStep(crc, b0), Put(b1, 0)), b2, b3);
    ThreeBytesOut(Xor(ByteStep(ByteStep(crc, b0), b1), Put(b2, 0)), b3);
  }

  // ----- crc32c -----

  lemma OneByteMore(crc: bv32, buf: seq<byte>, i: nat)
    requires i < |buf|
    ensures ByteSteps(crc, buf[..i + 1]) == ByteStep(ByteSteps(crc, buf[..i]), buf[i])
  {
    hide ByteStep;
    assert buf[..i + 1] == buf[..i] + [buf[i]];
    ByteStepsAppend(crc, buf[..i], [buf[i]]);
    assert ByteSteps(ByteSteps(crc, buf[..i]), [buf[i]]) == ByteSteps(ByteStep(ByteSteps(crc, buf[..i]), buf[i]), []);
  }

  lemma FourBytesMore(crc: bv32, buf: seq<byte>, i: nat)
    requires i + 4 <= |buf|
    ensures ByteSteps(crc, buf[..i + 4]) ==
            SliceStep(ByteSteps(crc, buf[..i]), Word(buf[i], buf[i + 1], buf[i + 2], buf[i + 3]))
  {
    hide ByteStep, SliceStep, Word, ByteSteps;
    OneByteMore(crc, buf, i);
    OneByteMore(crc, buf, i + 1);
    OneByteMore(crc, buf, i + 2);
    OneByteMore(crc, buf, i + 3);
    SliceIsFourBytes(ByteSteps(crc, buf[..i]), buf[i], buf[i + 1], buf[i + 2], buf[i + 3]);
  }

  /** The checksum of a buffer at any address and of any length: single bytes up to an aligned address, then words,
      then the remaining bytes. */
  method Crc32c(crc: bv32, buf: seq<byte>, addr: nat) returns (r: bv32)
    ensures r == Crc(crc, buf)
  {
    hide ByteSteps, ByteStep, Lookup, SliceStep, Word, Xor, Not, Low, Rest, XorByte;
    var init := Not(crc);
    var crc0 := init;
    var i: nat, len: nat := 0, |buf|;
    NoBytes(init, buf);
    while len != 0 && (addr + i) % 4 != 0
      invariant i + len == |buf| && crc0 == ByteSteps(init, buf[..i])
      decreases len
    {
      TableByteStep(crc0, buf[i]);
      OneByteMore(init, buf, i);
      crc0 := Xor(Rest(crc0), Lookup(0, XorByte(Low(crc0), buf[i])));
      i, len := i + 1, len - 1;
    }
    while len >= 4
      invariant i + len == |buf| && crc0 == ByteSteps(init, buf[..i])
      decreases len
    {
      FourBytesMore(init, buf, i);
      crc0 := SliceStep(crc0, Word(buf[i], buf[i + 1], buf[i + 2], buf[i + 3]));
      i, len := i + 4, len - 4;
    }
    while len != 0
      invariant i + len == |buf| && crc0 == ByteSteps(init, buf[..i])
      decreases len
    {
      TableByteStep(crc0, buf[i]);
      OneByteMore(init, buf, i);
      crc0 := Xor(Rest(crc0), Lookup(0, XorByte(Low(crc0), buf[i])));
      i, len := i + 1, len - 1;
    }
    assert buf[..i] == buf;
    BytesAreBits(init, buf);
    r := Not(crc0);
  }

  lemma NoBytes(crc: bv32, buf: seq<byte>)
    ensures ByteSteps(crc, buf[..0]) == crc
  {
  }

  /** A checksum can be continued: that of a whole is that of its end, started from that of its beginning. */
  lemma CrcAppend(crc: bv32, a: seq<byte>, b: seq<byte>)
    ensures Crc(Crc(crc, a), b) == Crc(crc, a + b)
  {
    hide Not, ByteStep, MessageBits;
    var init := Not(crc);
    BytesAreBits(init, a);
    BytesAreBits(ByteSteps(init, a), b);
    BytesAreBits(init, a + b);
    ByteStepsAppend(init, a, b);
    NotNot(ByteSteps(init, a));
  }

  // ----- What a checksum notices -----

  /** The feedback sets the high bit exactly if the bit shifted out was set. */
  lemma ShiftHigh(x: bv32)
    ensures Shift(x) & 0x8000_0000 != 0 <==> Odd(x)
  {
  }

  lemma HalfOdd(x: bv32, y: bv32)
    requires Half(x) == Half(y) && (Odd(x) <==> Odd(y))
    ensures x == y
  {
  }

  lemma ShiftInjective(x: bv32, y: bv32)
    requires Shift(x) == Shift(y)
    ensures x == y
  {
    ShiftHigh(x);
    ShiftHigh(y);
    hide Half, Odd, Xor;
    if Odd(x) {
      Cancel(Half(x), POLY);
      Cancel(Half(y), POLY);
    }
    HalfOdd(x, y);
  }

  lemma {:induction false} ShiftsInjective(k: nat, x: bv32, y: bv32)
    requires Shifts(k, x) == Shifts(k, y)
    ensures x == y
    decreases k
  {
    hide Shift;
    if k > 0 {
      ShiftsInjective(k - 1, Shift(x), Shift(y));
      ShiftInjective(x, y);
    }
  }

  lemma PutInjective(a: byte, b: byte)
    requires Put(a, 0) == Put(b, 0)
    ensures a == b
  {
  }

  /** A byte step loses neither the checksum nor the byte. */
  lemma ByteStepInjective(c: bv32, d: bv32, a: byte, b: byte)
    requires ByteStep(c, a) == ByteStep(d, b)
    ensures a == b ==> c == d
    ensures c == d ==> a == b
  {
    hide Shift, Xor, Put;
    ShiftsInjective(8, Xor(c, Put(a, 0)), Xor(d, Put(b, 0)));
    Cancel(c, Put(a, 0));
    Cancel(d, Put(b, 0));
    Comm(c, Put(a, 0));
    Comm(d, Put(b, 0));
    Cancel(Put(a, 0), c);
    Cancel(Put(b, 0), d);
    if c == d { PutInjective(a, b); }
  }

  lemma {:induction false} ByteStepsInjective(c: bv32, d: bv32, buf: seq<byte>)
    requires ByteSteps(c, buf) == ByteSteps(d, buf)
    ensures c == d
    decreases |buf|
  {
    hide ByteStep;
    if buf != [] {
      ByteStepsInjective(ByteStep(c, buf[0]), ByteStep(d, buf[0]), buf[1..]);
      ByteStepInjective(c, d, buf[0], buf[0]);
    }
  }

  /** A checksum notices every change of one byte, so every single-bit error. */
  lemma ChangedByte(crc: bv32, p: seq<byte>, a: byte, b: byte, q: seq<byte>)
    requires a != b
    ensures Crc(crc, p + [a] + q) != Crc(crc, p + [b] + q)
  {
    var init := Not(crc);
    var c := ByteSteps(init, p);
    forall x: byte ensures BitSteps(init, MessageBits(p + [x] + q)) == ByteSteps(ByteStep(c, x), q) {
      ChangedPart(init, p, x, q);
    }
    hide BitSteps, MessageBits, ByteStep, ByteSteps, Not;
    NotNot(BitSteps(init, MessageBits(p + [a] + q)));
    NotNot(BitSteps(init, MessageBits(p + [b] + q)));
    if Crc(crc, p + [a] + q) == Crc(crc, p + [b] + q) {
      ByteStepsInjective(ByteStep(c, a), ByteStep(c, b), q);
      ByteStepInjective(c, c, a, b);
    }
  }

  lemma ChangedPart(init: bv32, p: seq<byte>, x: byte, q: seq<byte>)
    ensures BitSteps(init, MessageBits(p + [x] + q)) == ByteSteps(ByteStep(ByteSteps(init, p), x), q)
  {
    BytesAreBits(init, p + [x] + q);
    hide ByteStep, BitSteps, MessageBits;
    ByteStepsAppend(init, p + [x], q);
    ByteStepsAppend(init, p, [x]);
    assert [x][1..] == [];
  }

  // ----- A test vector -----

  /** 32 incrementing bytes. */
  function Incrementing(): seq<byte> {
    First() + Second() + (Third() + Last())
  }

  function First(): seq<byte> { [0, 1, 2, 3, 4, 5, 6, 7] }
  function Second(): seq<byte> { [8, 9, 10, 11, 12, 13, 14, 15] }
  function Third(): seq<byte> { [16, 17, 18, 19, 20, 21, 22, 23] }
  function Last(): seq<byte> { [24, 25, 26, 27, 28, 29, 30, 31] }

  lemma EnterByte(v: seq<byte>, c: bv32, k: nat, b: byte, d: bv32)
    requires k < |v| && v[k] == b && ByteStep(c, b) == d
    ensures ByteSteps(c, v[k..]) == ByteSteps(d, v[k + 1..])
  {
    assert v[k..][1..] == v[k + 1..];
    hide ByteStep;
  }

  lemma FirstSteps()
    ensures ByteStep(0xFFFF_FFFF, 0) == 0xAD82_ACAE && ByteStep(0xAD82_ACAE, 1) == 0xFCF5_0B2E
    ensures ByteStep(0xFCF5_0B2E, 2) == 0x6D02_B405 && ByteStep(0x6D02_B405, 3) == 0x26CC_E55C
    ensures ByteStep(0x26CC_E55C, 4) == 0xDBDA_4EF9 && ByteStep(0xDBDA_4EF9, 5) == 0xBEF6_7AEB
    ensures ByteStep(0xBEF6_7AEB, 6) == 0x5CA6_12B3 && ByteStep(0x5CA6_12B3, 7) == 0x75D3_43C4
  {
  }

  lemma EnterFirst(v: seq<byte>)
    requires |v| == 8 && v[0] == 0 && v[1] == 1 && v[2] == 2 && v[3] == 3
    requires v[4] == 4 && v[5] == 5 && v[6] == 6 && v[7] == 7
    ensures ByteSteps(0xFFFF_FFFF, v) == 0x75D3_43C4
  {
    FirstSteps();
    NothingEntered(0x75D3_43C4);
    assert v[0..] == v && v[8..] == [];
    hide ByteStep, ByteSteps;
    EnterByte(v, 0xFFFF_FFFF, 0, 0, 0xAD82_ACAE);
    EnterByte(v, 0xAD82_ACAE, 1, 1, 0xFCF5_0B2E);
    EnterByte(v, 0xFCF5_0B2E, 2, 2, 0x6D02_B405);
    EnterByte(v, 0x6D02_B405, 3, 3, 0x26CC_E55C);
    EnterByte(v, 0x26CC_E55C, 4, 4, 0xDBDA_4EF9);
    EnterByte(v, 0xDBDA_4EF9, 5, 5, 0xBEF6_7AEB);
    EnterByte(v, 0xBEF6_7AEB, 6, 6, 0x5CA6_12B3);
    EnterByte(v, 0x5CA6_12B3, 7, 7, 0x75D3_43C4);
  }

  lemma SecondSteps()
    ensures ByteStep(0x75D3_43C4, 8) == 0x8EBB_3A57 && ByteStep(0x8EBB_3A57, 9) == 0xFDD3_DECE
    ensures ByteStep(0xFDD3_DECE, 10) == 0x04EA_6205 && ByteStep(0x04EA_6205, 11) == 0xAC7C_5545
    ensures ByteStep(0xAC7C_5545, 12) == 0x3965_BA25 && ByteStep(0x3965_BA25, 13) == 0xAA5D_B3AB
    ensures ByteStep(0xAA5D_B3AB, 14) == 0x9710_FC09 && ByteStep(0x9710_FC09, 15) == 0x2636_F714
  {
  }

  lemma EnterSecond(v: seq<byte>)
    requires |v| == 8 && v[0] == 8 && v[1] == 9 && v[2] == 10 && v[3] == 11
    requires v[4] == 12 && v[5] == 13 && v[6] == 14 && v[7] == 15
    ensures ByteSteps(0x75D3_43C4, v) == 0x2636_F714
  {
    SecondSteps();
    NothingEntered(0x2636_F714);
    assert v[0..] == v && v[8..] == [];
    hide ByteStep, ByteSteps;
    EnterByte(v, 0x75D3_43C4, 0, 8, 0x8EBB_3A57);
    EnterByte(v, 0x8EBB_3A57, 1, 9, 0xFDD3_DECE);
    EnterByte(v, 0xFDD3_DECE, 2, 10, 0x04EA_6205);
    EnterByte(v, 0x04EA_6205, 3, 11, 0xAC7C_5545);
    EnterByte(v, 0xAC7C_5545, 4, 12, 0x3965_BA25);
    EnterByte(v, 0x3965_BA25, 5, 13, 0xAA5D_B3AB);
    EnterByte(v, 0xAA5D_B3AB, 6, 14, 0x9710_FC09);
    EnterByte(v, 0x9710_FC09, 7, 15, 0x2636_F714);
  }

  lemma ThirdSteps()
    ensures ByteStep(0x2636_F714, 16) == 0xC7BC_A1E8 && ByteStep(0xC7BC_A1E8, 17) == 0x8B1B_0818
    ensures ByteStep(0x8B1B_0818, 18) == 0x6B69_3330 && ByteStep(0x6B69_3330, 19) == 0x3386_1419
    ensures ByteStep(0x3386_1419, 20) == 0xBF1B_CAC7 && ByteStep(0xBF1B_CAC7, 21) == 0x3257_8A96
    ensures ByteStep(0x3257_8A96, 22) == 0x82C4_6CF2 && ByteStep(0x82C4_6CF2, 23) == 0xD643_786A
  {
  }

  lemma EnterThird(v: seq<byte>)
    requires |v| == 8 && v[0] == 16 && v[1] == 17 && v[2] == 18 && v[3] == 19
    requires v[4] == 20 && v[5] == 21 && v[6] == 22 && v[7] == 23
    ensures ByteSteps(0x2636_F714, v) == 0xD643_786A
  {
    ThirdSteps();
    NothingEntered(0xD643_786A);
    assert v[0..] == v && v[8..] == [];
    hide ByteStep, ByteSteps;
    EnterByte(v, 0x2636_F714, 0, 16, 0xC7BC_A1E8);
    EnterByte(v, 0xC7BC_A1E8, 1, 17, 0x8B1B_0818);
    EnterByte(v, 0x8B1B_0818, 2, 18, 0x6B69_3330);
    EnterByte(v, 0x6B69_3330, 3, 19, 0x3386_1419);
    EnterByte(v, 0x3386_1419, 4, 20, 0xBF1B_CAC7);
    EnterByte(v, 0xBF1B_CAC7, 5, 21, 0x3257_8A96);
    EnterByte(v, 0x3257_8A96, 6, 22, 0x82C4_6CF2);
    EnterByte(v, 0x82C4_6CF2, 7, 23, 0xD643_786A);
  }

  lemma LastSteps()
    ensures ByteStep(0xD643_786A, 24) == 0x9075_6782 && ByteStep(0x9075_6782, 25) == 0x0BB1_224B
    ensures ByteStep(0x0BB1_224B, 26) == 0xA345_E8F2 && ByteStep(0xA345_E8F2, 27) == 0x9B21_363E
    ensures ByteStep(0x9B21_363E, 28) == 0xC11D_DF1F && ByteStep(0xC11D_DF1F, 29) == 0xE1FA_6D28
    ensures ByteStep(0xE1FA_6D28, 30) == 0x16A3_5434 && ByteStep(0x16A3_5434, 31) == 0xB922_86B1
  {
  }

  lemma EnterLast(v: seq<byte>)
    requires |v| == 8 && v[0] == 24 && v[1] == 25 && v[2] == 26 && v[3] == 27
    requires v[4] == 28 && v[5] == 29 && v[6] == 30 && v[7] == 31
    ensures ByteSteps(0xD643_786A, v) == 0xB922_86B1
  {
    LastSteps();
    NothingEntered(0xB922_86B1);
    assert v[0..] == v && v[8..] == [];
    hide ByteStep, ByteSteps;
    EnterByte(v, 0xD643_786A, 0, 24, 0x9075_6782);
    EnterByte(v, 0x9075_6782, 1, 25, 0x0BB1_224B);
    EnterByte(v, 0x0BB1_224B, 2, 26, 0xA345_E8F2);
    EnterByte(v, 0xA345_E8F2, 3, 27, 0x9B21_363E);
    EnterByte(v, 0x9B21_363E, 4, 28, 0xC11D_DF1F);
    EnterByte(v, 0xC11D_DF1F, 5, 29, 0xE1FA_6D28);
    EnterByte(v, 0xE1FA_6D28, 6, 30, 0x16A3_5434);
    EnterByte(v, 0x16A3_5434, 7, 31, 0xB922_86B1);
  }

  lemma FirstEntered()
    ensures ByteSteps(0xFFFF_FFFF, First()) == 0x75D3_43C4
  {
    hide ByteSteps;
    EnterFirst(First());
  }

  lemma SecondEntered()
    ensures ByteSteps(0x75D3_43C4, Second()) == 0x2636_F714
  {
    hide ByteSteps;
    EnterSecond(Second());
  }

  lemma ThirdEntered()
    ensures ByteSteps(0x2636_F714, Third()) == 0xD643_786A
  {
    hide ByteSteps;
    EnterThird(Third());
  }

  lemma LastEntered()
    ensures ByteSteps(0xD643_786A, Last()) == 0xB922_86B1
  {
    hide ByteSteps;
    EnterLast(Last());
  }

  lemma NothingEntered(c: bv32)
    ensures ByteSteps(c, []) == c
  {
  }

  /** The checksum that section B.4 of RFC 3720 gives for 32 incrementing bytes. */
  lemma TestVector()
    ensures Crc(0, Incrementing()) == 0x46DD_794E
  {
    hide ByteSteps, BitSteps, MessageBits, First, Second, Third, Last;
    FirstEntered();
    SecondEntered();
    ThirdEntered();
    LastEntered();
    ByteStepsAppend(0xFFFF_FFFF, First(), Second());
    ByteStepsAppend(0xFFFF_FFFF, First() + Second(), Third() + Last());
    ByteStepsAppend(0x2636_F714, Third(), Last());
    BytesAreBits(0xFFFF_FFFF, Incrementing());
  }
}
