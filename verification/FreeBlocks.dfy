/** The free-block bitmap: scans a word at a time, and first-fit allocation. */
module FreeBlocks {
  import opened Util

  const BITS := 64

  /** A 64-bit word, by its bits, low bit first. */
  type Word = w: seq<bool> | |w| == BITS witness seq(BITS, i => false)

  function And(x: Word, y: Word): (z: Word)
    ensures forall k :: 0 <= k < BITS ==> z[k] == (x[k] && y[k])
  {
    seq(BITS, k requires 0 <= k < BITS => x[k] && y[k])
  }

  function Not(x: Word): (z: Word)
    ensures forall k :: 0 <= k < BITS ==> z[k] == !x[k]
  {
    seq(BITS, k requires 0 <= k < BITS => !x[k])
  }

  /** `~((1 << off) - 1)`: the bits from `off` on. */
  function MaskFrom(off: nat): (z: Word)
    ensures forall k :: 0 <= k < BITS ==> z[k] == (k >= off)
  {
    seq(BITS, k requires 0 <= k < BITS => k >= off)
  }

  /** One plus the index of the lowest set bit, or 0. */
  function Lsb(w: Word): (b: nat)
    ensures b == 0 <==> forall k :: 0 <= k < BITS ==> !w[k]
    ensures b > 0 ==> b <= BITS && w[b - 1] && forall k :: 0 <= k < b - 1 ==> !w[k]
  {
    LsbFrom(w, 0)
  }

  function LsbFrom(w: Word, i: nat): (b: nat)
    requires i <= BITS && forall k :: 0 <= k < i ==> !w[k]
    ensures b == 0 <==> forall k :: 0 <= k < BITS ==> !w[k]
    ensures b > 0 ==> b <= BITS && w[b - 1] && forall k :: 0 <= k < b - 1 ==> !w[k]
    decreases BITS - i
  {
    if i == BITS then 0 else if w[i] then i + 1 else LsbFrom(w, i + 1)
  }

  /** Bit `j` of a row of words. */
  predicate Bit(v: seq<Word>, j: nat)
    requires j < |v| * BITS
  {
    Within(v, j);
    v[j / BITS][j % BITS]
  }

  lemma Within(v: seq<Word>, j: nat)
    requires j < |v| * BITS
    ensures j / BITS < |v| && j % BITS < BITS
  {
  }

  /** The first bit from `i` on, below `n`, that has a value; `n` if there is none. */
  function First(v: seq<Word>, val: bool, i: nat, n: nat): (r: nat)
    requires i <= n <= |v| * BITS
    ensures i <= r <= n && (r < n ==> Bit(v, r) == val) && forall j :: i <= j < r ==> Bit(v, j) != val
    decreases n - i
  {
    if i == n || Bit(v, i) == val then i else First(v, val, i + 1, n)
  }

  lemma FirstIs(v: seq<Word>, val: bool, i: nat, n: nat, r: nat)
    requires i <= r <= n <= |v| * BITS && (r < n ==> Bit(v, r) == val) && forall j :: i <= j < r ==> Bit(v, j) != val
    ensures First(v, val, i, n) == r
  {
    var f := First(v, val, i, n);
    assert f < n ==> Bit(v, f) == val;
    assert !(r < f);
  }

  /** No bit with the value lies from `i0` on below both `lim` and `i`. */
  ghost predicate NoneBefore(v: seq<Word>, val: bool, i0: nat, lim: nat, i: nat) {
    lim <= |v| * BITS && forall j :: i0 <= j < i && j < lim ==> Bit(v, j) != val
  }

  lemma NoneFound(v: seq<Word>, val: bool, i0: nat, lim: nat, i: nat)
    requires i0 <= lim <= i && NoneBefore(v, val, i0, lim, i)
    ensures lim <= |v| * BITS && First(v, val, i0, lim) == lim
  {
    FirstIs(v, val, i0, lim, lim);
  }

  class BitsetView {
    const v: array<Word>
    const n: nat

    ghost predicate Valid()
      reads this
    {
      n <= v.Length * BITS
    }

    constructor (v: array<Word>, n: nat)
      requires n <= v.Length * BITS
      ensures this.v == v && this.n == n && Valid()
    {
      this.v := v;
      this.n := n;
    }

    /** `find_lsb`: the word-level scan finds what a bit-by-bit scan would. */
    method FindLsb(i0: nat, n0: nat) returns (r: nat)
      requires Valid() && i0 <= n
      ensures r == First(v[..], true, i0, Min(n - i0, n0) + i0)
    {
      var i: nat, lim: nat := i0, Min(n - i0, n0) + i0;
      var off := i % BITS;
      var mask := MaskFrom(off);
      i := i - off;
      var b: nat := 0;
      ghost var vs := v[..];
      WordStart(i0);
      assert NoneBefore(vs, true, i0, lim, i);
      hide First, Bit, And, Not, Lsb, MaskFrom, NoneBefore;
      while b == 0 && i < lim
        invariant i % BITS == 0 && (b == 0 ==> mask == MaskFrom(if i0 > i then i0 - i else 0)) && i <= lim + BITS
        invariant b == 0 ==> NoneBefore(vs, true, i0, lim, i)
        invariant b > 0 ==> i < lim && b <= BITS && First(vs, true, i0, lim) == Min(lim, i + b - 1)
        decreases if b == 0 then 1 else 0, lim + BITS - i
      {
        Within(vs, i);
        b := Lsb(And(v[i / BITS], mask));
        Scanned(vs, true, i0, lim, i, And(vs[i / BITS], mask), b);
        if b == 0 {
          i := i + BITS;
          mask := MaskFrom(0);
        }
      }
      if b > 0 {
        r := Min(lim, i + b - 1);
      } else {
        NoneFound(vs, true, i0, lim, i);
        r := lim;
      }
    }

    /** `find_lsz`: the same for the next clear bit. */
    method FindLsz(i0: nat, n0: nat) returns (r: nat)
      requires Valid() && i0 <= n
      ensures r == First(v[..], false, i0, Min(n - i0, n0) + i0)
    {
      var i: nat, lim: nat := i0, Min(n - i0, n0) + i0;
      var off := i % BITS;
      var mask := MaskFrom(off);
      i := i - off;
      var b: nat := 0;
      ghost var vs := v[..];
      WordStart(i0);
      assert NoneBefore(vs, false, i0, lim, i);
      hide First, Bit, And, Not, Lsb, MaskFrom, NoneBefore;
      while b == 0 && i < lim
        invariant i % BITS == 0 && (b == 0 ==> mask == MaskFrom(if i0 > i then i0 - i else 0)) && i <= lim + BITS
        invariant b == 0 ==> NoneBefore(vs, false, i0, lim, i)
        invariant b > 0 ==> i < lim && b <= BITS && First(vs, false, i0, lim) == Min(lim, i + b - 1)
        decreases if b == 0 then 1 else 0, lim + BITS - i
      {
        Within(vs, i);
        b := Lsb(And(Not(v[i / BITS]), mask));
        Scanned(vs, false, i0, lim, i, And(Not(vs[i / BITS]), mask), b);
        if b == 0 {
          i := i + BITS;
          mask := MaskFrom(0);
        }
      }
      if b > 0 {
        r := Min(lim, i + b - 1);
      } else {
        NoneFound(vs, false, i0, lim, i);
        r := lim;
      }
    }

    /** `operator[]` and `bit::operator=`: set one bit of its word. */
    method SetBit(j: nat, x: bool)
      requires Valid() && j < n
      modifies v
      ensures forall k :: 0 <= k < v.Length * BITS ==> Bit(v[..], k) == if k == j then x else Bit(old(v[..]), k)
    {
      Within(v[..], j);
      ghost var was := v[..];
      v[j / BITS] := v[j / BITS][j % BITS := x];
      forall k | 0 <= k < v.Length * BITS ensures Bit(v[..], k) == if k == j then x else Bit(was, k) {
        Within(was, k);
        if k != j { Apart(j, k); }
      }
    }
  }

  lemma Apart(j: nat, k: nat)
    requires j != k
    ensures j / BITS != k / BITS || j % BITS != k % BITS
  {
  }

  lemma WordStart(i: nat)
    ensures (i - i % BITS) % BITS == 0 && i % BITS < BITS
  {
  }

  lemma InWord(i: nat, j: nat)
    requires i % BITS == 0 && i <= j < i + BITS
    ensures j / BITS == i / BITS && j % BITS == j - i
  {
  }

  /** What the lowest bit of a masked word says about the bits from `i` on: either the first one is found, or there is
      none in this word. */
  lemma Scanned(vs: seq<Word>, val: bool, i0: nat, lim: nat, i: nat, w: Word, b: nat)
    requires i0 <= lim <= |vs| * BITS && i % BITS == 0 && i < lim && i / BITS < |vs|
    requires NoneBefore(vs, val, i0, lim, i)
    requires forall k :: 0 <= k < BITS ==> w[k] == (k >= (if i0 > i then i0 - i else 0) && vs[i / BITS][k] == val)
    requires b == Lsb(w)
    ensures b == 0 ==> NoneBefore(vs, val, i0, lim, i + BITS)
    ensures b > 0 ==> First(vs, val, i0, lim) == Min(lim, i + b - 1)
  {
    forall j | i0 <= j < i + BITS && j < lim && i <= j ensures Bit(vs, j) == val <==> w[j - i] {
      InWord(i, j);
    }
    if b > 0 {
      assert w[b - 1];
      var r := Min(lim, i + b - 1);
      forall j | i0 <= j < r ensures Bit(vs, j) != val {
        if j >= i { assert !w[j - i]; }
      }
      FirstIs(vs, val, i0, lim, r);
    }
  }

  // ----- First fit -----

  const BITSPERBLOCK := 0x8000

  /** Blocks `s` to `s + count` are all free. */
  ghost predicate FreeRun(v: seq<Word>, s: nat, count: nat) {
    s + count <= BITSPERBLOCK && |v| * BITS >= BITSPERBLOCK && forall j :: s <= j < s + count ==> Bit(v, j)
  }

  /** `find_free_range`: the first run of `count` free blocks from `start` on. The scan asserts that it makes
      progress, so a count of 0 is accepted only when no block is free. */
  method FindFreeRange(fbb: array<Word>, count: nat, start: nat) returns (r: Option<nat>)
    requires fbb.Length * BITS == BITSPERBLOCK && start <= BITSPERBLOCK
    requires count > 0 || First(fbb[..], true, start, BITSPERBLOCK) == BITSPERBLOCK
    ensures r.Some? ==> count > 0 && start <= r.value && FreeRun(fbb[..], r.value, count)
    ensures r.Some? ==> forall s :: start <= s < r.value ==> !FreeRun(fbb[..], s, count)
    ensures r.None? ==> count == 0 || forall s :: start <= s ==> !FreeRun(fbb[..], s, count)
  {
    var view := new BitsetView(fbb, BITSPERBLOCK);
    var last := start;
    ghost var v := fbb[..];
    while true
      invariant start <= last <= BITSPERBLOCK
      invariant count == 0 ==> last == start
      invariant count > 0 ==> forall s :: start <= s < last ==> !FreeRun(v, s, count)
      decreases BITSPERBLOCK - last
    {
      var next := view.FindLsb(last, 0xFFFF_FFFF_FFFF_FFFF);
      if next == BITSPERBLOCK {
        NoneFrom(v, last, count);
        return None;
      }
      var end := view.FindLsz(next, count);
      assert end > next;
      if end - next == count {
        FirstFit(v, start, last, next, count);
        return Some(next);
      }
      TooShort(v, last, next, end, count);
      last := end;
    }
  }

  lemma BrokenRun(v: seq<Word>, s: nat, count: nat, j: nat)
    requires j < |v| * BITS && (s <= j < s + count ==> !Bit(v, j)) && (s + count <= j ==> s + count > BITSPERBLOCK) &&
             s <= j
    ensures !FreeRun(v, s, count)
  {
  }

  lemma NoneFrom(v: seq<Word>, last: nat, count: nat)
    requires |v| * BITS == BITSPERBLOCK && last <= BITSPERBLOCK && First(v, true, last, BITSPERBLOCK) == BITSPERBLOCK
    ensures count > 0 ==> forall s :: last <= s ==> !FreeRun(v, s, count)
  {
    if count > 0 {
      forall s: nat | last <= s ensures !FreeRun(v, s, count) {
        if s < BITSPERBLOCK { BrokenRun(v, s, count, s); }
      }
    }
  }

  lemma FirstFit(v: seq<Word>, start: nat, last: nat, next: nat, count: nat)
    requires |v| * BITS == BITSPERBLOCK && start <= last <= next < BITSPERBLOCK && count > 0
    requires next == First(v, true, last, BITSPERBLOCK)
    requires First(v, false, next, Min(BITSPERBLOCK - next, count) + next) == next + count
    requires forall s :: start <= s < last ==> !FreeRun(v, s, count)
    ensures FreeRun(v, next, count) && forall s :: start <= s < next ==> !FreeRun(v, s, count)
  {
    forall s: nat | last <= s < next ensures !FreeRun(v, s, count) {
      BrokenRun(v, s, count, s);
    }
  }

  lemma TooShort(v: seq<Word>, last: nat, next: nat, end: nat, count: nat)
    requires |v| * BITS == BITSPERBLOCK && last <= next < BITSPERBLOCK && count > 0
    requires next == First(v, true, last, BITSPERBLOCK)
    requires end == First(v, false, next, Min(BITSPERBLOCK - next, count) + next) && end - next != count
    ensures next < end <= BITSPERBLOCK && forall s :: last <= s < end ==> !FreeRun(v, s, count)
  {
    assert Bit(v, next);
    forall s: nat | last <= s < end ensures !FreeRun(v, s, count) {
      if s < next { BrokenRun(v, s, count, s); } else if end < BITSPERBLOCK { BrokenRun(v, s, count, end); }
    }
  }

  datatype Error = TooBig | NoSpace
  datatype Result = Ok(first: nat) | Err(error: Error)

  /** Set `count` bits from `first` on. */
  method Mark(fbb: array<Word>, first: nat, count: nat, x: bool)
    requires fbb.Length * BITS == BITSPERBLOCK && first + count <= BITSPERBLOCK
    modifies fbb
    ensures forall j :: 0 <= j < BITSPERBLOCK ==>
            Bit(fbb[..], j) == if first <= j < first + count then x else Bit(old(fbb[..]), j)
  {
    var view := new BitsetView(fbb, BITSPERBLOCK);
    var i := 0;
    while i < count
      invariant 0 <= i <= count
      invariant forall j :: 0 <= j < BITSPERBLOCK ==>
                Bit(fbb[..], j) == if first <= j < first + i then x else Bit(old(fbb[..]), j)
    {
      view.SetBit(first + i, x);
      i := i + 1;
    }
  }

  /** `allocate_extent`, with the bitmap block at hand. */
  method AllocateExtent(fbb: array<Word>, count: nat) returns (r: Result)
    requires fbb.Length * BITS == BITSPERBLOCK
    requires count > 0 || First(fbb[..], true, 0, BITSPERBLOCK) == BITSPERBLOCK
    modifies fbb
    ensures r == Err(TooBig) <==> count > BITSPERBLOCK
    ensures r == Err(NoSpace) <==>
            count <= BITSPERBLOCK && (count == 0 || forall s :: 0 <= s ==> !FreeRun(old(fbb[..]), s, count))
    ensures r.Err? ==> fbb[..] == old(fbb[..])
    ensures r.Ok? ==> FreeRun(old(fbb[..]), r.first, count)
    ensures r.Ok? ==> forall s :: 0 <= s < r.first ==> !FreeRun(old(fbb[..]), s, count)
    ensures r.Ok? ==> forall j :: 0 <= j < BITSPERBLOCK ==>
            Bit(fbb[..], j) == (Bit(old(fbb[..]), j) && !(r.first <= j < r.first + count))
  {
    if count > BITSPERBLOCK {
      return Err(TooBig);
    }
    var first := FindFreeRange(fbb, count, 0);
    if first.None? {
      return Err(NoSpace);
    }
    Mark(fbb, first.value, count, false);
    return Ok(first.value);
  }

  /** `free_extent`. */
  method FreeExtent(fbb: array<Word>, first: nat, count: nat)
    requires fbb.Length * BITS == BITSPERBLOCK && first + count <= BITSPERBLOCK
    modifies fbb
    ensures forall j :: 0 <= j < BITSPERBLOCK ==>
            Bit(fbb[..], j) == (Bit(old(fbb[..]), j) || first <= j < first + count)
  {
    Mark(fbb, first, count, true);
  }

  /** Words with the same bits are the same. */
  lemma SameBits(v: seq<Word>, w: seq<Word>)
    requires |v| == |w| && forall j :: 0 <= j < |v| * BITS ==> Bit(v, j) == Bit(w, j)
    ensures v == w
  {
    forall i | 0 <= i < |v| ensures v[i] == w[i] {
      forall k | 0 <= k < BITS ensures v[i][k] == w[i][k] {
        Place(i, k);
        assert Bit(v, i * BITS + k) == Bit(w, i * BITS + k);
      }
    }
  }

  lemma Place(i: nat, k: nat)
    requires k < BITS
    ensures (i * BITS + k) / BITS == i && (i * BITS + k) % BITS == k
  {
  }

  /** Freeing what was just allocated restores the bitmap. */
  method AllocateThenFree(fbb: array<Word>, count: nat)
    requires fbb.Length * BITS == BITSPERBLOCK && count > 0
    modifies fbb
    ensures fbb[..] == old(fbb[..])
  {
    ghost var was := fbb[..];
    var r := AllocateExtent(fbb, count);
    if r.Ok? {
      FreeExtent(fbb, r.first, count);
      SameBits(fbb[..], was);
    }
  }
}
