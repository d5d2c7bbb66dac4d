/** Sets of typed address ranges: a sorted array of range starts, updated in place. */
module MemRanges {

  /** The start and type of a range; it ends where the next one starts. */
  datatype Range = Range(addr: nat, ty: int)

  /** Ranges in increasing order, followed by the limit. */
  ghost predicate Increasing(s: seq<Range>) {
    |s| >= 2 && s[0].addr == 0 && forall i, j :: 0 <= i < j < |s| ==> s[i].addr < s[j].addr
  }

  /** Canonical: neighbours differ. */
  ghost predicate Canonical(s: seq<Range>) {
    Increasing(s) && forall i :: 0 < i < |s| - 1 ==> s[i].ty != s[i - 1].ty
  }

  function Limit(s: seq<Range>): nat
    requires s != []
  {
    s[|s| - 1].addr
  }

  predicate Covers(s: seq<Range>, i: nat, a: nat) {
    i + 1 < |s| && s[i].addr <= a < s[i + 1].addr
  }

  /** The type of an address: that of the first range that ends after it. */
  function TypeAt(s: seq<Range>, a: nat): int {
    if |s| < 2 then 0 else if a < s[1].addr then s[0].ty else TypeAt(s[1..], a)
  }

  lemma {:induction false} CoverType(s: seq<Range>, i: nat, a: nat)
    requires Covers(s, i, a) && forall j, k :: 0 <= j < k < |s| ==> s[j].addr < s[k].addr
    ensures TypeAt(s, a) == s[i].ty
    decreases i
  {
    if i > 0 {
      assert s[1].addr <= s[i].addr;
      CoverType(s[1..], i - 1, a);
    }
  }

  lemma {:induction false} CoverExists(s: seq<Range>, a: nat, from: nat) returns (i: nat)
    requires Increasing(s) && from + 1 < |s| && s[from].addr <= a < Limit(s)
    ensures Covers(s, i, a) && i >= from && TypeAt(s, a) == s[i].ty
    decreases |s| - from
  {
    if a < s[from + 1].addr {
      i := from;
      CoverType(s, i, a);
    } else {
      i := CoverExists(s, a, from + 1);
    }
  }

  // ----- The result of an assignment -----

  /** The bounds found for an assignment of `ty` to `[first, last)`: `[f, l)` is that range, extended over neighbours
      that have the type already; it starts in range `i` and ends in, or at the start of, range `j`. */
  ghost predicate Bounds(s: seq<Range>, first: nat, last: nat, ty: int, i: nat, j: nat, f: nat, l: nat) {
    && i + 1 < |s| && i <= j < |s| && f <= first < last <= l <= Limit(s)
    && s[i].addr <= f < s[i + 1].addr
    && s[j].addr <= l && (j + 1 < |s| ==> l < s[j + 1].addr)
    && (if f == s[i].addr then i == 0 || s[i - 1].ty != ty else s[i].ty != ty)
    && (if l == s[j].addr then j + 1 == |s| || s[j].ty != ty else s[j].ty != ty)
    && (forall a :: f <= a < first || last <= a < l ==> TypeAt(s, a) == ty)
  }

  /** What follows the assigned range. */
  function Right(s: seq<Range>, j: nat, l: nat): seq<Range>
    requires j < |s|
  {
    if l == s[j].addr then s[j..] else [Range(l, s[j].ty)] + s[j + 1..]
  }

  function Left(s: seq<Range>, i: nat, f: nat): seq<Range>
    requires i < |s|
  {
    if f == s[i].addr then s[..i] else s[..i + 1]
  }

  function Assigned(s: seq<Range>, ty: int, i: nat, j: nat, f: nat, l: nat): seq<Range>
    requires i < |s| && j < |s|
  {
    Join(Left(s, i, f), Range(f, ty), Right(s, j, l))
  }

  ghost predicate Sorted(s: seq<Range>) {
    forall i, j :: 0 <= i < j < |s| ==> s[i].addr < s[j].addr
  }

  ghost predicate AllBelow(p: seq<Range>, f: nat) {
    forall k :: 0 <= k < |p| ==> p[k].addr < f
  }

  ghost predicate Prefix(s: seq<Range>, p: seq<Range>) {
    |p| <= |s| && forall k :: 0 <= k < |p| ==> p[k] == s[k]
  }

  /** From its second element on, `r` is `s` from `j + 1` on. */
  ghost predicate Suffix(s: seq<Range>, j: nat, r: seq<Range>) {
    |r| + j == |s| && forall k :: 1 <= k < |r| ==> r[k] == s[j + k]
  }

  lemma LeftIs(s: seq<Range>, ty: int, i: nat, f: nat)
    requires Increasing(s) && i + 1 < |s| && s[i].addr <= f < s[i + 1].addr
    requires if f == s[i].addr then i == 0 || s[i - 1].ty != ty else s[i].ty != ty
    ensures var p := Left(s, i, f);
            && |p| == (if f == s[i].addr then i else i + 1)
            && Prefix(s, p) && Sorted(p) && AllBelow(p, f)
            && (p != [] ==> p[|p| - 1].ty != ty) && (p == [] ==> f == 0)
  {
  }

  lemma RightIs(s: seq<Range>, ty: int, j: nat, l: nat)
    requires Increasing(s) && j < |s| && s[j].addr <= l <= Limit(s) && (j + 1 < |s| ==> l < s[j + 1].addr)
    requires if l == s[j].addr then j + 1 == |s| || s[j].ty != ty else s[j].ty != ty
    ensures var r := Right(s, j, l);
            && |r| == |s| - j && r[0].addr == l && r[|r| - 1].addr == Limit(s) &&
                 (|r| > 1 ==> r[0].ty == s[j].ty && r[0].ty != ty)
            && Suffix(s, j, r) && Sorted(r)
  {
    hide Increasing, Sorted, Suffix;
    Tail(s, j);
    if l != s[j].addr {
      assert j + 1 < |s|;
      Tail(s, j + 1);
      PrependSorted(Range(l, s[j].ty), s[j + 1..]);
      PrependSuffix(s, j, Range(l, s[j].ty));
    }
  }

  lemma Tail(s: seq<Range>, j: nat)
    requires Increasing(s) && j < |s|
    ensures Sorted(s[j..]) && Suffix(s, j, s[j..])
  {
  }

  lemma PrependSuffix(s: seq<Range>, j: nat, m: Range)
    requires j < |s|
    ensures Suffix(s, j, [m] + s[j + 1..])
  {
  }

  lemma PrependSorted(m: Range, r: seq<Range>)
    requires Sorted(r) && (r != [] ==> m.addr < r[0].addr)
    ensures Sorted([m] + r)
  {
  }

  function Join(p: seq<Range>, m: Range, r: seq<Range>): seq<Range> { p + [m] + r }

  lemma JoinAt(p: seq<Range>, m: Range, r: seq<Range>, k: nat)
    requires k < |Join(p, m, r)|
    ensures Join(p, m, r)[k] == if k < |p| then p[k] else if k == |p| then m else r[k - |p| - 1]
  {
  }

  lemma JoinSorted(p: seq<Range>, m: Range, r: seq<Range>)
    requires Sorted(p) && Sorted(r) && r != [] && m.addr < r[0].addr && AllBelow(p, m.addr)
    requires (p + [m])[0].addr == 0
    ensures Increasing(Join(p, m, r))
  {
    assert forall k :: 0 <= k < |r| ==> m.addr < r[k].addr;
    forall i, j | 0 <= i < j < |Join(p, m, r)| ensures Join(p, m, r)[i].addr < Join(p, m, r)[j].addr {
      JoinAt(p, m, r, i);
      JoinAt(p, m, r, j);
      hide Join;
    }
  }

  lemma AssignedIncreasing(s: seq<Range>, first: nat, last: nat, ty: int, i: nat, j: nat, f: nat, l: nat)
    requires Increasing(s) && Bounds(s, first, last, ty, i, j, f, l)
    ensures Increasing(Assigned(s, ty, i, j, f, l)) && Limit(Assigned(s, ty, i, j, f, l)) == Limit(s)
  {
    hide TypeAt, Sorted, AllBelow, Suffix, Left, Right;
    var p, m, r := Left(s, i, f), Range(f, ty), Right(s, j, l);
    LeftIs(s, ty, i, f);
    RightIs(s, ty, j, l);
    StartsAtZero(s, p, m);
    hide Increasing;
    JoinSorted(p, m, r);
    JoinAt(p, m, r, |p| + |r|);
  }

  lemma StartsAtZero(s: seq<Range>, p: seq<Range>, m: Range)
    requires Increasing(s) && Prefix(s, p) && (p == [] ==> m.addr == 0)
    ensures (p + [m])[0].addr == 0
  {
  }

  /** The result is canonical. */
  lemma AssignedCanonical(s: seq<Range>, first: nat, last: nat, ty: int, i: nat, j: nat, f: nat, l: nat)
    requires Canonical(s) && Bounds(s, first, last, ty, i, j, f, l)
    ensures Canonical(Assigned(s, ty, i, j, f, l)) && Limit(Assigned(s, ty, i, j, f, l)) == Limit(s)
  {
    hide TypeAt, Sorted, AllBelow, Increasing;
    AssignedIncreasing(s, first, last, ty, i, j, f, l);
    var p, m, r := Left(s, i, f), Range(f, ty), Right(s, j, l);
    LeftIs(s, ty, i, f);
    RightIs(s, ty, j, l);
    hide Left, Right, Limit;
    JoinDiffers(s, p, m, r, j);
  }

  lemma JoinDiffers(s: seq<Range>, p: seq<Range>, m: Range, r: seq<Range>, j: nat)
    requires Canonical(s) && Prefix(s, p) && Suffix(s, j, r) && Increasing(Join(p, m, r)) && |p| < |s|
    requires (p != [] ==> p[|p| - 1].ty != m.ty) && (|r| > 1 ==> r[0].ty == s[j].ty && r[0].ty != m.ty)
    ensures Canonical(Join(p, m, r))
  {
    hide Increasing;
    forall k | 0 < k < |Join(p, m, r)| - 1 ensures Join(p, m, r)[k].ty != Join(p, m, r)[k - 1].ty {
      JoinAt(p, m, r, k);
      JoinAt(p, m, r, k - 1);
      hide Join;
      if k > |p| + 1 { assert r[k - |p| - 1] == s[j + (k - |p| - 1)]; }
    }
  }

  /** The result is a pointwise update of the types. */
  lemma AssignedTypes(s: seq<Range>, first: nat, last: nat, ty: int, i: nat, j: nat, f: nat, l: nat, a: nat)
    requires Increasing(s) && Bounds(s, first, last, ty, i, j, f, l) && a < Limit(s)
    ensures TypeAt(Assigned(s, ty, i, j, f, l), a) == if first <= a < last then ty else TypeAt(s, a)
  {
    hide TypeAt, Sorted, AllBelow;
    AssignedIncreasing(s, first, last, ty, i, j, f, l);
    var p, m, r := Left(s, i, f), Range(f, ty), Right(s, j, l);
    LeftIs(s, ty, i, f);
    RightIs(s, ty, j, l);
    if f <= a < l {
      hide Left, Right, Increasing, Prefix, Suffix, Limit;
      JoinAt(p, m, r, |p|);
      JoinAt(p, m, r, |p| + 1);
      InsideType(Join(p, m, r), |p|, a);
    } else {
      var k := CoverExists(s, a, 0);
      Beside(s, i, j, f, l, k, a);
      hide Left, Right, Increasing, Prefix, Suffix, Limit;
      OutsideType(s, p, m, r, j, k, a);
    }
  }

  lemma InsideType(t: seq<Range>, k: nat, a: nat)
    requires Increasing(t) && Covers(t, k, a)
    ensures TypeAt(t, a) == t[k].ty
  {
    CoverType(t, k, a);
  }

  /** A range with an address before, or after, the assignment is on that side of it. */
  lemma Beside(s: seq<Range>, i: nat, j: nat, f: nat, l: nat, k: nat, a: nat)
    requires Increasing(s) && Covers(s, k, a) && i + 1 < |s| && i <= j < |s| && s[i].addr <= f < s[i + 1].addr
    requires s[j].addr <= l
    ensures a < f ==> k <= i && (f == s[i].addr ==> k < i)
    ensures a >= l ==> k >= j
  {
  }

  /** Outside the assigned range, ranges keep their types. */
  lemma OutsideType(s: seq<Range>, p: seq<Range>, m: Range, r: seq<Range>, j: nat, k: nat, a: nat)
    requires Increasing(Join(p, m, r)) && Covers(s, k, a) && Prefix(s, p) && Suffix(s, j, r) && r != []
    requires |r| > 1 ==> r[0].ty == s[j].ty
    requires if a < m.addr then k < |p| else k >= j && r[0].addr <= a
    ensures TypeAt(Join(p, m, r), a) == s[k].ty
  {
    hide TypeAt, Increasing;
    if a < m.addr {
      JoinAt(p, m, r, k);
      JoinAt(p, m, r, k + 1);
      InsideType(Join(p, m, r), k, a);
    } else {
      JoinAt(p, m, r, |p| + 1 + (k - j));
      JoinAt(p, m, r, |p| + 1 + (k - j) + 1);
      InsideType(Join(p, m, r), |p| + 1 + (k - j), a);
    }
  }

  /** New range starts needed in the middle of existing ranges: at the left end, and at the right end unless the start
      of a range that begins with the assignment can be moved there. */
  function Cuts(s: seq<Range>, i: nat, j: nat, f: nat, l: nat): nat
    requires i < |s| && j < |s|
  {
    (if f != s[i].addr then 1 else 0) + (if l != s[j].addr && !(j > i && f == s[i].addr) then 1 else 0)
  }

  function Starts(s: seq<Range>): set<nat> { set k | 0 <= k < |s| :: s[k].addr }

  lemma IsStart(s: seq<Range>, k: nat, a: nat)
    requires Increasing(s) && k < |s| && s[k].addr <= a && (k + 1 < |s| ==> a < s[k + 1].addr)
    ensures a in Starts(s) <==> a == s[k].addr
  {
    assert s[k].addr in Starts(s);
    if a in Starts(s) {
      var m :| 0 <= m < |s| && s[m].addr == a;
    }
  }

  lemma StartBetween(s: seq<Range>, i: nat, j: nat, f: nat, l: nat)
    requires Increasing(s) && i < |s| && i <= j < |s| && f < l && f in Starts(s)
    requires s[i].addr <= f && (i + 1 < |s| ==> f < s[i + 1].addr)
    requires s[j].addr <= l && (j + 1 < |s| ==> l < s[j + 1].addr) && l !in Starts(s)
    ensures j > i <==> exists a :: a in Starts(s) && f < a < l
  {
    if j > i { assert s[j].addr in Starts(s) && f < s[j].addr < l; }
    if a :| a in Starts(s) && f < a < l { var m :| 0 <= m < |s| && s[m].addr == a; }
  }

  /** The cuts are those of the two bounds that are no starts yet, except that a start between them can be moved to the
      right one. */
  lemma CutsMean(s: seq<Range>, first: nat, last: nat, ty: int, i: nat, j: nat, f: nat, l: nat)
    requires Increasing(s) && Bounds(s, first, last, ty, i, j, f, l)
    ensures var spare := f in Starts(s) && l !in Starts(s) && exists a :: a in Starts(s) && f < a < l;
            Cuts(s, i, j, f, l) == |{f, l} - Starts(s)| - (if spare then 1 else 0)
  {
    IsStart(s, i, f);
    IsStart(s, j, l);
    if f in Starts(s) && l !in Starts(s) { StartBetween(s, i, j, f, l); }
    var added := {f, l} - Starts(s);
    assert added == (if f in Starts(s) then {} else {f}) + (if l in Starts(s) then {} else {l});
    hide Starts, Increasing, TypeAt;
  }

  // ----- Refusals -----

  /** Just before the bounds of an assignment, and just after them, the type is another one. */
  lemma BesideBounds(s: seq<Range>, first: nat, last: nat, ty: int, i: nat, j: nat, f: nat, l: nat)
    requires Increasing(s) && Bounds(s, first, last, ty, i, j, f, l)
    ensures f > 0 ==> TypeAt(s, f - 1) != ty
    ensures l < Limit(s) ==> TypeAt(s, l) != ty
  {
    if f > 0 { CoverType(s, if f == s[i].addr then i - 1 else i, f - 1); }
    if l < Limit(s) { CoverType(s, j, l); }
  }

  /** The bounds of an assignment are the only ones. */
  lemma BoundsUnique(s: seq<Range>, first: nat, last: nat, ty: int, i: nat, j: nat, f: nat, l: nat,
      i': nat, j': nat, f': nat, l': nat)
    requires Increasing(s) && Bounds(s, first, last, ty, i, j, f, l) && Bounds(s, first, last, ty, i', j', f', l')
    ensures i' == i && j' == j && f' == f && l' == l
  {
    BesideBounds(s, first, last, ty, i, j, f, l);
    BesideBounds(s, first, last, ty, i', j', f', l');
    hide TypeAt;
  }

  /** How many ranges an assignment leaves. */
  lemma AssignedSize(s: seq<Range>, first: nat, last: nat, ty: int, i: nat, j: nat, f: nat, l: nat)
    requires Increasing(s) && Bounds(s, first, last, ty, i, j, f, l)
    ensures |Assigned(s, ty, i, j, f, l)| + (j - i) == |s| + 1 + (if f != s[i].addr then 1 else 0)
  {
    LeftIs(s, ty, i, f);
    RightIs(s, ty, j, l);
    hide Increasing, Sorted, Suffix, Prefix, AllBelow, Left, Right;
  }

  /** An assignment that is refused, for want of room to cut ranges before others are dropped, would leave a list that
      fits exactly if enough ranges lie inside it. */
  lemma SpuriousRefusal(s: seq<Range>, maxsize: nat, first: nat, last: nat, ty: int, i: nat, j: nat, f: nat, l: nat)
    requires Increasing(s) && Bounds(s, first, last, ty, i, j, f, l) && |s| - 1 + Cuts(s, i, j, f, l) > maxsize
    ensures |Assigned(s, ty, i, j, f, l)| - 1 <= maxsize <==>
              |s| + (if f != s[i].addr then 1 else 0) <= maxsize + (j - i)
  {
    AssignedSize(s, first, last, ty, i, j, f, l);
  }

  class MemRangeSet {
    const maxsize: nat
    var n: nat
    const r: array<Range>

    ghost predicate Valid()
      reads this, r
    {
      1 <= n <= maxsize && r.Length == maxsize + 1 && Canonical(r[..n + 1])
    }

    ghost function Ranges(): seq<Range>
      reads this, r
      requires n < r.Length
    {
      r[..n + 1]
    }

    constructor (maxsize: nat, limit: nat)
      requires maxsize > 0 && limit > 0
      ensures Valid() && this.maxsize == maxsize && Limit(Ranges()) == limit && fresh(r)
      ensures forall a :: 0 <= a < limit ==> TypeAt(Ranges(), a) == 0
    {
      this.maxsize := maxsize;
      n := 1;
      r := new Range[maxsize + 1](_ => Range(0, 0));
      new;
      r[1] := Range(limit, 0);
      assert Ranges() == [Range(0, 0), Range(limit, 0)];
    }

    /** `type`, by way of `find`. */
    method Type(addr: nat) returns (ty: int)
      requires Valid() && addr < Limit(Ranges())
      ensures ty == TypeAt(Ranges(), addr)
    {
      var i := 0;
      while i < n && addr >= r[i + 1].addr
        invariant i < n && Ranges()[i].addr <= addr
        decreases n - i
      {
        i := i + 1;
      }
      CoverType(Ranges(), i, addr);
      ty := r[i].ty;
    }

    method Split(i: nat, addr: nat)
      requires n + 1 < r.Length && i < n && r[i].addr < addr < r[i + 1].addr
      modifies this`n, r
      ensures n == old(n) + 1
      ensures r[..n + 1] == old(r[..i + 1]) + [Range(addr, old(r[i].ty))] + old(r[i + 1..n + 1])
    {
      forall k | i + 2 <= k <= n + 1 {
        r[k] := r[k - 1];
      }
      r[i + 1] := Range(addr, r[i].ty);
      n := n + 1;
    }

    /** Drop the ranges between `i` and `j`. */
    method Drop(i: nat, j: nat)
      requires n < r.Length && i + 1 < j <= n
      modifies this`n, r
      ensures n == old(n) - (j - (i + 1)) && r[..n + 1] == old(r[..i + 1]) + old(r[j..n + 1])
    {
      forall k | i + 1 <= k <= n + 1 - j + i {
        r[k] := r[k + (j - (i + 1))];
      }
      n := n - (j - (i + 1));
    }

    /** Where the assignment starts: range `i`, at `f`. */
    method LowerBound(first: nat, ty: int) returns (i: nat, f: nat)
      requires Valid() && first < Limit(Ranges())
      ensures var s := Ranges();
              && i < n && s[i].addr <= f <= first && f < s[i + 1].addr
              && (if f == s[i].addr then i == 0 || s[i - 1].ty != ty else s[i].ty != ty)
              && (forall a :: f <= a < first ==> TypeAt(s, a) == ty)
    {
      ghost var s := Ranges();
      i := 0;
      while first >= r[i + 1].addr
        invariant i < n && s[i].addr <= first
        decreases n - i
      {
        i := i + 1;
      }
      f := first;
      ghost var k := i;
      if first == r[i].addr && i > 0 && r[i - 1].ty == ty {
        i := i - 1;
      }
      if r[i].ty == ty {
        f := r[i].addr;
        forall a | f <= a < first ensures TypeAt(s, a) == ty { CoverType(s, i, a); }
      }
    }

    /** Where it ends: in or at the start of range `j`, at `l`. */
    method UpperBound(i: nat, last: nat, ty: int) returns (j: nat, l: nat)
      requires Valid() && i < n && r[i].addr < last <= Limit(Ranges())
      ensures var s := Ranges();
              && i <= j <= n && s[j].addr <= l && last <= l <= Limit(s) && (j < n ==> l < s[j + 1].addr)
              && (if l == s[j].addr then j == n || s[j].ty != ty else s[j].ty != ty)
              && (forall a :: last <= a < l ==> TypeAt(s, a) == ty)
    {
      ghost var s := Ranges();
      j := i;
      while j < n && last >= r[j + 1].addr
        invariant i <= j <= n && s[j].addr <= last
        decreases n - j
      {
        j := j + 1;
      }
      l := last;
      if j < n && r[j].ty == ty {
        forall a | last <= a < s[j + 1].addr ensures TypeAt(s, a) == ty { CoverType(s, j, a); }
        j := j + 1;
        l := r[j].addr;
      }
    }

    method FindBounds(first: nat, last: nat, ty: int) returns (i: nat, j: nat, f: nat, l: nat)
      requires Valid() && first < last <= Limit(Ranges())
      ensures Bounds(Ranges(), first, last, ty, i, j, f, l)
    {
      hide TypeAt;
      i, f := LowerBound(first, ty);
      j, l := UpperBound(i, last, ty);
    }

    /** `set`: assign a type to `[first, last)`, or report that there is no room. */
    method Set(first: nat, last: nat, ty: int) returns (ok: bool)
      requires Valid() && first <= last <= Limit(Ranges())
      modifies this`n, r
      ensures Valid() && Limit(Ranges()) == old(Limit(Ranges()))
      ensures ok ==> forall a: nat :: a < Limit(Ranges()) ==>
                TypeAt(Ranges(), a) == if first <= a < last then ty else TypeAt(old(Ranges()), a)
      ensures !ok ==> n == old(n) && r[..] == old(r[..])
      ensures first == last ==> ok && Ranges() == old(Ranges())
      ensures first < last ==> exists i: nat, j: nat, f: nat, l: nat ::
                Bounds(old(Ranges()), first, last, ty, i, j, f, l) &&
                    (ok <==> old(n) + Cuts(old(Ranges()), i, j, f, l) <= maxsize)
    {
      ghost var s := Ranges();
      if first == last {
        return true;
      }
      var i, j, f, l := FindBounds(first, last, ty);
      assert Needed(i, j, f, l) == Cuts(s, i, j, f, l);
      hide Bounds, Canonical, Assigned, Cuts, TypeAt;
      if n + Needed(i, j, f, l) > maxsize {
        return false;
      }
      Assign(i, j, f, l, ty, first, last);
      AssignedCanonical(s, first, last, ty, i, j, f, l);
      forall a: nat | a < Limit(s) ensures TypeAt(Ranges(), a) == if first <= a < last then ty else TypeAt(s, a) {
        AssignedTypes(s, first, last, ty, i, j, f, l, a);
      }
      return true;
    }

    function Needed(i: nat, j: nat, f: nat, l: nat): (k: nat)
      reads r
      requires i < r.Length && j < r.Length
    {
      (if f != r[i].addr then 1 else 0) + (if l != r[j].addr && !(j > i && f == r[i].addr) then 1 else 0)
    }

    /** Make the left end of the assignment the start of a range. */
    method CutLeft(i: nat, j: nat, f: nat) returns (i': nat, j': nat)
      requires n < r.Length && i < n && i <= j <= n && r[i].addr <= f < r[i + 1].addr
      requires f != r[i].addr ==> n + 1 < r.Length
      modifies this`n, r
      ensures n < r.Length && n == old(n) + (if f != old(r[i].addr) then 1 else 0) && i' <= j' <= n &&
              n - j' == old(n) - j
      ensures Ranges()[..i'] == Left(old(Ranges()), i, f) && Ranges()[i'].addr == f
      ensures Ranges()[j' + 1..] == old(Ranges())[j + 1..] && Ranges()[j'].ty == old(Ranges())[j].ty
      ensures Ranges()[j'].addr == (if j == i then f else old(Ranges())[j].addr) && (i' < j' <==> i < j)
    {
      i', j' := i, j;
      if f != r[i].addr {
        Split(i, f);
        i', j' := i + 1, j + 1;
      }
    }

    /** Make its right end the start of a range. */
    method CutRight(i: nat, j: nat, l: nat) returns (j': nat)
      requires n < r.Length && i <= j <= n && r[j].addr <= l &&
               (l != r[j].addr ==> n + 1 < r.Length && j < n && l < r[j + 1].addr)
      modifies this`n, r
      ensures n < r.Length && n == old(n) + (if l != old(r[j].addr) then 1 else 0) &&
              j' == (if l != old(r[j].addr) then j + 1 else j) <= n
      ensures Ranges()[..i] == old(Ranges())[..i] && Ranges()[i] == old(Ranges())[i]
      ensures Ranges()[j'..] == Right(old(Ranges()), j, l)
    {
      j' := j;
      if l != r[j].addr {
        Split(j, l);
        j' := j + 1;
      }
    }

    /** Give range `i` its type and drop the ranges up to `j`. */
    method Fill(i: nat, j: nat, ty: int)
      requires n < r.Length && i < j <= n
      modifies this`n, r
      ensures n < r.Length && Ranges() == Join(old(Ranges())[..i], Range(old(Ranges())[i].addr, ty), old(Ranges())[j..])
    {
      r[i] := r[i].(ty := ty);
      if i + 1 < j {
        Drop(i, j);
      }
    }

    /** Move, split and drop ranges for the assignment. */
    method Assign(i0: nat, j0: nat, f: nat, l: nat, ty: int, ghost first: nat, ghost last: nat)
      requires Valid() && Bounds(Ranges(), first, last, ty, i0, j0, f, l) && n + Cuts(Ranges(), i0, j0, f, l) <= maxsize
      modifies this`n, r
      ensures n < r.Length && Ranges() == Assigned(old(Ranges()), ty, i0, j0, f, l)
    {
      ghost var s := Ranges();
      hide TypeAt;
      if j0 > i0 && f == r[i0].addr && l != r[j0].addr {
        r[j0] := r[j0].(addr := l);
        assert Ranges()[j0..] == Right(s, j0, l) && Ranges()[..i0] == Left(s, i0, f) && Ranges()[i0].addr == f;
        Fill(i0, j0, ty);
      } else {
        AssignCutting(i0, j0, f, l, ty);
      }
    }

    /** The same, when no start can be moved. */
    method AssignCutting(i0: nat, j0: nat, f: nat, l: nat, ty: int)
      requires n < r.Length && i0 < n && i0 <= j0 <= n && r[i0].addr <= f < r[i0 + 1].addr && f < l && r[j0].addr <= l
      requires l != r[j0].addr ==> j0 < n && l < r[j0 + 1].addr
      requires n + (if f != r[i0].addr then 1 else 0) + (if l != r[j0].addr then 1 else 0) < r.Length
      modifies this`n, r
      ensures n < r.Length && Ranges() == Assigned(old(Ranges()), ty, i0, j0, f, l)
    {
      hide Left, Right;
      ghost var s := Ranges();
      var i, j := CutLeft(i0, j0, f);
      ghost var s1 := Ranges();
      assert j < n ==> s1[j + 1..][0] == s1[j + 1] && s[j0 + 1..][0] == s[j0 + 1];
      assert l == s1[j].addr <==> l == s[j0].addr;
      RightSame(s, j0, s1, j, l);
      j := CutRight(i, j, l);
      Fill(i, j, ty);
    }
  }

  lemma RightSame(s: seq<Range>, j: nat, s': seq<Range>, j': nat, l: nat)
    requires j < |s| && j' < |s'| && s[j + 1..] == s'[j' + 1..] && s[j].ty == s'[j'].ty &&
             (l == s[j].addr <==> l == s'[j'].addr)
    ensures Right(s, j, l) == Right(s', j', l)
  {
    assert s[j..] == [s[j]] + s[j + 1..] && s'[j'..] == [s'[j']] + s'[j' + 1..];
  }

  /** With room for three ranges and three in use, an assignment that cuts the outer two is refused, though it leaves
      three. */
  method RefusalExample(m: MemRangeSet) returns (ok: bool)
    requires m.Valid() && m.maxsize == 3 && m.Ranges() == [Range(0, 1), Range(10, 2), Range(20, 3), Range(30, 0)]
    modifies m, m.r
    ensures !ok && |Assigned(old(m.Ranges()), 9, 0, 2, 5, 25)| - 1 == 3
  {
    ghost var s := m.Ranges();
    ExampleBounds(s);
    AssignedSize(s, 5, 25, 9, 0, 2, 5, 25);
    forall i: nat, j: nat, f: nat, l: nat | Bounds(s, 5, 25, 9, i, j, f, l) ensures Cuts(s, i, j, f, l) == 2 {
      BoundsUnique(s, 5, 25, 9, 0, 2, 5, 25, i, j, f, l);
    }
    hide Bounds, Cuts, TypeAt, Canonical;
    ok := m.Set(5, 25, 9);
  }

  lemma ExampleBounds(s: seq<Range>)
    requires s == [Range(0, 1), Range(10, 2), Range(20, 3), Range(30, 0)]
    ensures Increasing(s) && Bounds(s, 5, 25, 9, 0, 2, 5, 25) && Cuts(s, 0, 2, 5, 25) == 2
  {
  }
}
