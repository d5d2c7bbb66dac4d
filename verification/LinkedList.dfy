/** The intrusive circular list: each list is a ring of entries around its head. */
module LinkedList {
  import opened Util

  /** The address of a `list_links`. */
  type Addr = nat
  const NULL: Addr := 0

  /** The `next_` and `prev_` fields of all links in memory. */
  datatype Heap = Heap(next: map<Addr, Addr>, prev: map<Addr, Addr>)
  {
    predicate Has(x: Addr) { x in next && x in prev }
    predicate Free(x: Addr) { Has(x) && next[x] == NULL && prev[x] == NULL }
    function SetNext(x: Addr, v: Addr): Heap { this.(next := next[x := v]) }
    function SetPrev(x: Addr, v: Addr): Heap { this.(prev := prev[x := v]) }
  }

  // ----- Rings -----

  /** The place after `i`, and before `k`, on a ring of `n`. */
  function After(i: nat, n: nat): (j: nat)
    requires i < n
    ensures j < n
  {
    if i + 1 == n then 0 else i + 1
  }

  function Before(k: nat, n: nat): (i: nat)
    requires k < n
    ensures i < n && After(i, n) == k
  {
    if k == 0 then n - 1 else k - 1
  }

  /** Entry `i` is linked to its neighbours in both directions. */
  predicate Linked(h: Heap, r: seq<Addr>, i: nat)
    requires i < |r|
  {
    r[i] != NULL && h.Has(r[i]) && h.next[r[i]] == r[After(i, |r|)] && h.prev[r[i]] == r[Before(i, |r|)]
  }

  ghost predicate Ring(h: Heap, r: seq<Addr>) {
    r != [] && NoDup(r) && forall i: nat :: i < |r| ==> Linked(h, r, i)
  }

  lemma Different(r: seq<Addr>, i: nat, j: nat)
    requires NoDup(r) && i < |r| && j < |r| && i != j
    ensures r[i] != r[j]
  {
  }

  /** A ring none of whose entries changed is still one. */
  lemma RingKept(h: Heap, h': Heap, r: seq<Addr>)
    requires Ring(h, r) && forall x :: x in r && h.Has(x) ==>
             h'.Has(x) && h'.next[x] == h.next[x] && h'.prev[x] == h.prev[x]
    ensures Ring(h', r)
  {
    forall i: nat | i < |r| ensures Linked(h', r, i) { assert Linked(h, r, i) && r[i] in r; }
  }

  /** Every entry of a ring is linked, so what is not linked is on no ring. */
  lemma FreeIsOutside(h: Heap, r: seq<Addr>, x: Addr)
    requires Ring(h, r) && h.Free(x)
    ensures x !in r
  {
    forall i: nat | i < |r| ensures r[i] != x {
      var k := After(i, |r|);
      assert Linked(h, r, i) && Linked(h, r, k);
    }
  }

  lemma EntryLinked(h: Heap, r: seq<Addr>, i: nat)
    requires Ring(h, r) && i < |r|
    ensures h.Has(r[i]) && h.next[r[i]] == r[After(i, |r|)] != NULL && h.prev[r[i]] == r[Before(i, |r|)] != NULL
    ensures h.Has(h.prev[r[i]]) && r[i] != NULL && r[i] in r && h.next[r[i]] in r && h.prev[r[i]] in r
  {
    var j, k := After(i, |r|), Before(i, |r|);
    assert Linked(h, r, i) && Linked(h, r, j) && Linked(h, r, k);
  }

  function Dropped(s: seq<Addr>, k: nat): seq<Addr>
    requires k < |s|
  {
    s[..k] + s[k + 1..]
  }

  /** `s` with `x` before place `k`, where before the first place means at the end. */
  function Inserted(s: seq<Addr>, k: nat, x: Addr): seq<Addr>
    requires k < |s|
  {
    if k == 0 then s + [x] else s[..k] + [x] + s[k..]
  }

  // ----- What erasing and inserting do to a heap -----

  /** `list_links::erase`. */
  function Erased(h: Heap, x: Addr): Heap
    requires h.Has(x)
  {
    h.SetNext(h.prev[x], h.next[x]).SetPrev(h.next[x], h.prev[x]).SetNext(x, NULL).SetPrev(x, NULL)
  }

  /** `list_links::insert_before`. */
  function InsertedBefore(h: Heap, x: Addr, pos: Addr): Heap
    requires h.Has(pos)
  {
    h.SetPrev(x, h.prev[pos]).SetNext(x, pos).SetNext(h.prev[pos], x).SetPrev(pos, x)
  }

  lemma DroppedDistinct(r: seq<Addr>, k: nat)
    requires NoDup(r) && k < |r|
    ensures NoDup(Dropped(r, k)) && r[k] !in Dropped(r, k)
  {
    var s := Dropped(r, k);
    assert forall i :: 0 <= i < |s| ==> s[i] == if i < k then r[i] else r[i + 1];
  }

  lemma ErasedRing(h: Heap, r: seq<Addr>, k: nat)
    requires Ring(h, r) && k < |r| && |r| > 1
    ensures h.Has(r[k]) && Ring(Erased(h, r[k]), Dropped(r, k))
    ensures Erased(h, r[k]).Free(r[k])
  {
    assert Linked(h, r, k);
    var h', s, n := Erased(h, r[k]), Dropped(r, k), |r|;
    DroppedDistinct(r, k);
    forall i: nat | i < |s| ensures Linked(h', s, i) {
      var j := if i < k then i else i + 1;
      assert Linked(h, r, j);
      assert s[i] == r[j];
      ErasedPlaces(r, k, i, j);
      if j != k { Different(r, j, k); }
      if j != Before(k, n) { Different(r, j, Before(k, n)); }
      if j != After(k, n) { Different(r, j, After(k, n)); }
      Different(r, k, Before(k, n));
      Different(r, k, After(k, n));
    }
  }

  lemma ErasedPlaces(r: seq<Addr>, k: nat, i: nat, j: nat)
    requires k < |r| && |r| > 1 && i + 1 < |r| && j == (if i < k then i else i + 1)
    ensures Dropped(r, k)[After(i, |r| - 1)] == if j == Before(k, |r|) then r[After(k, |r|)] else r[After(j, |r|)]
    ensures Dropped(r, k)[Before(i, |r| - 1)] == if j == After(k, |r|) then r[Before(k, |r|)] else r[Before(j, |r|)]
    ensures Before(k, |r|) != k && After(k, |r|) != k && j != k
  {
    var s, n := Dropped(r, k), |r|;
    assert forall m: nat :: m < n - 1 ==> s[m] == r[if m < k then m else m + 1];
    var x, y := After(i, n - 1), Before(i, n - 1);
    assert s[x] == r[if x < k then x else x + 1] && s[y] == r[if y < k then y else y + 1];
  }

  lemma InsertedDistinct(r: seq<Addr>, k: nat, x: Addr)
    requires NoDup(r) && k < |r| && x !in r
    ensures NoDup(Inserted(r, k, x))
  {
    var s, at := Inserted(r, k, x), if k == 0 then |r| else k;
    assert forall i :: 0 <= i < |s| ==> s[i] == if i < at then r[i] else if i == at then x else r[i - 1];
  }

  lemma InsertedRing(h: Heap, r: seq<Addr>, k: nat, x: Addr)
    requires Ring(h, r) && k < |r| && x !in r && x != NULL
    ensures h.Has(r[k]) && Ring(InsertedBefore(h, x, r[k]), Inserted(r, k, x))
  {
    EntryLinked(h, r, k);
    InsertedDistinct(r, k, x);
    forall i: nat | i < |r| + 1 ensures Linked(InsertedBefore(h, x, r[k]), Inserted(r, k, x), i) {
      InsertedLinked(h, r, k, x, i);
    }
  }

  lemma InsertedLinked(h: Heap, r: seq<Addr>, k: nat, x: Addr, i: nat)
    requires Ring(h, r) && k < |r| && x !in r && x != NULL && i <= |r|
    ensures h.Has(r[k]) && Linked(InsertedBefore(h, x, r[k]), Inserted(r, k, x), i)
  {
    var n, at := |r|, if k == 0 then |r| else k;
    var s := Inserted(r, k, x);
    EntryLinked(h, r, k);
    InsertedPlaces(r, k, x, i, at);
    assert |s| == n + 1;
    if i != at {
      var j := if i < at then i else i - 1;
      EntryLinked(h, r, j);
      if j != Before(k, n) { Different(r, j, Before(k, n)); }
      if j != k { Different(r, j, k); }
    }
    InsertedFields(h, x, r[k], s[i]);
  }

  lemma InsertedFields(h: Heap, x: Addr, pos: Addr, y: Addr)
    requires h.Has(pos) && h.Has(h.prev[pos]) && x != pos && x != h.prev[pos] && (y == x || h.Has(y))
    ensures var h' := InsertedBefore(h, x, pos);
            && h'.Has(y)
            && h'.next[y] == (if y == x then pos else if y == h.prev[pos] then x else h.next[y])
            && h'.prev[y] == (if y == x then h.prev[pos] else if y == pos then x else h.prev[y])
  {
  }

  lemma InsertedPlaces(r: seq<Addr>, k: nat, x: Addr, i: nat, at: nat)
    requires k < |r| && i <= |r| && at == if k == 0 then |r| else k
    ensures var s, n := Inserted(r, k, x), |r|;
            if i == at then s[i] == x && s[After(i, n + 1)] == r[k] && s[Before(i, n + 1)] == r[Before(k, n)]
            else
              var j := if i < at then i else i - 1;
              && s[i] == r[j]
              && s[After(i, n + 1)] == (if j == Before(k, n) then x else r[After(j, n)])
              && s[Before(i, n + 1)] == (if j == k then x else r[Before(j, n)])
  {
  }

  // ----- What swapping does -----

  /** The ends of the list with head `a` get the head `b`. */
  function Rehead(h: Heap, a: Addr, b: Addr): Heap
    requires h.Has(a)
  {
    h.SetPrev(h.next[a], b).SetNext(h.prev[a], b)
  }

  /** `list::swap`, for the heads `a` and `b`. */
  function Swapped(h: Heap, a: Addr, b: Addr): Heap
    requires h.Has(a) && h.Has(b)
  {
    var h2 := Rehead(Rehead(h, a, b), b, a);
    Heap(h2.next[a := h2.next[b]][b := h2.next[a]], h2.prev[a := h2.prev[b]][b := h2.prev[a]])
  }

  /** Item `i` of a list with head `b` is linked to its neighbours. */
  predicate ItemLinked(h: Heap, b: Addr, s: seq<Addr>, i: nat)
    requires i < |s|
  {
    && h.Has(s[i])
    && h.next[s[i]] == (if i == |s| - 1 then b else s[i + 1])
    && h.prev[s[i]] == (if i == 0 then b else s[i - 1])
  }

  /** What swapping leaves in the links: the entries keep their neighbours, except that those at the ends get the
      other head. */
  lemma SwappedLinks(h: Heap, a: Addr, b: Addr, s: seq<Addr>, t: seq<Addr>)
    requires Ring(h, [a] + s) && Ring(h, [b] + t) && Apart(a, s, b, t)
    ensures h.Has(a) && h.Has(b)
    ensures var h' := Swapped(h, a, b);
            && h'.Has(a) && h'.next[a] == (if t == [] then a else t[0]) &&
                 h'.prev[a] == (if t == [] then a else t[|t| - 1])
            && forall i: nat :: i < |s| ==> ItemLinked(h', b, s, i)
  {
    var r, q := [a] + s, [b] + t;
    assert Linked(h, r, 0) && Linked(h, q, 0);
    HeadLinks(h, a, s);
    HeadLinks(h, b, t);
    assert a in r && b in q;
    var h' := Swapped(h, a, b);
    assert t != [] ==> t[0] in t && t[|t| - 1] in t;
    forall i: nat | i < |s| ensures ItemLinked(h', b, s, i) {
      assert r[i + 1] == s[i] && s[i] in r && Linked(h, r, i + 1);
      Different(r, i + 1, 0);
      if i != |s| - 1 { Different(r, i + 1, |s|); }
      if i != 0 { Different(r, i + 1, 1); }
    }
  }

  lemma HeadLinks(h: Heap, a: Addr, s: seq<Addr>)
    requires Ring(h, [a] + s)
    ensures a != NULL && h.Has(a) && h.next[a] == (if s == [] then a else s[0]) &&
            h.prev[a] == (if s == [] then a else s[|s| - 1])
    ensures a !in s && NoDup(s)
  {
    var r := [a] + s;
    assert Linked(h, r, 0);
    forall i | 0 <= i < |s| ensures s[i] != a { assert r[i + 1] == s[i]; }
    forall i, j | 0 <= i < j < |s| ensures s[i] != s[j] { assert r[i + 1] == s[i] && r[j + 1] == s[j]; }
  }

  lemma MakeRing(h: Heap, b: Addr, s: seq<Addr>)
    requires b != NULL && b !in s && NoDup(s) && (forall i :: 0 <= i < |s| ==> s[i] != NULL)
    requires h.Has(b) && h.next[b] == (if s == [] then b else s[0]) && h.prev[b] == (if s == [] then b else s[|s| - 1])
    requires forall i: nat :: i < |s| ==> ItemLinked(h, b, s, i)
    ensures Ring(h, [b] + s)
  {
    var r := [b] + s;
    forall i, j | 0 <= i < j < |r| ensures r[i] != r[j] {
      assert r[j] == s[j - 1];
      if i > 0 { assert r[i] == s[i - 1]; }
    }
    forall i: nat | i < |r| ensures Linked(h, r, i) {
      if i == 0 {
        assert s != [] ==> r[1] == s[0] && r[|s|] == s[|s| - 1];
      } else {
        var k: nat := i - 1;
        assert r[i] == s[k] && ItemLinked(h, b, s, k);
        if k != |s| - 1 { assert r[i + 1] == s[k + 1]; }
        if k != 0 { assert r[i - 1] == s[k - 1]; }
      }
    }
  }

  lemma NoNull(h: Heap, a: Addr, s: seq<Addr>)
    requires Ring(h, [a] + s)
    ensures forall i :: 0 <= i < |s| ==> s[i] != NULL
  {
    forall i | 0 <= i < |s| ensures s[i] != NULL {
      var k: nat := i + 1;
      assert Linked(h, [a] + s, k);
    }
  }

  lemma SwappedRing(h: Heap, a: Addr, b: Addr, s: seq<Addr>, t: seq<Addr>)
    requires Ring(h, [a] + s) && Ring(h, [b] + t) && Apart(a, s, b, t)
    ensures h.Has(a) && h.Has(b) && Ring(Swapped(h, a, b), [a] + t) && Ring(Swapped(h, a, b), [b] + s)
  {
    HeadLinks(h, a, s);
    HeadLinks(h, b, t);
    NoNull(h, a, s);
    NoNull(h, b, t);
    assert a in [a] + s && b in [b] + t;
    assert a !in t by { assert forall x :: x in t ==> x in [b] + t; }
    assert b !in s by { assert forall x :: x in s ==> x in [a] + s; }
    SwappedLinks(h, a, b, s, t);
    SwappedLinks(h, b, a, t, s);
    SwapEitherWay(h, a, b, s, t);
    hide Swapped, Ring, NoDup;
    MakeRing(Swapped(h, a, b), a, t);
    MakeRing(Swapped(h, a, b), b, s);
  }

  /** It does not matter which list's `swap` is called. */
  lemma SwapEitherWay(h: Heap, a: Addr, b: Addr, s: seq<Addr>, t: seq<Addr>)
    requires Ring(h, [a] + s) && Ring(h, [b] + t) && Apart(a, s, b, t)
    ensures h.Has(a) && h.Has(b) && Swapped(h, a, b) == Swapped(h, b, a)
  {
    HeadLinks(h, a, s);
    HeadLinks(h, b, t);
    assert a in [a] + s && b in [b] + t;
    assert s != [] ==> s[0] in [a] + s && s[|s| - 1] in [a] + s;
    assert t != [] ==> t[0] in [b] + t && t[|t| - 1] in [b] + t;
    hide Ring, NoDup;
    var x, y := Swapped(h, a, b), Swapped(h, b, a);
    assert x.next == y.next;
    assert x.prev == y.prev;
  }

  /** `list::insert` promises to insert before `position`; it inserts at the end, which is never there. */
  lemma InsertMissesItsPlace(items: seq<Addr>, i: nat, x: Addr)
    requires i < |items| && x !in items
    ensures items + [x] != items[..i] + [x] + items[i..]
  {
    assert (items + [x])[i] == items[i];
    assert (items[..i] + [x] + items[i..])[i] == x;
  }

  /** Links outside `touched` are as they were. */
  ghost predicate KeptOutside(h: Heap, h': Heap, touched: set<Addr>) {
    && (forall x :: h.Has(x) ==> h'.Has(x))
    && (forall x :: h.Has(x) && x !in touched ==> h'.next[x] == h.next[x] && h'.prev[x] == h.prev[x])
  }

  lemma KeptWider(h: Heap, h': Heap, t: set<Addr>, u: set<Addr>)
    requires KeptOutside(h, h', t) && t <= u
    ensures KeptOutside(h, h', u)
  {
  }

  /** A list that shares nothing with what an operation touches is as it was. */
  lemma OtherKept(h: Heap, h': Heap, head: Addr, items: seq<Addr>, touched: set<Addr>)
    requires Ring(h, [head] + items) && KeptOutside(h, h', touched) && forall x :: x in [head] + items ==> x !in touched
    ensures Ring(h', [head] + items)
  {
    RingKept(h, h', [head] + items);
  }

  /** Two lists have no links in common. */
  ghost predicate Apart(a: Addr, s: seq<Addr>, b: Addr, t: seq<Addr>) {
    forall x :: x in [a] + s ==> x !in [b] + t
  }

  lemma ApartMoved(a: Addr, s: seq<Addr>, b: Addr, t: seq<Addr>, c: Addr, u: seq<Addr>)
    requires s != [] && Apart(a, s, b, t) && Apart(a, s, c, u) && Apart(b, t, c, u) && NoDup([a] + s)
    ensures Apart(a, s[1..], b, t + [s[0]]) && Apart(a, s[1..], c, u) && Apart(b, t + [s[0]], c, u)
    ensures forall x :: x in [b] + t || x in [c] + u ==> x !in {a} + set y | y in s
    ensures forall x :: x in [a] + s[1..] || x in [c] + u ==> x !in {b, s[0]} + set y | y in t
  {
    var r := [a] + s;
    assert r[1] == s[0] && s[0] in r;
    forall x | x in [a] + s[1..] ensures x in r && x != s[0] {
      if x != a {
        var k :| 0 <= k < |s| - 1 && s[1..][k] == x;
        assert r[k + 2] == x;
      } else {
        assert r[0] == a;
      }
    }
    assert forall x :: x in t ==> x in [b] + t;
    assert forall x :: x in s ==> x in r;
    assert forall x :: x in [b] + (t + [s[0]]) ==> x in [b] + t || x == s[0];
  }

  lemma SwappedKept(h: Heap, a: Addr, b: Addr, s: seq<Addr>, t: seq<Addr>)
    requires Ring(h, [a] + s) && Ring(h, [b] + t) && h.Has(a) && h.Has(b)
    ensures KeptOutside(h, Swapped(h, a, b), {a, b} + (set y | y in s) + set y | y in t)
  {
    HeadLinks(h, a, s);
    HeadLinks(h, b, t);
    assert s != [] ==> s[0] in s && s[|s| - 1] in s;
    assert t != [] ==> t[0] in t && t[|t| - 1] in t;
    hide Ring, NoDup, Linked;
  }

  lemma ErasedItem(h: Heap, head: Addr, items: seq<Addr>, i: nat)
    requires Ring(h, [head] + items) && i < |items|
    ensures var x := items[i];
            && h.Has(x) && h.next[x] != NULL && h.prev[x] != NULL
            && {x, h.next[x], h.prev[x]} <= {head} + (set y | y in items)
            && Ring(Erased(h, x), [head] + Dropped(items, i)) && Erased(h, x).Free(x)
  {
    var r, k: nat := [head] + items, i + 1;
    ErasedRing(h, r, k);
    EntryLinked(h, r, k);
    DroppedItem(head, items, i);
    forall y | y in r ensures y in {head} + set z | z in items { }
    hide *;
  }

  lemma DroppedItem(head: Addr, items: seq<Addr>, i: nat)
    requires i < |items|
    ensures ([head] + items)[i + 1] == items[i] && Dropped([head] + items, i + 1) == [head] + Dropped(items, i)
  {
  }

  // ----- The operations, in memory -----

  class Memory {
    var h: Heap

    /** The list with head `head` has these items. */
    ghost predicate IsList(head: Addr, items: seq<Addr>)
      reads this
    {
      Ring(h, [head] + items)
    }

    constructor (h: Heap)
      ensures this.h == h
    {
      this.h := h;
    }

    /** `list_links::erase`. */
    method EraseLinks(x: Addr)
      requires h.Has(x) && h.next[x] != NULL && h.prev[x] != NULL
      modifies this
      ensures h == Erased(old(h), x) && KeptOutside(old(h), h, {x, old(h.next[x]), old(h.prev[x])})
    {
      var n, p := h.next[x], h.prev[x];
      h := h.SetNext(p, n);
      h := h.SetPrev(n, p);
      h := h.SetNext(x, NULL);
      h := h.SetPrev(x, NULL);
    }

    /** `list_links::insert_before`. */
    method InsertLinks(x: Addr, position: Addr)
      requires h.Has(position) && h.next[position] != NULL && h.prev[position] != NULL && h.Free(x)
      modifies this
      ensures h == InsertedBefore(old(h), x, position)
    {
      var p := h.prev[position];
      h := h.SetPrev(x, p);
      h := h.SetNext(x, position);
      h := h.SetNext(p, x);
      h := h.SetPrev(position, x);
    }

    /** `list::list`. */
    method Init(head: Addr)
      requires head != NULL
      modifies this
      ensures IsList(head, [])
      ensures KeptOutside(old(h), h, {head})
    {
      h := h.SetNext(head, head);
      h := h.SetPrev(head, head);
      assert [head] + [] == [head];
    }

    /** `front`. */
    method Front(head: Addr, ghost items: seq<Addr>) returns (x: Addr)
      requires IsList(head, items)
      ensures x == if items == [] then NULL else items[0]
    {
      HeadLinks(h, head, items);
      x := if h.next[head] == head then NULL else h.next[head];
    }

    /** `back`. */
    method Back(head: Addr, ghost items: seq<Addr>) returns (x: Addr)
      requires IsList(head, items)
      ensures x == if items == [] then NULL else items[|items| - 1]
    {
      HeadLinks(h, head, items);
      x := if h.next[head] == head then NULL else h.prev[head];
    }

    /** `next`. */
    method Next(head: Addr, x: Addr, ghost items: seq<Addr>, ghost i: nat) returns (y: Addr)
      requires IsList(head, items) && i < |items| && items[i] == x
      ensures y == if i + 1 < |items| then items[i + 1] else NULL
    {
      HeadLinks(h, head, items);
      ghost var k := i + 1;
      assert Linked(h, [head] + items, k);
      y := if h.next[x] == head then NULL else h.next[x];
    }

    /** `push_back`. */
    method PushBack(head: Addr, x: Addr, ghost items: seq<Addr>)
      requires IsList(head, items) && x != NULL && h.Free(x)
      modifies this
      ensures IsList(head, items + [x])
      ensures KeptOutside(old(h), h, {head, x} + set y | y in items)
    {
      ghost var r := [head] + items;
      FreeIsOutside(h, r, x);
      InsertedRing(h, r, 0, x);
      EntryLinked(h, r, 0);
      InsertLinks(x, head);
      assert Inserted(r, 0, x) == [head] + (items + [x]);
    }

    /** `push_front`. */
    method PushFront(head: Addr, x: Addr, ghost items: seq<Addr>)
      requires IsList(head, items) && x != NULL && h.Free(x)
      modifies this
      ensures IsList(head, [x] + items)
      ensures KeptOutside(old(h), h, {head, x} + set y | y in items)
    {
      ghost var r := [head] + items;
      ghost var k: nat := if items == [] then 0 else 1;
      FreeIsOutside(h, r, x);
      InsertedRing(h, r, k, x);
      EntryLinked(h, r, 0);
      EntryLinked(h, r, k);
      InsertLinks(x, h.next[head]);
      assert Inserted(r, k, x) == [head] + ([x] + items);
    }

    /** `insert`, whose test of `position` is the wrong way round: a given position is not used, and one that is not
        given has no links to insert before. */
    method Insert(head: Addr, position: Addr, x: Addr, ghost items: seq<Addr>) returns (done: bool)
      requires IsList(head, items) && x != NULL && h.Free(x) && (position == NULL || position in items)
      modifies this
      ensures done <==> position != NULL
      ensures old(h).Has(head) && h == if done then InsertedBefore(old(h), x, head) else old(h)
      ensures done ==> IsList(head, items + [x])
      ensures KeptOutside(old(h), h, {head, x} + set y | y in items)
    {
      HeadLinks(h, head, items);
      var at := if position != NULL then head else position;
      if at == NULL {
        return false;
      }
      ghost var r := [head] + items;
      FreeIsOutside(h, r, x);
      InsertedRing(h, r, 0, x);
      EntryLinked(h, r, 0);
      InsertLinks(x, at);
      assert Inserted(r, 0, x) == [head] + (items + [x]);
      return true;
    }

    /** A new list, filled one entry after the other. */
    method Build(head: Addr, xs: seq<Addr>)
      requires head != NULL && head !in xs && NoDup(xs)
      requires forall i :: 0 <= i < |xs| ==> xs[i] != NULL && h.Free(xs[i])
      modifies this
      ensures IsList(head, xs)
    {
      assert forall i :: 0 <= i < |xs| ==> xs[i] in xs;
      Init(head);
      for i := 0 to |xs|
        invariant IsList(head, xs[..i]) && forall k :: i <= k < |xs| ==> xs[k] != NULL && h.Free(xs[k])
      {
        hide Ring;
        ghost var h0 := h;
        PushBack(head, xs[i], xs[..i]);
        assert xs[..i + 1] == xs[..i] + [xs[i]];
        forall k | i < k < |xs| ensures xs[k] !in {head, xs[i]} + set y | y in xs[..i] { }
      }
      assert xs[..|xs|] == xs;
    }

    /** `erase`. */
    method Erase(head: Addr, x: Addr, ghost items: seq<Addr>, ghost i: nat)
      requires IsList(head, items) && i < |items| && items[i] == x
      modifies this
      ensures IsList(head, Dropped(items, i)) && h.Free(x)
      ensures KeptOutside(old(h), h, {head} + set y | y in items)
    {
      ErasedItem(h, head, items, i);
      ghost var h0, near := h, {x, h.next[x], h.prev[x]};
      hide Ring, NoDup, Dropped, Erased, KeptOutside;
      EraseLinks(x);
      KeptWider(h0, h, near, {head} + set y | y in items);
    }

    /** `pop_front`. */
    method PopFront(head: Addr, ghost items: seq<Addr>) returns (x: Addr)
      requires IsList(head, items)
      modifies this
      ensures if items == [] then x == NULL && h == old(h) else x == items[0] && IsList(head, items[1..]) && h.Free(x)
      ensures KeptOutside(old(h), h, {head} + set y | y in items)
    {
      x := Front(head, items);
      NoNull(h, head, items);
      if x != NULL {
        Erase(head, x, items, 0);
        assert Dropped(items, 0) == items[1..];
      }
    }

    /** `pop_back`. */
    method PopBack(head: Addr, ghost items: seq<Addr>) returns (x: Addr)
      requires IsList(head, items)
      modifies this
      ensures if items == [] then x == NULL && h == old(h)
              else x == items[|items| - 1] && IsList(head, items[..|items| - 1]) && h.Free(x)
      ensures KeptOutside(old(h), h, {head} + set y | y in items)
    {
      x := Back(head, items);
      NoNull(h, head, items);
      if x != NULL {
        Erase(head, x, items, |items| - 1);
        assert Dropped(items, |items| - 1) == items[..|items| - 1];
      }
    }

    method ReheadLinks(a: Addr, b: Addr)
      requires h.Has(a)
      modifies this
      ensures h == Rehead(old(h), a, b)
    {
      var p1, p2 := h.next[a], h.prev[a];
      h := h.SetPrev(p1, b);
      h := h.SetNext(p2, b);
    }

    /** Move the front of one list to the back of another, as wait queues and run queues do: the two lists stay apart,
        and any third list that was apart from them stays so and is as it was. */
    method Requeue(a: Addr, b: Addr, ghost s: seq<Addr>, ghost t: seq<Addr>, ghost c: Addr, ghost u: seq<Addr>)
      requires IsList(a, s) && IsList(b, t) && IsList(c, u) && s != []
      requires Apart(a, s, b, t) && Apart(a, s, c, u) && Apart(b, t, c, u)
      modifies this
      ensures IsList(a, s[1..]) && IsList(b, t + [s[0]]) && IsList(c, u)
      ensures Apart(a, s[1..], b, t + [s[0]]) && Apart(a, s[1..], c, u) && Apart(b, t + [s[0]], c, u)
    {
      NoNull(h, a, s);
      ApartMoved(a, s, b, t, c, u);
      hide Ring, Apart, KeptOutside;
      ghost var h0 := h;
      var x := PopFront(a, s);
      OtherKept(h0, h, b, t, {a} + set y | y in s);
      OtherKept(h0, h, c, u, {a} + set y | y in s);
      ghost var h1 := h;
      PushBack(b, x, t);
      OtherKept(h1, h, a, s[1..], {b, x} + set y | y in t);
      OtherKept(h1, h, c, u, {b, x} + set y | y in t);
    }

    /** `swap`: exchange the items of two lists, either or both of which may be empty. */
    method Swap(a: Addr, b: Addr, ghost s: seq<Addr>, ghost t: seq<Addr>)
      requires IsList(a, s) && IsList(b, t) && Apart(a, s, b, t)
      modifies this
      ensures IsList(a, t) && IsList(b, s)
      ensures KeptOutside(old(h), h, {a, b} + (set y | y in s) + set y | y in t)
    {
      SwappedRing(h, a, b, s, t);
      SwappedKept(h, a, b, s, t);
      hide Ring, NoDup, Linked, Apart, KeptOutside;
      ReheadLinks(a, b);
      ReheadLinks(b, a);
      var xn, xp := h.next[a], h.prev[a];
      h := Heap(h.next[a := h.next[b]][b := xn], h.prev[a := h.prev[b]][b := xp]);
    }
  }
}
