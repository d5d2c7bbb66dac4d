/** Uses of the iterator: unmapping a page, and freeing the user pages of a process. */
module VmiterClients {
  import opened PageTable
  import opened Vmiter
  import opened Util

  /** `try_map(0, 0)` unmaps the current page exactly if it was not inside a large page. */
  method Unmap(it: Vmiter) returns (r: int)
    requires it.Valid() && it.va % PAGESIZE == 0
    modifies it, it.mem
    ensures it.Valid() && r == 0 && it.va == old(it.va)
    ensures Pa(it.mem.m, it.mem.lv, it.pt, it.va) == None <==>
            old(it.level) == 0 || old(Pa(it.mem.m, it.mem.lv, it.pt, it.va)) == None
  {
    NoBits(it.perm);
    r := it.TryMap(ZERO, 0);
  }

  lemma NoBits(perm: bv12)
    ensures EntryFits(ZERO, 0) && 0 & !perm & PTE_PWU == 0
  {
  }

  function LargePageTables(): Tables {
    map[1 := EmptyTable()[0 := Entry(2, PTE_PWU, 0)], 2 := EmptyTable()[0 := Entry(0, PTE_PWU | PTE_PS, 0)]]
  }

  /** There are such pages: address 0 inside a large page of level 2. */
  lemma LargePageExample()
    ensures var m, lv := LargePageTables(), map[1 := 3, 2 := 2];
            Tree(m, lv) && Walk(m, lv, 1, 0) == Place(2, 0, 2, 0xFFF) && Pa(m, lv, 1, 0) == Some(0)
  {
    var m, lv := LargePageTables(), map[1 := 3, 2 := 2];
    ZeroEntry();
    LinkEntry(2, 0xFFF);
    LargeEntry();
    forall t, i, c | Points(m, lv, t, i, c) ensures t == 1 && i == 0 && c == 2 { }
    assert Points(m, lv, 1, 0, 2);
    GoDown(m, lv, 1, 3, 0, 0xFFF);
    GoStops(m, lv, 2, 2, 0, 0xFFF);
  }

  lemma LargeEntry()
    ensures !Entry(0, PTE_PWU | PTE_PS, 0).Table() && Entry(0, PTE_PWU | PTE_PS, 0).Present()
  {
  }

  // ----- Freeing the pages of a process -----

  const MEMSIZE_VIRTUAL := 0x30_0000
  const CONSOLE_ADDR := 0xB8000

  /** What the loop works on: the tables as they were, and their levels. */
  datatype Space = Space(m: Tables, lv: map<nat, nat>, root: nat)
  {
    ghost predicate Ok() { Tree(m, lv) && root in lv && lv[root] == 3 }

    ghost predicate User(x: nat)
      requires Ok()
    {
      UserBits(Perm(m, lv, root, x))
    }

    /** `x` has the mapping of one of `fv`. */
    ghost predicate Cleared(x: nat, fv: seq<nat>)
      requires Ok()
    {
      exists i :: 0 <= i < |fv| && Walk(m, lv, root, fv[i]) == Walk(m, lv, root, x)
    }
  }

  predicate Console(x: nat) { Block(x, 0) == Block(CONSOLE_ADDR, 0) }

  /** Every user page below `va` has been freed, once, and nothing else. */
  ghost predicate Freeing(s: Space, m: Tables, fv: seq<nat>, va: nat)
    requires s.Ok() && Tree(m, s.lv)
  {
    && SameWalks(s.m, m, s.lv, s.root)
    && (forall x: nat :: x < VA_END ==> FreedAt(s, m, fv, x))
    && (forall x: nat :: x < va && x < VA_END && s.User(x) && !Console(x) ==> s.Cleared(x, fv))
    && (forall i :: 0 <= i < |fv| ==>
         fv[i] < VA_END && s.User(fv[i]) && !Console(fv[i]) && Pa(s.m, s.lv, s.root, fv[i]).Some?)
    && (forall i, j :: 0 <= i < j < |fv| ==> Walk(s.m, s.lv, s.root, fv[i]) != Walk(s.m, s.lv, s.root, fv[j]))
  }

  ghost predicate FreedAt(s: Space, m: Tables, fv: seq<nat>, x: nat)
    requires s.Ok() && Tree(m, s.lv)
  {
    if s.Cleared(x, fv) then Perm(m, s.lv, s.root, x) == 0 && Pa(m, s.lv, s.root, x) == None
    else SameMap(s.m, s.lv, m, s.lv, s.root, x)
  }

  ghost function Addresses(s: Space, fv: seq<nat>): seq<nat>
    requires s.Ok() && forall i :: 0 <= i < |fv| ==> Pa(s.m, s.lv, s.root, fv[i]).Some?
  {
    seq(|fv|, i requires 0 <= i < |fv| => Pa(s.m, s.lv, s.root, fv[i]).value)
  }

  /** Moving on past addresses that are not user pages any more, or that are the console. */
  lemma MoveOn(s: Space, m: Tables, fv: seq<nat>, va: nat, va': nat)
    requires s.Ok() && Tree(m, s.lv) && Freeing(s, m, fv, va)
    requires forall x: nat :: va <= x < va' && x < VA_END ==> Console(x) || !UserBits(Perm(m, s.lv, s.root, x))
    ensures Freeing(s, m, fv, va')
  {
    forall x: nat | x < va' && x < VA_END && s.User(x) && !Console(x) ensures s.Cleared(x, fv) {
      assert FreedAt(s, m, fv, x);
    }
  }

  lemma NotUser()
    ensures !UserBits(0)
  {
  }

  lemma UserIsPresent(e: Entry, perm: bv12)
    ensures UserBits(PermOf(e, perm)) ==> e.Present()
  {
    var f := e.flags;
    assert f & 0x01 == 0 ==> (f & perm) & 0x01 == 0;
    NotUser();
  }

  /** Freeing the page at `va`. */
  lemma FreeOne(s: Space, m: Tables, m': Tables, fv: seq<nat>, va: nat)
    requires s.Ok() && Tree(m, s.lv) && Tree(m', s.lv) && Freeing(s, m, fv, va) && va < VA_END
    requires UserBits(Perm(m, s.lv, s.root, va)) && !Console(va)
    requires SameWalks(m, m', s.lv, s.root)
    requires BlockCleared(m, m', s.lv, s.root, va, LevelAt(Walk(m, s.lv, s.root, va)))
    ensures Freeing(s, m', fv + [va], va)
    ensures Pa(m, s.lv, s.root, va) == Pa(s.m, s.lv, s.root, va) && Pa(s.m, s.lv, s.root, va).Some?
  {
    var fv' := fv + [va];
    NotUser();
    assert FreedAt(s, m, fv, va);
    assert !s.Cleared(va, fv) && SameMap(s.m, s.lv, m, s.lv, s.root, va);
    UserIsPresent(EntryAt(s.m, Walk(s.m, s.lv, s.root, va)), AllowedAt(Walk(s.m, s.lv, s.root, va)));
    assert Walk(m, s.lv, s.root, va) == Walk(s.m, s.lv, s.root, va);
    forall x: nat | x < VA_END ensures FreedAt(s, m', fv', x) {
      assert FreedAt(s, m, fv, x) && Walk(m, s.lv, s.root, x) == Walk(s.m, s.lv, s.root, x);
      FreedMore(s, m, m', fv, va, x);
    }
    forall x: nat | x < va && s.User(x) && !Console(x) ensures s.Cleared(x, fv') { ClearedMore(s, fv, va, x); }
    forall i | 0 <= i < |fv| ensures Walk(s.m, s.lv, s.root, fv[i]) != Walk(s.m, s.lv, s.root, va) { }
  }

  lemma FreedMore(s: Space, m: Tables, m': Tables, fv: seq<nat>, va: nat, x: nat)
    requires s.Ok() && Tree(m, s.lv) && Tree(m', s.lv) && FreedAt(s, m, fv, x) && va < VA_END && x < VA_END
    requires UserBits(Perm(m, s.lv, s.root, va)) && Walk(m, s.lv, s.root, va) == Walk(s.m, s.lv, s.root, va)
    requires SameWalks(m, m', s.lv, s.root) && Walk(m, s.lv, s.root, x) == Walk(s.m, s.lv, s.root, x)
    requires BlockCleared(m, m', s.lv, s.root, va, LevelAt(Walk(m, s.lv, s.root, va)))
    ensures FreedAt(s, m', fv + [va], x)
  {
    NotUser();
    ClearedMore(s, fv, va, x);
    SameBlockSameWalk(m, s.lv, s.root, va, x);
    hide Tree, Space.Cleared, UserBits;
    if Block(x, LevelAt(Walk(m, s.lv, s.root, va))) != Block(va, LevelAt(Walk(m, s.lv, s.root, va))) {
      assert SameMap(m, s.lv, m', s.lv, s.root, x);
    }
  }

  lemma ClearedMore(s: Space, fv: seq<nat>, va: nat, x: nat)
    requires s.Ok()
    ensures s.Cleared(x, fv + [va]) <==> s.Cleared(x, fv) || Walk(s.m, s.lv, s.root, va) == Walk(s.m, s.lv, s.root, x)
  {
    var fv' := fv + [va];
    assert fv'[|fv|] == va;
    if i :| 0 <= i < |fv| && Walk(s.m, s.lv, s.root, fv[i]) == Walk(s.m, s.lv, s.root, x) { assert fv'[i] == fv[i]; }
  }

  /** For a canonical address: the same block, the same walk. */
  lemma SameBlockSameWalk(m: Tables, lv: map<nat, nat>, root: nat, va: nat, x: nat)
    requires Tree(m, lv) && root in lv && lv[root] == 3 && va < VA_END && x < VA_END && Walk(m, lv, root, va).Place?
    ensures var l := LevelAt(Walk(m, lv, root, va));
            Block(x, l) == Block(va, l) <==> Walk(m, lv, root, x) == Walk(m, lv, root, va)
  {
    if Block(x, LevelAt(Walk(m, lv, root, va))) == Block(va, LevelAt(Walk(m, lv, root, va))) {
      GoSameBlock(m, lv, root, va, x);
    } else if Walk(m, lv, root, x) == Walk(m, lv, root, va) {
      SameEntrySameBlock(m, lv, root, va, x);
    }
  }

  lemma BumpLow(va: nat, l: nat)
    requires va < MEMSIZE_VIRTUAL && va % PAGESIZE == 0 && l <= 3
    ensures va < Bump(va, l) < VA_END && Bump(va, l) % PAGESIZE == 0
    ensures forall x: nat :: va <= x < Bump(va, l) ==> Block(x, l) == Block(va, l) && Block(x, 0) >= Block(va, 0)
  {
    BumpIs(va, l);
    forall x: nat | va <= x < Bump(va, l) ensures Block(x, l) == Block(va, l) && Block(x, 0) >= Block(va, 0) {
      InBlock(va, x, l);
    }
    hide Bump, Block, Size;
  }

  lemma BumpIs(va: nat, l: nat)
    requires va < MEMSIZE_VIRTUAL && l <= 3
    ensures va < Bump(va, l) == (Block(va, l) + 1) * Size(l) < VA_END && Bump(va, l) % PAGESIZE == 0
  {
    if l == 0 {
      NextPage(va);
      BumpPasses(va, 0, va / 0x1000);
    } else if l == 1 {
      NextLargePage(va);
      BumpPasses(va, 1, va / 0x20_0000);
    } else {
      BumpPasses(va, l, 0);
    }
  }

  lemma BumpPasses(va: nat, l: nat, b: nat)
    requires l <= 3 && Block(va, l) == b && va < (b + 1) * Size(l) < VA_END && (b + 1) * Size(l) % PAGESIZE == 0
    ensures va < Bump(va, l) == (Block(va, l) + 1) * Size(l) < VA_END && Bump(va, l) % PAGESIZE == 0
  {
    hide Block, Size;
  }

  lemma NextPage(va: nat)
    requires va < MEMSIZE_VIRTUAL
    ensures va < (va / 0x1000 + 1) * 0x1000 < VA_END && (va / 0x1000 + 1) * 0x1000 % PAGESIZE == 0
  {
  }

  lemma NextLargePage(va: nat)
    requires va < MEMSIZE_VIRTUAL
    ensures va < (va / 0x20_0000 + 1) * 0x20_0000 < VA_END && (va / 0x20_0000 + 1) * 0x20_0000 % PAGESIZE == 0
  {
  }

  lemma InBlock(va: nat, x: nat, l: nat)
    requires l <= 3 && va <= x < (Block(va, l) + 1) * Size(l)
    ensures Block(x, l) == Block(va, l) && Block(x, 0) >= Block(va, 0)
  {
  }

  lemma PageIsAlike(m: Tables, lv: map<nat, nat>, root: nat, va: nat, x: nat, l: nat)
    requires Tree(m, lv) && root in lv && lv[root] == 3 && va < VA_END && x < VA_END
    requires l <= LevelAt(Walk(m, lv, root, va)) && Block(x, l) == Block(va, l)
    ensures Perm(m, lv, root, x) == Perm(m, lv, root, va)
  {
    SameBlockUp(x, va, l, LevelAt(Walk(m, lv, root, va)));
    GoSameBlock(m, lv, root, va, x);
  }

  /** Free every user page below `MEMSIZE_VIRTUAL` except the console: each mapping once, and no other. */
  method FreeUserPages(it: Vmiter) returns (ghost fv: seq<nat>)
    requires it.Valid() && it.va == 0 && AllInRange(Space(it.mem.m, it.mem.lv, it.pt), it.mem.m)
    modifies it, it.mem
    ensures it.Valid()
    ensures old(Space(it.mem.m, it.mem.lv, it.pt).Ok()) && it.mem.lv == old(it.mem.lv)
    ensures Freeing(old(Space(it.mem.m, it.mem.lv, it.pt)), it.mem.m, fv, MEMSIZE_VIRTUAL)
    ensures it.mem.freed == old(it.mem.freed) + Addresses(old(Space(it.mem.m, it.mem.lv, it.pt)), fv)
  {
    ghost var s := Space(it.mem.m, it.mem.lv, it.pt);
    ghost var freed0 := it.mem.freed;
    fv := [];
    while it.va < MEMSIZE_VIRTUAL
      invariant it.Valid() && it.va % PAGESIZE == 0 && it.mem.lv == s.lv && s.Ok()
      invariant AllInRange(s, it.mem.m) && Freeing(s, it.mem.m, fv, it.va)
      invariant it.mem.freed == freed0 + Addresses(s, fv)
      decreases MEMSIZE_VIRTUAL - it.va
    {
      fv := FreeTurn(it, s, fv, freed0);
    }
    assert Freeing(s, it.mem.m, fv, MEMSIZE_VIRTUAL);
  }

  method FreePageAt(it: Vmiter, ghost s: Space, ghost fv: seq<nat>,
      ghost freed0: seq<nat>) returns (ghost fv': seq<nat>)
    requires it.Valid() && it.va % PAGESIZE == 0 && it.mem.lv == s.lv && s.root == it.pt && s.Ok() && !Console(it.va)
    requires AllInRange(s, it.mem.m) && Freeing(s, it.mem.m, fv, it.va) && it.mem.freed == freed0 + Addresses(s, fv)
    requires UserBits(Perm(it.mem.m, it.mem.lv, it.pt, it.va))
    modifies it.mem
    ensures it.Valid() && it.mem.lv == s.lv && Perm(it.mem.m, it.mem.lv, it.pt, it.va) == 0
    ensures AllInRange(s, it.mem.m) && Freeing(s, it.mem.m, fv', it.va)
    ensures it.mem.freed == freed0 + Addresses(s, fv')
  {
    ghost var m := it.mem.m;
    hide Freeing, Tree, Walk, Perm, Pa, BlockCleared, SameMapOutside, SameWalks, UserBits;
    it.KfreePage();
    assert it.level == LevelAt(Walk(m, s.lv, s.root, it.va));
    FreeOne(s, m, it.mem.m, fv, it.va);
    fv' := fv + [it.va];
    hide *;
    MoreAddresses(s, fv, it.va);
  }

  lemma MoreAddresses(s: Space, fv: seq<nat>, va: nat)
    requires s.Ok() && (forall i :: 0 <= i < |fv| ==> Pa(s.m, s.lv, s.root, fv[i]).Some?) &&
             Pa(s.m, s.lv, s.root, va).Some?
    ensures forall i :: 0 <= i < |fv + [va]| ==> Pa(s.m, s.lv, s.root, (fv + [va])[i]).Some?
    ensures Addresses(s, fv + [va]) == Addresses(s, fv) + [Pa(s.m, s.lv, s.root, va).value]
  {
    hide Pa;
  }

  /** One turn of the loop. */
  method FreeTurn(it: Vmiter, ghost s: Space, ghost fv: seq<nat>, ghost freed0: seq<nat>) returns (ghost fv': seq<nat>)
    requires it.Valid() && it.va < MEMSIZE_VIRTUAL && it.va % PAGESIZE == 0 && it.mem.lv == s.lv && s.root == it.pt
    requires s.Ok()
    requires AllInRange(s, it.mem.m) && Freeing(s, it.mem.m, fv, it.va) && it.mem.freed == freed0 + Addresses(s, fv)
    modifies it, it.mem
    ensures it.Valid() && it.va % PAGESIZE == 0 && it.mem.lv == s.lv && it.va > old(it.va)
    ensures AllInRange(s, it.mem.m) && Freeing(s, it.mem.m, fv', it.va)
    ensures it.mem.freed == freed0 + Addresses(s, fv')
  {
    fv' := fv;
    var p := it.GetPerm();
    NotUser();
    hide Freeing, Tree, Walk, Perm, SameMapOutside, SameWalks, UserBits;
    if it.va == CONSOLE_ADDR {
      StepOn(it, s, fv');
    } else if UserBits(p) {
      fv' := FreePageAt(it, s, fv, freed0);
      StepOn(it, s, fv');
    } else {
      RangeOn(it, s, fv');
    }
  }

  /** No walk panics. */
  ghost predicate AllInRange(s: Space, m: Tables)
    requires s.Ok() && Tree(m, s.lv)
  {
    forall x: nat :: x < VA_END ==> InRange(m, s.lv, s.root, x)
  }

  /** `next` from a page that is the console or not a user page. */
  method StepOn(it: Vmiter, ghost s: Space, ghost fv: seq<nat>)
    requires it.Valid() && it.va < MEMSIZE_VIRTUAL && it.va % PAGESIZE == 0 && it.mem.lv == s.lv && s.root == it.pt
    requires s.Ok()
    requires AllInRange(s, it.mem.m) && Freeing(s, it.mem.m, fv, it.va)
    requires Console(it.va) || !UserBits(Perm(it.mem.m, it.mem.lv, it.pt, it.va))
    modifies it
    ensures it.Valid() && it.va % PAGESIZE == 0 && it.va > old(it.va) && Freeing(s, it.mem.m, fv, it.va)
  {
    ghost var va, m, l := it.va, it.mem.m, it.Stride();
    BumpLow(va, l);
    it.Next();
    BumpLow(va, l);
    NotUser();
    forall x: nat | va <= x < it.va ensures Console(x) || !UserBits(Perm(m, s.lv, s.root, x)) {
      if Block(x, 0) == Block(va, 0) { PageIsAlike(m, s.lv, s.root, va, x, 0); }
    }
    MoveOn(s, m, fv, va, it.va);
  }

  /** `next_range` from a page that is not a user page. */
  method RangeOn(it: Vmiter, ghost s: Space, ghost fv: seq<nat>)
    requires it.Valid() && it.va < MEMSIZE_VIRTUAL && it.va % PAGESIZE == 0 && it.mem.lv == s.lv && s.root == it.pt
    requires s.Ok()
    requires AllInRange(s, it.mem.m) && Freeing(s, it.mem.m, fv, it.va)
    requires !UserBits(Perm(it.mem.m, it.mem.lv, it.pt, it.va))
    modifies it
    ensures it.Valid() && it.va % PAGESIZE == 0 && it.va > old(it.va) && Freeing(s, it.mem.m, fv, it.va)
  {
    ghost var va, m, l := it.va, it.mem.m, it.level;
    it.NextRange();
    BumpLow(va, l);
    forall x: nat | va <= x < it.va ensures Console(x) || !UserBits(Perm(m, s.lv, s.root, x)) {
      PageIsAlike(m, s.lv, s.root, va, x, l);
    }
    MoveOn(s, m, fv, va, it.va);
  }
}
