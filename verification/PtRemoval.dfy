/** What taking a table out of a tree changes. */
module PtRemoval {
  import opened PageTable
  import opened PtPositions
  import opened Util

  /** Slots are tables of the tree. */
  lemma {:induction false} SlotInTree(m: Tables, lv: map<nat, nat>, root: nat, p: Pos)
    requires Tree(m, lv) && root in lv && lv[root] == 3 && p.Ok() && Slot(m, root, p).Some?
    ensures Slot(m, root, p).value in lv && lv[Slot(m, root, p).value] == p.level
    ensures TableOk(m, lv, Slot(m, root, p).value)
    decreases 3 - p.level
  {
    if p.level < 3 {
      UpOk(p);
      SlotInTree(m, lv, root, p.Up());
      var t := Slot(m, root, p.Up()).value;
      assert Points(m, lv, t, (p.q / 512) % 512, Slot(m, root, p).value);
    }
  }

  /** Two entries in the same table belong to the same position above. */
  lemma {:induction false} SlotUnique(m: Tables, lv: map<nat, nat>, root: nat, p: Pos, r: Pos)
    requires Tree(m, lv) && root in lv && lv[root] == 3 && p.Ok() && r.Ok()
    requires Slot(m, root, p).Some? && Slot(m, root, p) == Slot(m, root, r)
    ensures p.level == r.level && p.q / 512 == r.q / 512
    decreases 3 - p.level
  {
    SlotInTree(m, lv, root, p);
    SlotInTree(m, lv, root, r);
    if p.level < 3 {
      UpOk(p);
      UpOk(r);
      var t, u, c := Slot(m, root, p.Up()).value, Slot(m, root, r.Up()).value, Slot(m, root, p).value;
      SlotInTree(m, lv, root, p.Up());
      SlotInTree(m, lv, root, r.Up());
      assert Points(m, lv, t, (p.q / 512) % 512, c) && Points(m, lv, u, (r.q / 512) % 512, c);
      SlotUnique(m, lv, root, p.Up(), r.Up());
      Rejoin(p.q / 512, r.q / 512);
    }
  }

  lemma Rejoin(a: nat, b: nat)
    requires a / 512 == b / 512 && a % 512 == b % 512
    ensures a == b
  {
  }

  /** Two positions with the same entry are the same. */
  lemma EntryUnique(m: Tables, lv: map<nat, nat>, root: nat, p: Pos, r: Pos)
    requires Tree(m, lv) && root in lv && lv[root] == 3 && p.Ok() && r.Ok()
    requires Slot(m, root, p).Some? && Slot(m, root, p) == Slot(m, root, r) && p.q % 512 == r.q % 512
    ensures p == r
  {
    SlotUnique(m, lv, root, p, r);
    Rejoin(p.q, r.q);
  }

  /** No two positions have the same table. */
  lemma ChildUnique(m: Tables, lv: map<nat, nat>, root: nat, p: Pos, r: Pos)
    requires Tree(m, lv) && root in lv && lv[root] == 3 && p.Ok() && r.Ok()
    requires HasTable(m, root, p) && HasTable(m, root, r) && Child(m, root, p) == Child(m, root, r)
    ensures p == r
  {
    var t, u := Slot(m, root, p).value, Slot(m, root, r).value;
    SlotInTree(m, lv, root, p);
    SlotInTree(m, lv, root, r);
    assert Points(m, lv, t, p.q % 512, Child(m, root, p)) && Points(m, lv, u, r.q % 512, Child(m, root, r));
    EntryUnique(m, lv, root, p, r);
  }

  // ----- Taking a table out -----

  /** `m` without table page `c` and with the entry that refers to it cleared. */
  function Removed(m: Tables, t: nat, i: nat, c: nat): Tables
    requires t in m && i < |m[t]|
  {
    SetEntry(m, t, i, ZERO) - {c}
  }

  lemma RemoveKeepsTree(m: Tables, lv: map<nat, nat>, root: nat, p: Pos)
    requires Tree(m, lv) && root in lv && lv[root] == 3 && p.Ok() && HasTable(m, root, p)
    ensures Tree(Removed(m, Slot(m, root, p).value, p.q % 512, Child(m, root, p)), lv - {Child(m, root, p)})
    ensures Child(m, root, p) in lv && lv[Child(m, root, p)] + 1 == p.level && Child(m, root, p) != root
    ensures Slot(m, root, p).value in lv && lv[Slot(m, root, p).value] == p.level
  {
    var t, i, c := Slot(m, root, p).value, p.q % 512, Child(m, root, p);
    var m', lv' := Removed(m, t, i, c), lv - {c};
    SlotInTree(m, lv, root, p);
    assert Points(m, lv, t, i, c);
    ZeroEntry();
    forall u | u in lv' ensures TableOk(m', lv', u) { assert TableOk(m, lv, u); }
    forall u, j, d | Points(m', lv', u, j, d) ensures Points(m, lv, u, j, d) && d != c {
      assert TableOk(m, lv, u);
      assert Points(m, lv, u, j, d);
    }
  }

  /** Taking out the table at `p` takes away the tables at and below `p`, and no others. */
  lemma {:induction false} RemoveAt(m: Tables, lv: map<nat, nat>, root: nat, p: Pos, r: Pos)
    requires Tree(m, lv) && root in lv && lv[root] == 3 && p.Ok() && HasTable(m, root, p) && r.Ok()
    ensures var m' := Removed(m, Slot(m, root, p).value, p.q % 512, Child(m, root, p));
            && Slot(m', root, r) == (if r != p && Below(r, p) then None else Slot(m, root, r))
            && (HasTable(m', root, r) <==> HasTable(m, root, r) && !Below(r, p))
            && (HasTable(m', root, r) ==> Child(m', root, r) == Child(m, root, r))
    decreases 3 - r.level
  {
    var t, i, c := Slot(m, root, p).value, p.q % 512, Child(m, root, p);
    var m' := Removed(m, t, i, c);
    if r.level < 3 {
      UpOk(r);
      RemoveAt(m, lv, root, p, r.Up());
      SlotIffUp(m, root, r);
      SlotIffUp(m', root, r);
      BelowUp(r, p);
    }
    RemoveHere(m, lv, root, p, r);
  }

  lemma BelowUp(r: Pos, p: Pos)
    requires r.Ok() && p.Ok() && r.level < 3 && r.Up().Ok()
    ensures r != p && Below(r, p) <==> Below(r.Up(), p)
  {
    if Below(r.Up(), p) { BelowLevel(r.Up(), p); }
  }

  lemma BelowLevel(r: Pos, p: Pos)
    requires r.Ok() && p.Ok() && Below(r, p)
    ensures r.level <= p.level
  {
  }

  /** The entry for `r`, once its table is known to have stayed. */
  lemma RemoveHere(m: Tables, lv: map<nat, nat>, root: nat, p: Pos, r: Pos)
    requires Tree(m, lv) && root in lv && lv[root] == 3 && p.Ok() && HasTable(m, root, p) && r.Ok()
    requires Slot(Removed(m, Slot(m, root, p).value, p.q % 512, Child(m, root, p)), root, r)
             == (if r != p && Below(r, p) then None else Slot(m, root, r))
    ensures var m' := Removed(m, Slot(m, root, p).value, p.q % 512, Child(m, root, p));
            && (HasTable(m', root, r) <==> HasTable(m, root, r) && !Below(r, p))
            && (HasTable(m', root, r) ==> Child(m', root, r) == Child(m, root, r))
  {
    var t, i, c := Slot(m, root, p).value, p.q % 512, Child(m, root, p);
    ZeroEntry();
    RemoveKeepsTree(m, lv, root, p);
    if Slot(m, root, r).Some? && !(r != p && Below(r, p)) {
      var u := Slot(m, root, r).value;
      SlotInTree(m, lv, root, r);
      if u == c {
        UnderChild(m, lv, root, p, r);
      } else if u == t && r.q % 512 == i {
        EntryUnique(m, lv, root, p, r);
      }
    }
  }

  /** The entries of the table at `p` are below `p`. */
  lemma UnderChild(m: Tables, lv: map<nat, nat>, root: nat, p: Pos, r: Pos)
    requires Tree(m, lv) && root in lv && lv[root] == 3 && p.Ok() && HasTable(m, root, p) && r.Ok()
    requires Slot(m, root, r) == Some(Child(m, root, p))
    ensures r != p && Below(r, p)
  {
    RemoveKeepsTree(m, lv, root, p);
    SlotInTree(m, lv, root, r);
    SlotIffUp(m, root, r);
    ChildUnique(m, lv, root, p, r.Up());
  }
}
