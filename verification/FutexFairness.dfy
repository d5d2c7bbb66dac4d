/** Fair runs of the mutex: everybody gets through. */
module FutexFairness {
  import opened FutexMutex

  datatype Action = Timer | Move(t: nat, bad: bool)

  /** Step `i` of the run; no thread that is out calls `lock`. */
  ghost predicate StepAt(run: nat -> System, act: nat -> Action, i: nat) {
    match act(i)
    case Timer => run(i + 1) == Tick(run(i))
    case Move(t, bad) => CanStep(run(i), t) && run(i).pc[t] != Out && run(i + 1) == Step(run(i), t, bad)
  }

  predicate Enabled(s: System, t: nat) {
    CanStep(s, t) && s.pc[t] != Out
  }

  ghost predicate Served(run: nat -> System, act: nat -> Action, t: nat, i: nat, k: nat) {
    k >= i && (!Enabled(run(k), t) || (act(k).Move? && act(k).t == t))
  }

  ghost predicate ServedSoon(run: nat -> System, act: nat -> Action, t: nat, i: nat) {
    exists k: nat :: Served(run, act, t, i, k)
  }

  /** Weak fairness: a thread that stays able to step does step. Compare-exchanges and allocations may fail at will. */
  ghost predicate FairRun(run: nat -> System, act: nat -> Action) {
    && (forall i: nat :: StepAt(run, act, i))
    && (forall t: nat, i: nat :: ServedSoon(run, act, t, i))
  }

  function Inside(s: System): set<nat> { set t: nat | t < |s.pc| && s.pc[t] != Out }

  lemma StepIsNext(run: nat -> System, act: nat -> Action, i: nat)
    requires FairRun(run, act) && Inv(run(i))
    ensures Inv(run(i + 1)) && Inside(run(i + 1)) <= Inside(run(i))
  {
    assert StepAt(run, act, i);
    if act(i).Move? {
      StepMoves(run(i), act(i).t, act(i).bad);
      assert Next(run(i), run(i + 1));
    }
    hide Inv, Step;
    NextKeeps(run(i), run(i + 1));
  }

  lemma {:induction false} RunIsSafe(run: nat -> System, act: nat -> Action, i: nat, j: nat)
    requires FairRun(run, act) && Inv(run(i)) && i <= j
    ensures Inv(run(j)) && Inside(run(j)) <= Inside(run(i))
    decreases j
  {
    if i < j {
      hide Inv, FairRun, Inside;
      RunIsSafe(run, act, i, j - 1);
      StepIsNext(run, act, j - 1);
    }
  }

  /** On its way out: able to step, and each step brings it closer. */
  predicate Going(s: System, u: nat) {
    u < |s.pc| == |s.blocked| && s.pc[u] != Out && !Committed(s, u) && (Unlocking(s, u) || s.word == 0)
  }

  /** Out, or, unless it was unlocking, overtaken by another thread that got the mutex. */
  predicate Settled(s: System, u: nat, unlocker: bool) {
    u < |s.pc| && (s.pc[u] == Out || (!unlocker && s.word != 0))
  }

  lemma GoingStep(s: System, t: nat, bad: bool, u: nat)
    requires Going(s, u) && Enabled(s, t)
    ensures var s' := Step(s, t, bad);
            Settled(s', u, Unlocking(s, u)) || (Going(s', u) && Unlocking(s', u) == Unlocking(s, u))
    ensures var s' := Step(s, t, bad);
            u < |s'.pc| && (t == u ==> Rank(s'.pc[u]) < Rank(s.pc[u])) && (t != u ==> s'.pc[u] == s.pc[u])
  {
    var s' := Step(s, t, bad);
    StepMoves(s, t, bad);
    if t == u { StepCloser(s, u, bad); }
    if Committed(s', u) { NewSleeper(s, t, bad, u); }
    hide Rank;
  }

  /** Until its next step, a thread on its way out stays where it is. */
  lemma {:induction false} Waits(run: nat -> System, act: nat -> Action, i: nat, k: nat, u: nat) returns (j: nat)
    requires FairRun(run, act) && Going(run(i), u) && i <= k
    ensures i <= j && u < |run(i).pc|
    ensures var r := Unlocking(run(i), u);
            || Settled(run(j), u, r)
            || (Going(run(j), u) && Unlocking(run(j), u) == r && j == k && Rank(run(j).pc[u]) <= Rank(run(i).pc[u]))
    decreases k - i
  {
    if i == k {
      j := k;
    } else {
      GoingAt(run, act, i, u);
      hide Going, Settled, FairRun, Rank;
      if Settled(run(i + 1), u, Unlocking(run(i), u)) {
        j := i + 1;
      } else {
        j := Waits(run, act, i + 1, k, u);
      }
    }
  }

  lemma GoingAt(run: nat -> System, act: nat -> Action, i: nat, u: nat)
    requires FairRun(run, act) && Going(run(i), u)
    ensures u < |run(i + 1).pc|
    ensures Settled(run(i + 1), u, Unlocking(run(i), u)) ||
            (Going(run(i + 1), u) && Unlocking(run(i + 1), u) == Unlocking(run(i), u))
    ensures Rank(run(i + 1).pc[u]) <= Rank(run(i).pc[u])
    ensures act(i).Move? && act(i).t == u ==> Rank(run(i + 1).pc[u]) < Rank(run(i).pc[u])
  {
    assert StepAt(run, act, i);
    hide FairRun, Rank;
    if act(i).Move? {
      hide Step;
      GoingStep(run(i), act(i).t, act(i).bad, u);
    }
  }

  /** A thread on its way out gets there, or another takes the mutex first. */
  lemma {:induction false} Settles(run: nat -> System, act: nat -> Action, i: nat, u: nat) returns (j: nat)
    requires FairRun(run, act) && Going(run(i), u)
    ensures i <= j && Settled(run(j), u, Unlocking(run(i), u))
    decreases Rank(run(i).pc[u])
  {
    assert ServedSoon(run, act, u, i);
    var k: nat :| Served(run, act, u, i, k);
    var unlocker := Unlocking(run(i), u);
    j := Waits(run, act, i, k, u);
    if !Settled(run(j), u, unlocker) {
      assert Enabled(run(k), u);
      GoingAt(run, act, k, u);
      hide Going, FairRun, Rank, Unlocking;
      if Settled(run(k + 1), u, unlocker) {
        j := k + 1;
      } else {
        hide Settled;
        j := Settles(run, act, k + 1, u);
      }
    }
  }

  lemma UnlockerLeaves(run: nat -> System, act: nat -> Action, i: nat, u: nat) returns (j: nat)
    requires FairRun(run, act) && Inv(run(i)) && Unlocking(run(i), u)
    ensures i <= j && Inv(run(j)) && Inside(run(j)) < Inside(run(i))
  {
    assert Going(run(i), u);
    j := Settles(run, act, i, u);
    hide Inv, FairRun;
    RunIsSafe(run, act, i, j);
    assert u in Inside(run(i)) && u !in Inside(run(j));
  }

  /** As long as somebody is inside, somebody leaves. */
  lemma SomebodyLeaves(run: nat -> System, act: nat -> Action, i: nat) returns (j: nat)
    requires FairRun(run, act) && Inv(run(i)) && !AllOut(run(i))
    ensures i <= j && Inv(run(j)) && Inside(run(j)) < Inside(run(i))
  {
    if u: nat :| Unlocking(run(i), u) {
      j := UnlockerLeaves(run, act, i, u);
    } else {
      var u := SomebodyGoing(run(i));
      var k := Settles(run, act, i, u);
      RunIsSafe(run, act, i, k);
      if run(k).pc[u] == Out {
        j := k;
        assert u in Inside(run(i)) && u !in Inside(run(j));
      } else {
        var t: nat :| HoldsLock(run(k), t);
        j := UnlockerLeaves(run, act, k, t);
      }
    }
  }

  /** With the word free, somebody can go on; sleepers have somebody who will see to them. */
  lemma SomebodyGoing(s: System) returns (u: nat)
    requires Inv(s) && !AllOut(s) && forall t: nat :: !Unlocking(s, t)
    ensures Going(s, u)
  {
    assert s.word == 0 by {
      if s.word != 0 {
        var t: nat :| HoldsLock(s, t);
        assert Unlocking(s, t);
      }
    }
    u :| u < |s.pc| && s.pc[u] != Out;
    if Committed(s, u) {
      u :| WillSee(s, u);
      assert !Unlocking(s, u);
    }
  }

  /** No starvation without new calls: every weakly fair run ends with all threads out and the mutex free. */
  lemma {:induction false} FairRunsEnd(run: nat -> System, act: nat -> Action, i: nat) returns (k: nat)
    requires FairRun(run, act) && Inv(run(i))
    ensures k >= i && AllOut(run(k)) && run(k).word == 0 && run(k).queue == [] && run(k).refs == 0
    decreases Inside(run(i))
  {
    if AllOut(run(i)) {
      FreeWhenDone(run(i));
      k := i;
    } else {
      hide Inv, FairRun, AllOut, Inside;
      var j := SomebodyLeaves(run, act, i);
      k := FairRunsEnd(run, act, j);
    }
  }
}
