/** Fair runs: whoever is due to be woken is woken. */
module SchedulerFairness {
  import opened Scheduler
  import opened SchedulerSteps
  import opened SchedulerRuns
  import opened Util

  datatype Action = Turn(c: nat) | Does(p: nat, m: Move)

  ghost predicate StepAt(run: nat -> System, act: nat -> Action, i: nat) {
    match act(i)
    case Turn(c) => run(i).Sized() && c < |run(i).cpu| && run(i + 1) == Schedule(run(i), c)
    case Does(p, m) => CanStep(run(i), p, m) && run(i + 1) == Step(run(i), p, m)
  }

  /** Process `p` goes on by a step of its wait or its wake-up. */
  predicate Moves(a: Action, p: nat) { a.Does? && a.p == p && a.m.On? }

  ghost predicate Enabled(s: System, p: nat) { CanStep(s, p, On(true)) }

  ghost predicate NeverFrom(run: nat -> System, p: nat, k: nat) {
    forall l: nat :: l >= k ==> !Enabled(run(l), p)
  }

  ghost predicate Served(run: nat -> System, act: nat -> Action, p: nat, i: nat) {
    exists k: nat :: k >= i && (Moves(act(k), p) || NeverFrom(run, p, k))
  }

  predicate Runs(s: System, p: nat) {
    |s.cpu| > 0 && p < s.n + |s.cpu| && s.Executing(p)
  }

  ghost predicate RunsFrom(run: nat -> System, p: nat, k: nat) {
    forall l: nat :: l >= k ==> Runs(run(l), p)
  }

  ghost predicate Spins(run: nat -> System, act: nat -> Action, p: nat, i: nat) {
    exists k: nat :: k >= i && (Moves(act(k), p) || RunsFrom(run, p, k))
  }

  predicate AtWakeLock(s: System, p: nat) { p < |s.pc| && s.pc[p].WakeLock? }

  /** Fairness: a process able to go on again and again does go on; and a waker that asks for the queue lock gets it
      or, with interrupts off by then, stays on its CPU. */
  ghost predicate FairRun(run: nat -> System, act: nat -> Action) {
    && (forall i: nat :: StepAt(run, act, i))
    && (forall p: nat, i: nat :: Served(run, act, p, i))
    && (forall p: nat, i: nat :: AtWakeLock(run(i), p) ==> Spins(run, act, p, i))
  }

  lemma StepIsNext(run: nat -> System, act: nat -> Action, i: nat)
    requires FairRun(run, act) && Inv(run(i))
    ensures Inv(run(i + 1)) && SameSize(run(i), run(i + 1))
  {
    assert StepAt(run, act, i);
    if act(i).Does? { KeepSized(run(i), act(i).p, act(i).m); } else { ScheduleChanges(run(i), act(i).c); }
    assert Next(run(i), run(i + 1));
    hide Inv, Step, Schedule;
    NextKeeps(run(i), run(i + 1));
  }

  lemma {:induction false} InvAt(run: nat -> System, act: nat -> Action, i: nat, j: nat)
    requires FairRun(run, act) && Inv(run(i)) && i <= j
    ensures Inv(run(j)) && SameSize(run(i), run(j))
    decreases j
  {
    if i < j {
      hide Inv, FairRun;
      InvAt(run, act, i, j - 1);
      StepIsNext(run, act, j - 1);
    }
  }

  // ----- A waker until its next step -----

  /** A waker, or a process about to become one, stays where it is until its own next step. */
  lemma StandsStill(run: nat -> System, act: nat -> Action, i: nat, p: nat)
    requires FairRun(run, act) && p < |run(i).pc| && !run(i).pc[p].User? && !Moves(act(i), p)
    ensures p < |run(i + 1).pc| && run(i + 1).pc[p] == run(i).pc[p]
  {
    assert StepAt(run, act, i);
    if act(i).Does? {
      KeepSized(run(i), act(i).p, act(i).m);
      hide Advance;
    }
  }

  lemma {:induction false} UntilMove(run: nat -> System, act: nat -> Action, i: nat, k: nat, p: nat) returns (j: nat)
    requires FairRun(run, act) && p < |run(i).pc| && !run(i).pc[p].User? && i <= k
    ensures i <= j <= k && p < |run(j).pc| && run(j).pc[p] == run(i).pc[p] && (Moves(act(j), p) || j == k)
    decreases k - i
  {
    if i == k || Moves(act(i), p) {
      j := i;
    } else {
      StandsStill(run, act, i, p);
      hide FairRun;
      j := UntilMove(run, act, i + 1, k, p);
    }
  }

  // ----- Going through the queue -----

  /** Process `p` goes through the wait queue of `w`. */
  ghost predicate Popping(s: System, p: nat, w: nat) {
    Inv(s) && p < |s.pc| && s.pc[p].HasQueueLock() && s.pc[p].w == w
  }

  /** Steps left, at most. */
  function Rank(s: System, p: nat, w: nat): nat
    requires p < |s.pc| && s.pc[p].HasQueueLock() && w < |s.cond|
  {
    3 * |s.cond[w].queue| + (if s.pc[p].WakePop? then 1 else if s.pc[p].WakeEnq? then 2 else 3)
  }

  predicate Emptied(s: System, w: nat) {
    w < |s.cond| && s.cond[w].queue == [] && s.cond[w].qlock == None
  }

  lemma PoppingFacts(s: System, p: nat, w: nat)
    requires Popping(s, p, w)
    ensures w < |s.cond| && s.cond[w].qlock == Some(p) && Enabled(s, p)
  {
    assert LockAt(s, w, p) && ExecutionAt(s, p);
  }

  lemma OwnPop(s: System, p: nat, w: nat, choice: bool)
    requires w < |s.cond| && CanStep(s, p, On(choice)) && s.pc[p].HasQueueLock() && s.pc[p].w == w
    ensures var s' := Step(s, p, On(choice));
            && SameSize(s, s')
            && (Emptied(s', w) || (s'.pc[p].HasQueueLock() && s'.pc[p].w == w && Rank(s', p, w) < Rank(s, p, w)))
  {
    if s.pc[p].WakeEnq? && s.pc[p].x < s.n { EnqueueFacts(s, s.pc[p].x); }
    hide WaiterStep, Enqueue;
  }

  lemma PopStep(run: nat -> System, act: nat -> Action, i: nat, p: nat, w: nat)
    requires FairRun(run, act) && Popping(run(i), p, w)
    ensures w < |run(i).cond| && Inv(run(i + 1))
    ensures Emptied(run(i + 1), w) || (Popping(run(i + 1), p, w) && w < |run(i + 1).cond| &&
              if Moves(act(i), p) then Rank(run(i + 1), p, w) < Rank(run(i), p, w)
              else Rank(run(i + 1), p, w) == Rank(run(i), p, w))
  {
    PoppingFacts(run(i), p, w);
    StepIsNext(run, act, i);
    assert StepAt(run, act, i);
    var s := run(i);
    if Moves(act(i), p) {
      OwnPop(s, p, w, act(i).m.choice);
      hide Inv, Step;
    } else {
      StandsStill(run, act, i, p);
      QueueLeftAlone(run, act, i, p, w);
      hide Inv, Step, Schedule;
    }
  }

  lemma QueueLeftAlone(run: nat -> System, act: nat -> Action, i: nat, p: nat, w: nat)
    requires FairRun(run, act) && Popping(run(i), p, w) && w < |run(i).cond| && !Moves(act(i), p)
    ensures w < |run(i + 1).cond| && run(i + 1).cond[w].queue == run(i).cond[w].queue
  {
    assert StepAt(run, act, i);
    PoppingFacts(run(i), p, w);
    var s := run(i);
    if act(i).Does? {
      var q, m := act(i).p, act(i).m;
      KeepSized(s, q, m);
      if q != p {
        assert s.pc[q].User? || LockAt(s, s.pc[q].w, q);
        hide Inv, Step;
        QueueLockKept(s, q, m, w, p);
      } else {
        hide Inv, Advance;
      }
    } else {
      ScheduleChanges(s, act(i).c);
    }
  }

  lemma {:induction false} PopsUntil(run: nat -> System, act: nat -> Action, i: nat, k: nat, p: nat, w: nat)
    returns (j: nat)
    requires FairRun(run, act) && Popping(run(i), p, w) && i <= k
    ensures i <= j && w < |run(i).cond|
    ensures (Inv(run(j)) && Emptied(run(j), w)) ||
            (j == k && Popping(run(j), p, w) && w < |run(j).cond| && Rank(run(j), p, w) <= Rank(run(i), p, w))
    decreases k - i
  {
    PoppingFacts(run(i), p, w);
    if i == k {
      j := i;
    } else {
      PopStep(run, act, i, p, w);
      hide Popping, Emptied, FairRun, Inv, Rank;
      if Emptied(run(i + 1), w) {
        j := i + 1;
      } else {
        j := PopsUntil(run, act, i + 1, k, p, w);
      }
    }
  }

  /** Whoever has the queue lock to wake the waiters empties the queue and gives the lock up. */
  lemma {:induction false} Empties(run: nat -> System, act: nat -> Action, i: nat, p: nat, w: nat) returns (j: nat)
    requires FairRun(run, act) && Popping(run(i), p, w)
    ensures i <= j && w < |run(i).cond| && Inv(run(j)) && Emptied(run(j), w)
    decreases if w < |run(i).cond| then Rank(run(i), p, w) else 0
  {
    PoppingFacts(run(i), p, w);
    assert Served(run, act, p, i);
    var k: nat :| k >= i && (Moves(act(k), p) || NeverFrom(run, p, k));
    j := PopsUntil(run, act, i, k, p, w);
    if !Emptied(run(j), w) {
      PoppingFacts(run(k), p, w);
      assert Moves(act(k), p);
      PopStep(run, act, k, p, w);
      hide Popping, FairRun, Inv, Rank;
      if Emptied(run(k + 1), w) {
        j := k + 1;
      } else {
        j := Empties(run, act, k + 1, p, w);
      }
    }
  }

  // ----- Coming to the queue -----

  /** The queue lock of `w` is free, or will be. */
  lemma LockComes(run: nat -> System, act: nat -> Action, i: nat, w: nat) returns (j: nat)
    requires FairRun(run, act) && Inv(run(i)) && w < |run(i).cond|
    ensures i <= j && Inv(run(j)) && w < |run(j).cond| && run(j).cond[w].qlock == None
  {
    var s := run(i);
    if s.cond[w].qlock == None {
      j := i;
    } else {
      var q := s.cond[w].qlock.value;
      assert LockAt(s, w, q);
      j := Empties(run, act, i, q, w);
    }
  }

  lemma CanTakeLock(s: System, p: nat)
    requires s.Sized() && AtWakeLock(s, p) && Runs(s, p) && s.cond[s.pc[p].w].qlock == None
    ensures Enabled(s, p)
  {
  }

  /** A waker that asks for the queue lock takes its next step. */
  lemma LockTaken(run: nat -> System, act: nat -> Action, i: nat, p: nat) returns (j: nat)
    requires FairRun(run, act) && Inv(run(i)) && AtWakeLock(run(i), p)
    ensures i <= j && Moves(act(j), p) && p < |run(j).pc| && run(j).pc[p] == run(i).pc[p]
  {
    assert Spins(run, act, p, i);
    var k0: nat :| k0 >= i && (Moves(act(k0), p) || RunsFrom(run, p, k0));
    j := UntilMove(run, act, i, k0, p);
    if !Moves(act(j), p) {
      assert Served(run, act, p, k0);
      var k: nat :| k >= k0 && (Moves(act(k), p) || NeverFrom(run, p, k));
      j := UntilMove(run, act, k0, k, p);
      if !Moves(act(j), p) {
        InvAt(run, act, i, k);
        var w := run(i).pc[p].w;
        var l := LockComes(run, act, k, w);
        j := UntilMove(run, act, k, l, p);
        if !Moves(act(j), p) {
          assert Runs(run(l), p);
          CanTakeLock(run(l), p);
        }
      }
    }
  }

  lemma LockStep(s: System, p: nat, choice: bool)
    requires CanStep(s, p, On(choice)) && s.pc[p].WakeLock?
    ensures SameSize(s, Step(s, p, On(choice))) && Step(s, p, On(choice)).pc[p] == WakePop(s.pc[p].w, s.pc[p].held)
  {
    hide WaiterStep;
  }

  lemma DropStep(s: System, p: nat, choice: bool)
    requires CanStep(s, p, On(choice)) && s.pc[p].Drop?
    ensures SameSize(s, Step(s, p, On(choice))) && Step(s, p, On(choice)).pc[p] == WakeLock(s.pc[p].w, false)
  {
    hide WaiterStep;
  }

  lemma DropEnabled(s: System, p: nat)
    requires Inv(s) && p < |s.pc| && s.pc[p].Drop?
    ensures Enabled(s, p)
  {
    assert ExecutionAt(s, p);
  }

  lemma LockerEmpties(run: nat -> System, act: nat -> Action, i: nat, p: nat) returns (j: nat)
    requires FairRun(run, act) && Inv(run(i)) && AtWakeLock(run(i), p)
    ensures i <= j && Inv(run(j)) && Emptied(run(j), run(i).pc[p].w)
  {
    var k := LockTaken(run, act, i, p);
    InvAt(run, act, i, k);
    assert StepAt(run, act, k);
    LockStep(run(k), p, act(k).m.choice);
    StepIsNext(run, act, k);
    hide Inv, FairRun, Step;
    j := Empties(run, act, k + 1, p, run(i).pc[p].w);
  }

  lemma DropperEmpties(run: nat -> System, act: nat -> Action, i: nat, p: nat) returns (j: nat)
    requires FairRun(run, act) && Inv(run(i)) && p < |run(i).pc| && run(i).pc[p].Drop?
    ensures i <= j && Inv(run(j)) && Emptied(run(j), run(i).pc[p].w)
  {
    assert Served(run, act, p, i);
    var k0: nat :| k0 >= i && (Moves(act(k0), p) || NeverFrom(run, p, k0));
    var k := UntilMove(run, act, i, k0, p);
    InvAt(run, act, i, k);
    DropEnabled(run(k), p);
    assert StepAt(run, act, k);
    hide Inv;
    DropStep(run(k), p, act(k).m.choice);
    StepIsNext(run, act, k);
    hide Inv, FairRun, Step;
    j := LockerEmpties(run, act, k + 1, p);
  }

  /** A waker that is due empties the wait queue: then nobody is blocked on its condition. */
  lemma WakerArrives(run: nat -> System, act: nat -> Action, i: nat, p: nat, w: nat) returns (j: nat)
    requires FairRun(run, act) && Inv(run(i)) && p < |run(i).pc| && run(i).pc[p].WillWake(w)
    ensures i <= j && Inv(run(j)) && forall x: nat :: !Waits(run(j), w, x)
  {
    if run(i).pc[p].Drop? {
      j := DropperEmpties(run, act, i, p);
    } else if run(i).pc[p].WakeLock? {
      j := LockerEmpties(run, act, i, p);
    } else {
      j := Empties(run, act, i, p, w);
    }
    hide FairRun;
    NobodyWaits(run(j), w);
  }

  lemma NobodyWaits(s: System, w: nat)
    requires Inv(s) && Emptied(s, w)
    ensures forall x: nat :: !Waits(s, w, x)
  {
    forall x: nat ensures !Waits(s, w, x) {
      assert Waits(s, w, x) ==> BlockedAt(s, x);
    }
  }

  // ----- Being woken -----

  /** A process that stays blocked stays on the same wait. */
  lemma WaitsOn(run: nat -> System, act: nat -> Action, i: nat, x: nat, w: nat)
    requires FairRun(run, act) && Inv(run(i)) && Waits(run(i), w, x)
    ensures SameSize(run(i), run(i + 1)) && (run(i + 1).blocked[x] ==> Waits(run(i + 1), w, x))
  {
    StepIsNext(run, act, i);
    assert StepAt(run, act, i);
    if act(i).Does? {
      var s, p, m := run(i), act(i).p, act(i).m;
      KeepSized(s, p, m);
      if p == x { QueueingKept(s, p, m); }
      hide Inv, Step;
    } else {
      ScheduleChanges(run(i), act(i).c);
    }
  }

  lemma {:induction false} WaitsUntil(run: nat -> System, act: nat -> Action, i: nat, j: nat, x: nat, w: nat)
    returns (k: nat)
    requires FairRun(run, act) && Inv(run(i)) && Waits(run(i), w, x) && i <= j && !Waits(run(j), w, x)
    ensures i < k <= j && x < |run(k).blocked| && !run(k).blocked[x]
    decreases j - i
  {
    WaitsOn(run, act, i, x, w);
    StepIsNext(run, act, i);
    hide Inv, FairRun;
    if run(i + 1).blocked[x] {
      k := WaitsUntil(run, act, i + 1, j, x, w);
    } else {
      k := i + 1;
    }
  }

  /** A descheduled process whose condition has come about is made runnable, and is then current on its home CPU, on
      its run queue, or about to be enqueued there. */
  lemma ReadyIsWoken(run: nat -> System, act: nat -> Action, i: nat, x: nat) returns (k: nat)
    requires FairRun(run, act) && Inv(run(i)) && x < |run(i).pc| && run(i).blocked[x] && !run(i).Executing(x)
    requires !run(i).pc[x].User? ==> run(i).cond[run(i).pc[x].w].ready
    ensures i < k && Inv(run(k)) && x < run(k).n && !run(k).blocked[x] && Placed(run(k), x)
  {
    var s := run(i);
    assert ExecutionAt(s, x) && BlockedAt(s, x);
    var w := s.pc[x].w;
    assert s.pc[x].Resolved() && Waits(s, w, x);
    assert WakeDue(s, w);
    var p: nat :| p < |s.pc| && s.pc[p].WillWake(w);
    var j := WakerArrives(run, act, i, p, w);
    k := WaitsUntil(run, act, i, j, x, w);
    InvAt(run, act, i, k);
  }
}
