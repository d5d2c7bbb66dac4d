/** What one wait and one signal do by themselves. */
module SchedulerWaits {
  import opened Scheduler
  import opened SchedulerSteps
  import opened SchedulerRuns
  import opened Util

  // ----- A wait returns only while its condition holds -----

  predicate Returning(s: System, p: nat) { p < |s.pc| && (s.pc[p].ClearDone? || s.pc[p].Release?) }

  ghost predicate ReadyAt(s: System, p: nat)
    requires s.Sized()
  {
    Returning(s, p) ==> s.cond[s.pc[p].w].ready
  }

  lemma WaiterChanges(s: System, p: nat, choice: bool, w: nat)
    requires CanStep(s, p, On(choice)) && s.pc[p].Waiter() && w < |s.cond|
    ensures var s' := WaiterStep(s, p, choice);
            && SameSize(s, s') && (s'.cond[w].ready ==> s.cond[w].ready)
            && (s.cond[w].ready && !s'.cond[w].ready ==> s.pc[p] == Release(w))
  {
  }

  lemma WakerChanges(s: System, p: nat, choice: bool, w: nat)
    requires CanStep(s, p, On(choice)) && !s.pc[p].Waiter() && w < |s.cond|
    ensures var s' := WakerStep(s, p, choice);
            SameSize(s, s') && (s'.cond[w].ready <==> s.cond[w].ready || s.pc[p] == Set(w))
  {
    if s.pc[p].WakeEnq? && s.pc[p].x < s.n { EnqueueFacts(s, s.pc[p].x); }
    hide Enqueue, Without;
  }

  /** Only a signaller brings a condition about, and only a process whose wait is over does away with it, both with the
      condition's lock. */
  lemma ReadyChanges(s: System, p: nat, m: Move, w: nat)
    requires CanStep(s, p, m) && LocksOk(s) && w < |s.cond|
    ensures SameSize(s, Step(s, p, m))
    ensures var r, r' := s.cond[w].ready, Step(s, p, m).cond[w].ready;
            && (!r && r' ==> s.pc[p] == Set(w) && s.cond[w].lock == Some(p))
            && (r && !r' ==> s.pc[p] == Release(w) && s.cond[w].lock == Some(p))
            && (m.On? && s.pc[p] == Set(w) ==> r')
  {
    KeepSized(s, p, m);
    assert LockAt(s, w, p);
    if m.On? {
      if s.pc[p].Waiter() { WaiterChanges(s, p, m.choice, w); } else { WakerChanges(s, p, m.choice, w); }
    }
    hide WaiterStep, WakerStep, LocksOk;
  }

  lemma StepReady(s: System, p: nat, m: Move, q: nat)
    requires Inv(s) && CanStep(s, p, m) && ReadyAt(s, q)
    ensures Step(s, p, m).Sized() && ReadyAt(Step(s, p, m), q)
  {
    KeepSized(s, p, m);
    if q != p && Returning(s, q) {
      assert LockAt(s, s.pc[q].w, q);
      ReadyChanges(s, p, m, s.pc[q].w);
    } else if q == p && !s.pc[p].User? {
      ReadyChanges(s, p, m, s.pc[p].w);
      assert LockAt(s, s.pc[p].w, p);
      hide Inv;
      OwnReady(s, p, m);
    }
    hide Inv, Step;
  }

  lemma OwnReady(s: System, p: nat, m: Move)
    requires CanStep(s, p, m) && ReadyAt(s, p) && !s.pc[p].User? && Step(s, p, m).Sized()
    ensures ReadyAt(Step(s, p, m), p)
  {
    if m.On? && !s.pc[p].Waiter() { NeverReturning(s, p, m.choice); }
    hide WakerStep;
  }

  lemma NeverReturning(s: System, p: nat, choice: bool)
    requires CanStep(s, p, On(choice)) && !s.pc[p].Waiter()
    ensures !Returning(WakerStep(s, p, choice), p)
  {
    if s.pc[p].WakeEnq? && s.pc[p].x < s.n { EnqueueFacts(s, s.pc[p].x); }
    hide Enqueue, Without;
  }

  lemma NextReady(s: System, s': System, p: nat)
    requires Inv(s) && Next(s, s') && ReadyAt(s, p)
    ensures s'.Sized() && ReadyAt(s', p)
  {
    if c: nat :| s.Sized() && c < |s.cpu| && s' == Schedule(s, c) {
      ScheduleChanges(s, c);
      hide Inv;
    } else {
      var q: nat, m: Move :| CanStep(s, q, m) && s' == Step(s, q, m);
      hide Inv, Step, CanStep;
      StepReady(s, q, m, p);
    }
  }

  /** A process whose wait has ended has its condition's lock, and the condition holds. */
  ghost predicate ReturnOk(s: System, p: nat) {
    s.Sized() && (Returning(s, p) ==> var c := s.cond[s.pc[p].w]; c.ready && c.lock == Some(p))
  }

  lemma ReturnHasLock(s: System, p: nat)
    requires Inv(s) && ReadyAt(s, p)
    ensures ReturnOk(s, p)
  {
    if Returning(s, p) { assert LockAt(s, s.pc[p].w, p); }
  }

  lemma StartReady(s: System, p: nat)
    requires Start(s)
    ensures s.Sized() && ReadyAt(s, p)
  {
  }

  lemma {:induction false} RunReady(run: seq<System>, i: nat, p: nat)
    requires IsRun(run) && Start(run[0]) && i < |run|
    ensures run[i].Sized() && ReadyAt(run[i], p)
  {
    hide Inv, Next, Start, ReadyAt, System.Sized;
    if i == 0 {
      StartReady(run[0], p);
    } else {
      RunReady(run, i - 1, p);
      RunKeeps(run, i - 1);
      assert Next(run[i - 1], run[i - 1 + 1]);
      NextReady(run[i - 1], run[i], p);
    }
  }

  /** In every state of every run. */
  lemma ReturnsReady(run: seq<System>, i: nat, p: nat)
    requires IsRun(run) && Start(run[0]) && i < |run|
    ensures ReturnOk(run[i], p)
  {
    hide *;
    RunReady(run, i, p);
    RunKeeps(run, i);
    ReturnHasLock(run[i], p);
  }

  // ----- A process by itself -----

  /** Process `p` goes on for `n` steps, and nobody else does; less if it cannot. */
  ghost function Alone(s: System, p: nat, choice: bool, n: nat): System
    decreases n
  {
    if n == 0 || !CanStep(s, p, On(choice)) then s else Alone(Step(s, p, On(choice)), p, choice, n - 1)
  }

  lemma AloneOnce(s: System, p: nat, choice: bool, n: nat)
    requires CanStep(s, p, On(choice)) && n > 0
    ensures Alone(s, p, choice, n) == Alone(Step(s, p, On(choice)), p, choice, n - 1)
  {
  }

  lemma AloneNone(s: System, p: nat, choice: bool)
    ensures Alone(s, p, choice, 0) == s
  {
  }

  /** Process `p` is running and about to wait, or to signal, with the condition's locks free. */
  ghost predicate About(s: System, p: nat, to: Pc) {
    && s.Sized() && p < s.n && s.Executing(p) && s.pc[p] == to && !to.User?
    && s.cond[to.w].lock == None && s.cond[to.w].qlock == None
  }

  /** Process `p` is on the wait queue of `w`, blocked, and the lock is `lock`. */
  function Queued(s: System, p: nat, w: nat, lock: Option<nat>): System
    requires p < |s.blocked| && w < |s.cond|
  {
    s.WithCond(w, s.cond[w].(lock := lock, queue := s.cond[w].queue + [p])).(blocked := s.blocked[p := true])
  }

  /** The steps up to the test of the condition. */
  lemma ToTest(s: System, p: nat, w: nat, choice: bool, n: nat)
    requires About(s, p, Lock(w)) && n >= 2
    ensures Alone(s, p, choice, n) == Alone(Queued(s, p, w, Some(p)).Goto(p, Pred(w)), p, choice, n - 2)
  {
    hide Alone;
    var locked := s.Goto(p, Prepare(w)).WithCond(w, s.cond[w].(lock := Some(p)));
    assert Step(s, p, On(choice)) == locked;
    AloneOnce(s, p, choice, n);
    AloneOnce(locked, p, choice, n - 1);
    assert Step(locked, p, On(choice)) == Queued(s, p, w, Some(p)).Goto(p, Pred(w));
  }

  /** The steps from a test that succeeds. */
  lemma TestPasses(s: System, p: nat, w: nat, choice: bool, n: nat)
    requires About(s, p, Lock(w)) && s.cond[w].ready && !s.blocked[p] && p !in s.cond[w].queue && n >= 2
    ensures Alone(Queued(s, p, w, Some(p)).Goto(p, Pred(w)), p, choice, n) ==
            Alone(s.Goto(p, Release(w)).WithCond(w, s.cond[w].(lock := Some(p))), p, choice, n - 2)
  {
    hide Alone, Without;
    WithoutAbsent(s.cond[w].queue, p);
    var q := Queued(s, p, w, Some(p));
    assert Step(q.Goto(p, Pred(w)), p, On(choice)) == q.Goto(p, ClearDone(w));
    var r := s.Goto(p, Release(w)).WithCond(w, s.cond[w].(lock := Some(p)));
    assert Step(q.Goto(p, ClearDone(w)), p, On(choice)) == r;
    AloneOnce(q.Goto(p, Pred(w)), p, choice, n);
    AloneOnce(q.Goto(p, ClearDone(w)), p, choice, n - 1);
  }

  lemma Releases(s: System, p: nat, w: nat, choice: bool)
    requires About(s, p, Lock(w)) && s.cond[w].ready
    ensures Alone(s.Goto(p, Release(w)).WithCond(w, s.cond[w].(lock := Some(p))), p, choice, 1) ==
            s.Goto(p, User).WithCond(w, s.cond[w].(ready := choice))
  {
    hide Alone;
    var r := s.Goto(p, Release(w)).WithCond(w, s.cond[w].(lock := Some(p)));
    AloneOnce(r, p, choice, 1);
    AloneNone(Step(r, p, On(choice)), p, choice);
  }

  /** Waiting for a condition that holds passes at once, with the condition's lock held meanwhile; nothing else is
      different afterwards than the condition, if the process does away with it. */
  lemma WaitPasses(s: System, p: nat, w: nat, choice: bool)
    requires Inv(s) && About(s, p, Lock(w)) && s.cond[w].ready
    ensures Alone(s, p, choice, 5) == s.Goto(p, User).WithCond(w, s.cond[w].(ready := choice))
    ensures Alone(s, p, choice, 4) == s.Goto(p, Release(w)).WithCond(w, s.cond[w].(lock := Some(p)))
  {
    hide Alone, Queued;
    NotBlocked(s, p, w);
    hide Inv;
    ToTest(s, p, w, choice, 4);
    ToTest(s, p, w, choice, 5);
    TestPasses(s, p, w, choice, 2);
    TestPasses(s, p, w, choice, 3);
    Releases(s, p, w, choice);
    AloneNone(s.Goto(p, Release(w)).WithCond(w, s.cond[w].(lock := Some(p))), p, choice);
  }

  lemma NotBlocked(s: System, p: nat, w: nat)
    requires Inv(s) && About(s, p, Lock(w))
    ensures !s.blocked[p] && p !in s.cond[w].queue
  {
    assert BlockedAt(s, p) && QueueOk(s, w);
  }

  /** The steps from a test that fails. */
  lemma TestFails(s: System, p: nat, w: nat)
    requires About(s, p, Lock(w)) && !s.cond[w].ready
    ensures Alone(Queued(s, p, w, Some(p)).Goto(p, Pred(w)), p, true, 4) ==
            Enter(Queued(s, p, w, None).Goto(p, ClearAgain(w)), p)
  {
    hide Alone;
    var q, r := Queued(s, p, w, Some(p)), Queued(s, p, w, None);
    assert Step(q.Goto(p, Pred(w)), p, On(true)) == q.Goto(p, Unlock(w));
    assert Step(q.Goto(p, Unlock(w)), p, On(true)) == r.Goto(p, Block(w));
    assert Step(r.Goto(p, Block(w)), p, On(true)) == r.Goto(p, Yield(w));
    AloneOnce(q.Goto(p, Pred(w)), p, true, 4);
    AloneOnce(q.Goto(p, Unlock(w)), p, true, 3);
    AloneOnce(r.Goto(p, Block(w)), p, true, 2);
    AloneOnce(r.Goto(p, Yield(w)), p, true, 1);
    AloneNone(Step(r.Goto(p, Yield(w)), p, On(true)), p, true);
    assert r.Goto(p, Yield(w)).Goto(p, ClearAgain(w)) == r.Goto(p, ClearAgain(w));
  }

  /** Waiting for a condition that does not hold ends with the process blocked, last on the wait queue, with no lock
      held, and with its CPU looking for another process. */
  lemma WaitSleeps(s: System, p: nat, w: nat)
    requires About(s, p, Lock(w)) && !s.cond[w].ready
    ensures var c, u := s.cond[w], s.cpu[s.Home(p)];
            Alone(s, p, true, 6) ==
            s.Goto(p, ClearAgain(w)).WithCond(w, c.(queue := c.queue + [p])).(blocked := s.blocked[p := true])
              .WithCpu(s.Home(p), u.(mode := Check, yielding := true))
    ensures forall m :: !CanStep(Alone(s, p, true, 6), p, m)
  {
    hide Alone;
    ToTest(s, p, w, true, 6);
    TestFails(s, p, w);
  }

  /** A signaller brings the condition about under its lock, and is then bound to wake those who wait for it. */
  lemma SignalSets(s: System, p: nat, w: nat, choice: bool)
    requires About(s, p, SLock(w))
    ensures Alone(s, p, choice, 2).pc == s.pc[p := if choice then WakeLock(w, true) else Drop(w)]
    ensures Alone(s, p, choice, 2).pc[p].WillWake(w)
    ensures Alone(s, p, choice, 2).cond == s.cond[w := s.cond[w].(ready := true, lock := Some(p))]
  {
    hide Alone;
    var t := s.Goto(p, Set(w)).WithCond(w, s.cond[w].(lock := Some(p)));
    assert Step(s, p, On(choice)) == t;
    AloneOnce(s, p, choice, 2);
    AloneOnce(t, p, choice, 1);
    AloneNone(Step(t, p, On(choice)), p, choice);
  }

  // ----- Waking all -----

  /** Those in `q` who are at home on CPU `c` and not current there, in order. */
  function Arrivals(s: System, q: seq<nat>, c: nat): seq<nat>
    requires c < |s.cpu|
  {
    if q == [] then [] else Arrival(s, q[0], c) + Arrivals(s, q[1..], c)
  }

  function Arrival(s: System, x: nat, c: nat): seq<nat>
    requires c < |s.cpu|
  {
    if x < s.n && s.Home(x) == c && s.cpu[c].current != Some(x) then [x] else []
  }

  lemma {:induction false} SameArrivals(s: System, t: System, q: seq<nat>, c: nat)
    requires c < |s.cpu| == |t.cpu| && s.n == t.n && t.cpu[c].current == s.cpu[c].current
    ensures Arrivals(s, q, c) == Arrivals(t, q, c)
  {
    if q != [] { SameArrivals(s, t, q[1..], c); }
  }

  /** `q` were woken: they are runnable, and at the end of the run queues at home, in the order in which they waited. */
  ghost predicate Woken(s: System, t: System, q: seq<nat>) {
    && t.n == s.n && |t.blocked| == |s.blocked| && |t.cpu| == |s.cpu|
    && (forall x :: 0 <= x < |s.blocked| ==> t.blocked[x] == (s.blocked[x] && x !in q))
    && forall c :: 0 <= c < |s.cpu| ==> t.cpu[c] == s.cpu[c].(runq := s.cpu[c].runq + Arrivals(s, q, c))
  }

  ghost predicate AtPop(s: System, p: nat, w: nat, held: bool) {
    Inv(s) && p < |s.pc| && s.pc[p] == WakePop(w, held)
  }

  /** The state after one process was taken off the wait queue and woken. */
  ghost function AfterOne(s: System, w: nat, x: nat): System
    requires |s.cpu| > 0 && w < |s.cond| && x < |s.blocked| && s.cond[w].queue != [] && x < s.n
  {
    Enqueue(s, x).(blocked := s.blocked[x := false], cond := s.cond[w := s.cond[w].(queue := s.cond[w].queue[1..])])
  }

  lemma PopFacts(s: System, p: nat, w: nat, held: bool)
    requires AtPop(s, p, w, held)
    ensures s.Sized() && p < |s.pc| && w < |s.cond| && s.Executing(p)
    ensures s.cond[w].queue != [] ==>
              var x := s.cond[w].queue[0];
              x < s.n && s.blocked[x] && x != p && x !in s.cpu[s.Home(x)].runq
  {
    assert ExecutionAt(s, p) && QueueOk(s, w);
    if s.cond[w].queue != [] {
      var x := s.cond[w].queue[0];
      assert x in s.cond[w].queue && Waits(s, w, x);
      assert CpuOk(s, s.Home(x));
    }
  }

  /** The states on the way there. */
  function Popped(s: System, p: nat, w: nat, held: bool, x: nat): System
    requires p < |s.pc| && w < |s.cond| && s.cond[w].queue != []
  {
    s.Goto(p, WakeCas(w, held, x)).WithCond(w, s.cond[w].(queue := s.cond[w].queue[1..]))
  }

  function Freed(s: System, p: nat, w: nat, held: bool, x: nat): System
    requires p < |s.pc| && w < |s.cond| && s.cond[w].queue != [] && x < |s.blocked|
  {
    Popped(s, p, w, held, x).Goto(p, WakeEnq(w, held, x)).(blocked := s.blocked[x := false])
  }

  lemma PopSteps(s: System, p: nat, w: nat, held: bool, x: nat)
    requires s.Sized() && p < |s.pc| && s.Executing(p) && s.pc[p] == WakePop(w, held) && s.cond[w].queue != []
    requires x == s.cond[w].queue[0] && x < s.n && s.blocked[x]
    ensures CanStep(s, p, On(true)) && Step(s, p, On(true)) == Popped(s, p, w, held, x)
    ensures var t := Popped(s, p, w, held, x);
            CanStep(t, p, On(true)) && Step(t, p, On(true)) == Freed(s, p, w, held, x)
    ensures var t := Freed(s, p, w, held, x); CanStep(t, p, On(true)) && Step(t, p, On(true)) == AfterOne(s, w, x)
  {
    var t := Freed(s, p, w, held, x);
    assert Enqueue(t, x).Goto(p, WakePop(w, held)) == AfterOne(s, w, x);
  }

  lemma PopOne(s: System, p: nat, w: nat, held: bool, n: nat)
    requires AtPop(s, p, w, held) && w < |s.cond| && s.cond[w].queue != [] && n >= 3
    ensures s.Sized() && s.cond[w].queue[0] < s.n
    ensures var t := AfterOne(s, w, s.cond[w].queue[0]);
            AtPop(t, p, w, held) && Alone(s, p, true, n) == Alone(t, p, true, n - 3)
  {
    PopFacts(s, p, w, held);
    var x := s.cond[w].queue[0];
    hide Inv, Alone, Step, CanStep, Popped, Freed;
    PopSteps(s, p, w, held, x);
    KeepStep(s, p, On(true));
    KeepStep(Popped(s, p, w, held, x), p, On(true));
    KeepStep(Freed(s, p, w, held, x), p, On(true));
    AloneOnce(s, p, true, n);
    AloneOnce(Popped(s, p, w, held, x), p, true, n - 1);
    AloneOnce(Freed(s, p, w, held, x), p, true, n - 2);
    EnqueueFacts(s, x);
    hide Enqueue;
  }

  lemma OneWoken(s: System, p: nat, w: nat, held: bool)
    requires AtPop(s, p, w, held) && w < |s.cond| && s.cond[w].queue != []
    ensures s.Sized() && s.cond[w].queue[0] < s.n
    ensures var t := AfterOne(s, w, s.cond[w].queue[0]);
            && t.pc == s.pc && t.cond == s.cond[w := s.cond[w].(queue := s.cond[w].queue[1..])]
            && Woken(s, t, [s.cond[w].queue[0]])
  {
    PopFacts(s, p, w, held);
    hide Inv;
    var x := s.cond[w].queue[0];
    var t := AfterOne(s, w, x);
    forall c | 0 <= c < |s.cpu| ensures t.cpu[c] == s.cpu[c].(runq := s.cpu[c].runq + Arrivals(s, [x], c)) {
      assert Arrivals(s, [x], c) == Arrival(s, x, c);
      EnqueueAdds(s, x, c);
    }
    hide Arrivals, Enqueue;
  }

  lemma EnqueueAdds(s: System, x: nat, c: nat)
    requires c < |s.cpu| && x < s.n && x !in s.cpu[s.Home(x)].runq
    ensures |Enqueue(s, x).cpu| == |s.cpu|
    ensures Enqueue(s, x).cpu[c] == s.cpu[c].(runq := s.cpu[c].runq + Arrival(s, x, c))
  {
  }

  lemma WokenMore(s: System, t: System, u: System, q: seq<nat>)
    requires q != [] && Woken(s, t, [q[0]]) && Woken(t, u, q[1..])
    ensures Woken(s, u, q)
  {
    assert q == [q[0]] + q[1..];
    forall c | 0 <= c < |s.cpu| ensures u.cpu[c] == s.cpu[c].(runq := s.cpu[c].runq + Arrivals(s, q, c)) {
      SameArrivals(s, t, q[1..], c);
      assert Arrivals(s, [q[0]], c) + Arrivals(s, q[1..], c) == Arrivals(s, q, c);
    }
  }

  /** Going through the wait queue of `w` is done in `t`: its lock is free and those who waited are woken. */
  ghost predicate AllWoken(s: System, t: System, p: nat, w: nat, held: bool)
    requires p < |s.pc| && w < |s.cond|
  {
    && Woken(s, t, s.cond[w].queue)
    && t.pc == s.pc[p := if held then SRelease(w) else User]
    && t.cond == s.cond[w := s.cond[w].(queue := [], qlock := None)]
  }

  /** Going through a wait queue wakes everybody on it, in order, and nobody else: they are runnable, and queued at home
      unless they are still current there. */
  lemma {:induction false} WakesAll(s: System, p: nat, w: nat, held: bool)
    requires AtPop(s, p, w, held)
    ensures w < |s.cond| && AllWoken(s, Alone(s, p, true, 3 * |s.cond[w].queue| + 1), p, w, held)
    decreases if w < |s.cond| then |s.cond[w].queue| else 0
  {
    hide *;
    PopFacts(s, p, w, held);
    var q := s.cond[w].queue;
    if q == [] {
      LastPop(s, p, w, held);
    } else {
      PopOne(s, p, w, held, 3 * |q| + 1);
      OneWoken(s, p, w, held);
      var t := AfterOne(s, w, q[0]);
      WakesAll(t, p, w, held);
      assert 3 * |q| + 1 - 3 == 3 * |q[1..]| + 1;
      WokenOn(s, t, Alone(t, p, true, 3 * |q[1..]| + 1), p, w, held);
    }
  }

  lemma WokenOn(s: System, t: System, u: System, p: nat, w: nat, held: bool)
    requires p < |s.pc| && w < |s.cond| && s.cond[w].queue != [] && t.pc == s.pc
    requires t.cond == s.cond[w := s.cond[w].(queue := s.cond[w].queue[1..])]
    requires Woken(s, t, [s.cond[w].queue[0]]) && AllWoken(t, u, p, w, held)
    ensures AllWoken(s, u, p, w, held)
  {
    WokenMore(s, t, u, s.cond[w].queue);
    hide Woken;
  }

  lemma LastPop(s: System, p: nat, w: nat, held: bool)
    requires AtPop(s, p, w, held) && w < |s.cond| && s.cond[w].queue == []
    ensures AllWoken(s, Alone(s, p, true, 1), p, w, held)
  {
    PopFacts(s, p, w, held);
    hide Inv;
    AloneOnce(s, p, true, 1);
    AloneNone(Step(s, p, On(true)), p, true);
    hide Alone;
  }

  // ----- Homes -----

  lemma Remainder(x: nat, m: nat, k: nat, c: nat)
    requires c < m && x == k * m + c
    ensures x % m == c
  {
    assert x == x / m * m + x % m;
    SameParts(k, c, x / m, x % m, m);
  }

  lemma NumberAfter(p: nat, m: nat, c: nat) returns (q: nat)
    requires c < m
    ensures p <= q < p + m && q % m == c
  {
    var k, d := p / m, p % m;
    assert p == k * m + d;
    if d <= c {
      q := k * m + c;
      Remainder(q, m, k, c);
    } else {
      q := (k + 1) * m + c;
      Remainder(q, m, k + 1, c);
    }
  }

  lemma SameRemainder(q: nat, r: nat, m: nat)
    requires q <= r < q + m && q % m == r % m
    ensures q == r
  {
    var k, c := q / m, q % m;
    assert q == k * m + c;
    if c + (r - q) < m {
      Remainder(r, m, k, c + (r - q));
    } else {
      Remainder(r, m, k + 1, c + (r - q) - m);
    }
  }

  /** Processes are spread evenly: among any processes with successive numbers, as many as there are CPUs and without
      the first process, each CPU has exactly one. The first process is at home on the first CPU. */
  lemma HomesSpread(s: System, p: nat, c: nat) returns (q: nat)
    requires 1 < p && p + |s.cpu| <= s.n && c < |s.cpu|
    ensures p <= q < p + |s.cpu| && s.Home(q) == c
    ensures forall r: nat :: p <= r < p + |s.cpu| && s.Home(r) == c ==> r == q
    ensures s.Home(1) == 0
  {
    q := NumberAfter(p, |s.cpu|, c);
    forall r: nat | p <= r < p + |s.cpu| && s.Home(r) == c ensures r == q {
      if q <= r { SameRemainder(q, r, |s.cpu|); } else { SameRemainder(r, q, |s.cpu|); }
    }
  }
}
