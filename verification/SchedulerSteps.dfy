/** Every step of the scheduler and of the wait-queue protocol keeps each part of the invariant. */
module SchedulerSteps {
  import opened Scheduler
  import opened Util

  /** Enqueueing touches nothing but one run queue. */
  lemma EnqueueFacts(s: System, x: nat)
    requires |s.cpu| > 0 && x < s.n + |s.cpu|
    ensures var s' := Enqueue(s, x);
            && s'.n == s.n && s'.pc == s.pc && s'.blocked == s.blocked && s'.cond == s.cond && |s'.cpu| == |s.cpu|
            && forall c :: 0 <= c < |s.cpu| ==> s'.cpu[c].current == s.cpu[c].current && s'.cpu[c].mode == s.cpu[c].mode
  {
  }

  lemma WaiterSized(s: System, p: nat, choice: bool)
    requires CanStep(s, p, On(choice)) && s.pc[p].Waiter()
    ensures var s' := WaiterStep(s, p, choice);
            && SameSize(s, s') && s'.pc == s.pc[p := s'.pc[p]]
            && (s'.pc[p].User? || s'.pc[p].w == s.pc[p].w)
  {
  }

  lemma WakerSized(s: System, p: nat, choice: bool)
    requires CanStep(s, p, On(choice)) && !s.pc[p].Waiter()
    ensures var s' := WakerStep(s, p, choice);
            && SameSize(s, s') && s'.pc == s.pc[p := s'.pc[p]]
            && (s'.pc[p].User? || s'.pc[p].w == s.pc[p].w)
  {
    if s.pc[p].WakeEnq? && s.pc[p].x < s.n { EnqueueFacts(s, s.pc[p].x); }
    hide Enqueue, Without;
  }

  lemma AdvanceSized(s: System, p: nat, choice: bool)
    requires CanStep(s, p, On(choice))
    ensures var s' := Advance(s, p, choice);
            && SameSize(s, s') && s'.pc == s.pc[p := s'.pc[p]]
            && (s'.pc[p].User? || s'.pc[p].w == s.pc[p].w)
  {
    hide WaiterStep, WakerStep;
    if s.pc[p].Waiter() { WaiterSized(s, p, choice); } else { WakerSized(s, p, choice); }
  }

  lemma KeepSized(s: System, p: nat, m: Move)
    requires CanStep(s, p, m)
    ensures Step(s, p, m).Sized() && SameSize(s, Step(s, p, m))
    ensures Step(s, p, m).pc == s.pc[p := Step(s, p, m).pc[p]]
  {
    if m.On? {
      AdvanceSized(s, p, m.choice);
      hide Advance;
    }
  }

  ghost predicate SameSize(s: System, s': System) {
    |s'.pc| == |s.pc| && s'.n == s.n && |s'.cpu| == |s.cpu| && |s'.cond| == |s.cond| && |s'.blocked| == |s.blocked|
  }

  /** A step that touches no wait queue and makes nobody blocked or runnable. */
  ghost predicate Quiet(s: System, s': System, p: nat) {
    && s.Sized() && s'.Sized() && SameSize(s, s') && p < |s.pc| && s'.pc == s.pc[p := s'.pc[p]]
    && s'.blocked == s.blocked
    && (forall w :: 0 <= w < |s.cond| ==> s'.cond[w].queue == s.cond[w].queue)
    && (s.pc[p].Queueing() ==> s'.pc[p].Queueing() && s'.pc[p].w == s.pc[p].w)
  }

  predicate TouchesQueue(s: System, p: nat, m: Move)
    requires p < |s.pc|
  {
    m.On? && (s.pc[p].Prepare? || s.pc[p].ClearAgain? || s.pc[p].ClearDone? || s.pc[p].WakePop? || s.pc[p].WakeCas?)
  }

  lemma QuietStep(s: System, p: nat, m: Move)
    requires CanStep(s, p, m) && !TouchesQueue(s, p, m)
    ensures Quiet(s, Step(s, p, m), p)
  {
    KeepSized(s, p, m);
  }

  // ----- Locks and execution -----

  lemma WaiterLock(s: System, p: nat, choice: bool, w: nat)
    requires CanStep(s, p, On(choice)) && s.pc[p].Waiter() && w < |s.cond| && LockAt(s, w, p)
    ensures var s' := WaiterStep(s, p, choice);
            SameSize(s, s') && (s'.cond[w].lock == Some(p) <==> s'.pc[p].HasLock() && s'.pc[p].w == w)
  {
  }

  lemma WakerLock(s: System, p: nat, choice: bool, w: nat)
    requires CanStep(s, p, On(choice)) && !s.pc[p].Waiter() && w < |s.cond| && LockAt(s, w, p)
    ensures var s' := WakerStep(s, p, choice);
            SameSize(s, s') && (s'.cond[w].lock == Some(p) <==> s'.pc[p].HasLock() && s'.pc[p].w == w)
  {
    if s.pc[p].WakeEnq? && s.pc[p].x < s.n { EnqueueFacts(s, s.pc[p].x); }
    hide Enqueue, Without;
  }

  lemma WaiterQueueLock(s: System, p: nat, choice: bool, w: nat)
    requires CanStep(s, p, On(choice)) && s.pc[p].Waiter() && w < |s.cond| && LockAt(s, w, p)
    ensures var s' := WaiterStep(s, p, choice);
            SameSize(s, s') && (s'.cond[w].qlock == Some(p) <==> s'.pc[p].HasQueueLock() && s'.pc[p].w == w)
  {
  }

  lemma WakerQueueLock(s: System, p: nat, choice: bool, w: nat)
    requires CanStep(s, p, On(choice)) && !s.pc[p].Waiter() && w < |s.cond| && LockAt(s, w, p)
    ensures var s' := WakerStep(s, p, choice);
            SameSize(s, s') && (s'.cond[w].qlock == Some(p) <==> s'.pc[p].HasQueueLock() && s'.pc[p].w == w)
  {
    if s.pc[p].WakeEnq? && s.pc[p].x < s.n { EnqueueFacts(s, s.pc[p].x); }
    hide Enqueue, Without;
  }

  lemma OwnLock(s: System, p: nat, m: Move, w: nat)
    requires CanStep(s, p, m) && w < |s.cond| && Step(s, p, m).Sized() && SameSize(s, Step(s, p, m)) && LockAt(s, w, p)
    ensures LockAt(Step(s, p, m), w, p)
  {
    if m.On? {
      if s.pc[p].Waiter() {
        WaiterLock(s, p, m.choice, w);
        WaiterQueueLock(s, p, m.choice, w);
      } else {
        WakerLock(s, p, m.choice, w);
        WakerQueueLock(s, p, m.choice, w);
      }
      hide WaiterStep, WakerStep;
    }
  }

  /** What process `p` can do to a condition: take or give up a lock, and change the queue only if nobody else holds
      the queue lock. */
  predicate CondStep(c: Cond, c': Cond, p: nat) {
    && (c'.lock == c.lock || (c.lock == None && c'.lock == Some(p)) || (c.lock == Some(p) && c'.lock == None))
    && (c'.qlock == c.qlock || (c.qlock == None && c'.qlock == Some(p)) || (c.qlock == Some(p) && c'.qlock == None))
    && (c'.queue == c.queue || c.qlock == None || c.qlock == Some(p))
  }

  lemma WaiterCond(s: System, p: nat, choice: bool, w: nat)
    requires CanStep(s, p, On(choice)) && s.pc[p].Waiter() && w < |s.cond| && LockAt(s, s.pc[p].w, p)
    ensures w < |WaiterStep(s, p, choice).cond| && CondStep(s.cond[w], WaiterStep(s, p, choice).cond[w], p)
  {
  }

  lemma WakerCond(s: System, p: nat, choice: bool, w: nat)
    requires CanStep(s, p, On(choice)) && !s.pc[p].Waiter() && w < |s.cond| && LockAt(s, s.pc[p].w, p)
    ensures w < |WakerStep(s, p, choice).cond| && CondStep(s.cond[w], WakerStep(s, p, choice).cond[w], p)
  {
    if s.pc[p].WakeEnq? && s.pc[p].x < s.n { EnqueueFacts(s, s.pc[p].x); }
    hide Enqueue, Without;
  }

  lemma CondOfStep(s: System, p: nat, m: Move, w: nat)
    requires CanStep(s, p, m) && w < |s.cond| && (s.pc[p].User? || LockAt(s, s.pc[p].w, p))
    ensures w < |Step(s, p, m).cond| && CondStep(s.cond[w], Step(s, p, m).cond[w], p)
  {
    if m.On? {
      if s.pc[p].Waiter() { WaiterCond(s, p, m.choice, w); } else { WakerCond(s, p, m.choice, w); }
      hide WaiterStep, WakerStep, CondStep, LockAt;
    }
  }

  lemma OtherLock(s: System, p: nat, m: Move, w: nat, q: nat)
    requires CanStep(s, p, m) && w < |s.cond| && Step(s, p, m).Sized() && SameSize(s, Step(s, p, m))
    requires q < |s.pc| && q != p && Step(s, p, m).pc[q] == s.pc[q] && LockAt(s, w, q) &&
             (s.pc[p].User? || LockAt(s, s.pc[p].w, p))
    ensures LockAt(Step(s, p, m), w, q)
  {
    CondOfStep(s, p, m, w);
    hide Step, CanStep;
  }

  lemma KeepLocks(s: System, p: nat, m: Move)
    requires CanStep(s, p, m) && LocksOk(s)
    ensures Step(s, p, m).Sized() && LocksOk(Step(s, p, m))
  {
    KeepSized(s, p, m);
    var s' := Step(s, p, m);
    assert s.pc[p].User? || LockAt(s, s.pc[p].w, p);
    hide Step, CanStep, LockAt;
    forall w: nat | w < |s.cond| && s'.cond[w].qlock.Some? ensures s'.cond[w].qlock.value < |s.pc| {
      CondOfStep(s, p, m, w);
    }
    forall w: nat, q: nat | w < |s.cond| && q < |s.pc| ensures LockAt(s', w, q) {
      assert LockAt(s, w, q);
      if q == p { OwnLock(s, p, m, w); } else { OtherLock(s, p, m, w, q); }
    }
  }

  /** What another process holds the queue lock of is left alone. */
  lemma QueueLockKept(s: System, p: nat, m: Move, w: nat, q: nat)
    requires CanStep(s, p, m) && w < |s.cond| && SameSize(s, Step(s, p, m))
    requires q != p && s.cond[w].qlock == Some(q) && (s.pc[p].User? || LockAt(s, s.pc[p].w, p))
    ensures Step(s, p, m).cond[w].qlock == Some(q) && Step(s, p, m).cond[w].queue == s.cond[w].queue
    ensures s.pc[p].Queueing() && s.pc[p].w == w ==> Step(s, p, m).pc[p].Queueing() && Step(s, p, m).pc[p].w == w
  {
    CondOfStep(s, p, m, w);
    if s.pc[p].Queueing() && s.pc[p].w == w { NotCleared(s, p, m); }
    hide Step, CanStep;
  }

  /** Leaving the wait takes the queue lock. */
  lemma NotCleared(s: System, p: nat, m: Move)
    requires CanStep(s, p, m) && SameSize(s, Step(s, p, m)) && s.pc[p].Queueing() && s.cond[s.pc[p].w].qlock.Some?
    ensures Step(s, p, m).pc[p].Queueing() && Step(s, p, m).pc[p].w == s.pc[p].w
  {
    hide WakerStep;
  }

  lemma WaiterCpu(s: System, p: nat, choice: bool, c: nat)
    requires CanStep(s, p, On(choice)) && s.pc[p].Waiter() && c < |s.cpu|
    ensures var s' := WaiterStep(s, p, choice);
            && SameSize(s, s') && s'.cpu[c].current == s.cpu[c].current
            && (s'.cpu[c].mode == s.cpu[c].mode || (s.pc[p].Yield? && c == s.Home(p) && s'.pc[p].LockFree()))
  {
  }

  lemma WakerCpu(s: System, p: nat, choice: bool, c: nat)
    requires CanStep(s, p, On(choice)) && !s.pc[p].Waiter() && c < |s.cpu|
    ensures var s' := WakerStep(s, p, choice);
            && SameSize(s, s') && s'.cpu[c].current == s.cpu[c].current && s'.cpu[c].mode == s.cpu[c].mode
  {
    if s.pc[p].WakeEnq? && s.pc[p].x < s.n { EnqueueFacts(s, s.pc[p].x); }
    hide Enqueue, Without;
  }

  /** A step of a process leaves the current processes in place, and stops at most its own CPU. */
  lemma CurrentOfStep(s: System, p: nat, m: Move, c: nat)
    requires CanStep(s, p, m) && c < |s.cpu|
    ensures var s' := Step(s, p, m);
            && SameSize(s, s') && s'.cpu[c].current == s.cpu[c].current
            && (s'.cpu[c].mode == s.cpu[c].mode || (c == s.Home(p) && s'.pc[p].LockFree()))
  {
    if m.On? {
      if s.pc[p].Waiter() { WaiterCpu(s, p, m.choice, c); } else { WakerCpu(s, p, m.choice, c); }
      hide WaiterStep, WakerStep;
    }
  }

  lemma StepKeepsIdle(s: System, p: nat, m: Move, q: nat)
    requires CanStep(s, p, m) && q < |s.pc| && q >= s.n && ExecutionAt(s, q) && WakersOk(s)
    requires Step(s, p, m).Sized() && SameSize(s, Step(s, p, m)) && (q != p ==> Step(s, p, m).pc[q] == s.pc[q])
    ensures Step(s, p, m).pc[q].User? && !Step(s, p, m).blocked[q]
  {
    assert WakerOk(s, p);
    BlockedChanges(s, p, m);
    if q == p { hide Advance; } else { hide Step; }
  }

  lemma KeepExecutionAt(s: System, p: nat, m: Move, q: nat)
    requires CanStep(s, p, m) && q < |s.pc| && ExecutionAt(s, q) && WakersOk(s)
    requires Step(s, p, m).Sized() && SameSize(s, Step(s, p, m)) && (q != p ==> Step(s, p, m).pc[q] == s.pc[q])
    ensures ExecutionAt(Step(s, p, m), q)
  {
    SameHome(s, Step(s, p, m), q);
    CurrentOfStep(s, p, m, s.Home(q));
    if q >= s.n { StepKeepsIdle(s, p, m, q); }
    assert s.Executing(p);
    hide Step, CanStep, WakersOk;
  }

  lemma SameHome(s: System, s': System, q: nat)
    requires SameSize(s, s') && |s.cpu| > 0 && q < s.n + |s.cpu|
    ensures s'.Home(q) == s.Home(q)
  {
  }

  lemma KeepExecution(s: System, p: nat, m: Move)
    requires CanStep(s, p, m) && ExecutionOk(s) && WakersOk(s)
    ensures Step(s, p, m).Sized() && ExecutionOk(Step(s, p, m))
  {
    KeepSized(s, p, m);
    var s' := Step(s, p, m);
    hide Step, CanStep, WakersOk, ExecutionAt;
    forall q: nat | q < |s.pc| ensures ExecutionAt(s', q) {
      assert ExecutionAt(s, q);
      KeepExecutionAt(s, p, m, q);
    }
  }

  // ----- Wait queues -----

  lemma QuietQueues(s: System, s': System, p: nat)
    requires Quiet(s, s', p) && QueuesOk(s)
    ensures QueuesOk(s')
  {
    forall w: nat | w < |s.cond| ensures QueueOk(s', w) {
      assert QueueOk(s, w);
      forall x | x in s'.cond[w].queue ensures Waits(s', w, x) {
        assert Waits(s, w, x);
      }
    }
  }

  lemma OtherQueues(s: System, s': System, p: nat, w: nat, x: nat)
    requires s.Sized() && s'.Sized() && SameSize(s, s') && QueuesOk(s) && p < |s.pc| && s'.pc == s.pc[p := s'.pc[p]]
    requires forall v: nat :: v < |s.cond| && v != w ==> s'.cond[v].queue == s.cond[v].queue
    requires x < |s.pc| && (s.blocked[x] ==> s.pc[x].Queueing() && s.pc[x].w == w)
    requires forall y: nat :: y < |s.pc| && y != x ==> s'.blocked[y] == s.blocked[y]
    requires s.pc[p].Queueing() ==> s.pc[p].w == w
    ensures forall v: nat :: v < |s.cond| && v != w ==> QueueOk(s', v)
  {
    forall v: nat | v < |s.cond| && v != w ensures QueueOk(s', v) {
      assert QueueOk(s, v);
      forall y | y in s'.cond[v].queue ensures Waits(s', v, y) {
        assert Waits(s, v, y);
      }
    }
  }

  lemma PrepareQueues(s: System, p: nat, m: Move)
    requires CanStep(s, p, m) && m.On? && s.pc[p].Prepare? && QueuesOk(s) && ExecutionOk(s) && BlockedOk(s)
    ensures Step(s, p, m).Sized() && QueuesOk(Step(s, p, m))
  {
    KeepSized(s, p, m);
    var s', w := Step(s, p, m), s.pc[p].w;
    assert BlockedAt(s, p) && ExecutionAt(s, p);
    OtherQueues(s, s', p, w, p);
    assert QueueOk(s, w);
    forall x | x in s'.cond[w].queue ensures Waits(s', w, x) {
      if x != p { assert x in s.cond[w].queue && Waits(s, w, x); }
    }
    assert p in s.cond[w].queue ==> Waits(s, w, p);
    assert QueueOk(s', w);
  }

  lemma ClearQueues(s: System, p: nat, m: Move)
    requires CanStep(s, p, m) && m.On? && (s.pc[p].ClearAgain? || s.pc[p].ClearDone?) && QueuesOk(s)
    ensures Step(s, p, m).Sized() && QueuesOk(Step(s, p, m))
  {
    KeepSized(s, p, m);
    var s', w := Step(s, p, m), s.pc[p].w;
    OtherQueues(s, s', p, w, p);
    assert QueueOk(s, w);
    WithoutNoDup(s.cond[w].queue, p);
    forall x | x in s'.cond[w].queue ensures Waits(s', w, x) {
      assert Waits(s, w, x);
    }
    assert QueueOk(s', w);
  }

  lemma PopQueues(s: System, p: nat, m: Move)
    requires CanStep(s, p, m) && m.On? && s.pc[p].WakePop? && QueuesOk(s) && BlockedOk(s)
    ensures Step(s, p, m).Sized() && QueuesOk(Step(s, p, m))
  {
    KeepSized(s, p, m);
    var s', w := Step(s, p, m), s.pc[p].w;
    assert BlockedAt(s, p);
    OtherQueues(s, s', p, w, p);
    assert QueueOk(s, w);
    forall x | x in s'.cond[w].queue ensures Waits(s', w, x) {
      assert Waits(s, w, x);
    }
    assert QueueOk(s', w);
  }

  lemma CasQueues(s: System, p: nat, m: Move)
    requires CanStep(s, p, m) && m.On? && s.pc[p].WakeCas? && QueuesOk(s) && WakersOk(s)
    ensures Step(s, p, m).Sized() && QueuesOk(Step(s, p, m))
  {
    assert WakerOk(s, p);
    KeepSized(s, p, m);
    var s', w := Step(s, p, m), s.pc[p].w;
    OtherQueues(s, s', p, w, s.pc[p].x);
    assert QueueOk(s, w);
    forall x | x in s'.cond[w].queue ensures Waits(s', w, x) {
      assert Waits(s, w, x);
    }
    assert QueueOk(s', w);
  }

  lemma KeepQueues(s: System, p: nat, m: Move)
    requires CanStep(s, p, m) && QueuesOk(s) && ExecutionOk(s) && WakersOk(s) && BlockedOk(s)
    ensures Step(s, p, m).Sized() && QueuesOk(Step(s, p, m))
  {
    hide QueuesOk, WakersOk, ExecutionOk, BlockedOk;
    if !TouchesQueue(s, p, m) {
      QuietStep(s, p, m);
      QuietQueues(s, Step(s, p, m), p);
    } else if s.pc[p].Prepare? {
      PrepareQueues(s, p, m);
    } else if s.pc[p].WakePop? {
      PopQueues(s, p, m);
    } else if s.pc[p].WakeCas? {
      CasQueues(s, p, m);
    } else {
      ClearQueues(s, p, m);
    }
  }

  lemma KeepWakers(s: System, p: nat, m: Move)
    requires CanStep(s, p, m) && WakersOk(s) && LocksOk(s) && QueuesOk(s)
    ensures Step(s, p, m).Sized() && WakersOk(Step(s, p, m))
  {
    KeepSized(s, p, m);
    var s' := Step(s, p, m);
    hide Step, CanStep, LocksOk, QueuesOk, WakerOk;
    forall q: nat | q < |s.pc| ensures WakerOk(s', q) {
      if q == p {
        if Wakes(s'.pc[p]) { OwnWaker(s, p, m); } else { NotWaking(s', p); }
      } else {
        assert WakerOk(s, q);
        if Wakes(s.pc[q]) { OtherWaker(s, p, m, q); } else { NotWaking(s', q); }
      }
    }
  }

  predicate Wakes(pc: Pc) { pc.WakeCas? || pc.WakeEnq? }

  lemma NotWaking(s: System, q: nat)
    requires s.Sized() && q < |s.pc| && !Wakes(s.pc[q])
    ensures WakerOk(s, q)
  {
  }

  lemma PopWaker(s: System, p: nat, m: Move)
    requires CanStep(s, p, m) && QueuesOk(s) && m.On? && s.pc[p].WakePop? && s.cond[s.pc[p].w].queue != []
    ensures var s', w := Step(s, p, m), s.pc[p].w;
            var x := s.cond[w].queue[0];
            s'.pc[p] == WakeCas(w, s.pc[p].held, x) && Waits(s, w, x) && x !in s'.cond[w].queue &&
                s'.blocked == s.blocked
  {
    var w := s.pc[p].w;
    assert QueueOk(s, w) && s.cond[w].queue[0] in s.cond[w].queue;
  }

  lemma CasWaker(s: System, p: nat, m: Move)
    requires CanStep(s, p, m) && WakersOk(s) && m.On? && s.pc[p].WakeCas?
    ensures var s', x := Step(s, p, m), s.pc[p].x;
            && s'.pc[p] == WakeEnq(s.pc[p].w, s.pc[p].held, x) && s'.cond == s.cond && x < |s.blocked|
            && s'.blocked == s.blocked[x := false]
  {
    assert WakerOk(s, p);
  }

  lemma BecomesWaker(s: System, p: nat, m: Move)
    requires CanStep(s, p, m) && SameSize(s, Step(s, p, m)) &&
             (Step(s, p, m).pc[p].WakeCas? || Step(s, p, m).pc[p].WakeEnq?)
    ensures m.On? && ((s.pc[p].WakePop? && s.cond[s.pc[p].w].queue != []) || s.pc[p].WakeCas?)
  {
    if m.On? && s.pc[p].Waiter() {
      NoWaker(s, p, m.choice);
      hide WaiterStep, WakerStep;
    }
  }

  lemma NoWaker(s: System, p: nat, choice: bool)
    requires CanStep(s, p, On(choice)) && s.pc[p].Waiter() && SameSize(s, WaiterStep(s, p, choice))
    ensures !WaiterStep(s, p, choice).pc[p].HasQueueLock()
  {
  }

  lemma OwnWaker(s: System, p: nat, m: Move)
    requires CanStep(s, p, m) && WakersOk(s) && QueuesOk(s) && Step(s, p, m).Sized() && SameSize(s, Step(s, p, m))
    requires Step(s, p, m).pc == s.pc[p := Step(s, p, m).pc[p]]
    requires Step(s, p, m).pc[p].WakeCas? || Step(s, p, m).pc[p].WakeEnq?
    ensures WakerOk(Step(s, p, m), p)
  {
    BecomesWaker(s, p, m);
    assert WakerOk(s, p);
    if s.pc[p].WakePop? { PopWaker(s, p, m); } else { CasWaker(s, p, m); }
    hide Step, CanStep, QueuesOk;
  }

  /** Another process's step leaves what `q` is waking alone: it would need the queue lock that `q` holds. */
  lemma OtherWaker(s: System, p: nat, m: Move, q: nat)
    requires CanStep(s, p, m) && WakersOk(s) && LocksOk(s) && Step(s, p, m).Sized() && SameSize(s, Step(s, p, m))
    requires q < |s.pc| && q != p && Wakes(s.pc[q]) && Step(s, p, m).pc[q] == s.pc[q]
    ensures WakerOk(Step(s, p, m), q)
  {
    var x, w := s.pc[q].x, s.pc[q].w;
    assert WakerOk(s, q) && WakerOk(s, p);
    assert LockAt(s, w, q) && (s.pc[p].User? || LockAt(s, s.pc[p].w, p));
    QueueLockKept(s, p, m, w, q);
    KeepSized(s, p, m);
    BlockedChanges(s, p, m);
    hide Step, CanStep;
    assert !(s.pc[p].WakeCas? && s.pc[p].x == x);
  }

  lemma WaiterBlocks(s: System, p: nat, choice: bool)
    requires CanStep(s, p, On(choice)) && s.pc[p].Waiter()
    ensures var s' := WaiterStep(s, p, choice);
            && SameSize(s, s')
            && (forall x: nat :: x < |s.pc| && x != p && s'.blocked[x] != s.blocked[x] ==>
                  s.blocked[x] && s.pc[p].WakeCas? && s.pc[p].x == x && s'.pc[p] == WakeEnq(s.pc[p].w, s.pc[p].held, x))
            && (s'.blocked[p] && !s.blocked[p] ==> s.pc[p].Prepare?)
            && (!s'.blocked[p] && s.blocked[p] ==>
                 s.pc[p].ClearAgain? || s.pc[p].ClearDone? || (s.pc[p].WakeCas? && s.pc[p].x == p))
  {
  }

  lemma WakerBlocks(s: System, p: nat, choice: bool)
    requires CanStep(s, p, On(choice)) && !s.pc[p].Waiter()
    ensures var s' := WakerStep(s, p, choice);
            && SameSize(s, s')
            && (forall x: nat :: x < |s.pc| && x != p && s'.blocked[x] != s.blocked[x] ==>
                  s.blocked[x] && s.pc[p].WakeCas? && s.pc[p].x == x && s'.pc[p] == WakeEnq(s.pc[p].w, s.pc[p].held, x))
            && (s'.blocked[p] && !s.blocked[p] ==> s.pc[p].Prepare?)
            && (!s'.blocked[p] && s.blocked[p] ==>
                 s.pc[p].ClearAgain? || s.pc[p].ClearDone? || (s.pc[p].WakeCas? && s.pc[p].x == p))
  {
    if s.pc[p].WakeEnq? && s.pc[p].x < s.n { EnqueueFacts(s, s.pc[p].x); }
    hide Enqueue, Without;
  }

  /** A step blocks or unblocks at most its own process and the one it is waking. */
  lemma BlockedChanges(s: System, p: nat, m: Move)
    requires CanStep(s, p, m) && SameSize(s, Step(s, p, m))
    ensures forall x: nat :: x < |s.pc| && x != p && Step(s, p, m).blocked[x] != s.blocked[x] ==>
              s.blocked[x] && m.On? && s.pc[p].WakeCas? && s.pc[p].x == x &&
                  Step(s, p, m).pc[p] == WakeEnq(s.pc[p].w, s.pc[p].held, x)
    ensures Step(s, p, m).blocked[p] && !s.blocked[p] ==> m.On? && s.pc[p].Prepare?
    ensures !Step(s, p, m).blocked[p] && s.blocked[p] ==>
            m.On? && (s.pc[p].ClearAgain? || s.pc[p].ClearDone? || (s.pc[p].WakeCas? && s.pc[p].x == p))
  {
    if m.On? {
      if s.pc[p].Waiter() { WaiterBlocks(s, p, m.choice); } else { WakerBlocks(s, p, m.choice); }
      hide WaiterStep, WakerStep;
    }
  }

  /** A process stays on its wait queue, or is taken off by the one that will wake it. */
  lemma StaysQueued(s: System, p: nat, m: Move, x: nat)
    requires CanStep(s, p, m) && SameSize(s, Step(s, p, m)) && LocksOk(s) && WakersOk(s)
    requires x < |s.pc| && s.blocked[x] && BlockedAt(s, x) && s.pc[x].w < |s.cond|
    requires Step(s, p, m).blocked[x]
    ensures var s', w := Step(s, p, m), s.pc[x].w; x in s'.cond[w].queue || WakerAt(s', w, x, false)
  {
    assert WakerOk(s, p);
    var w := s.pc[x].w;
    assert LockAt(s, w, p);
    if x in s.cond[w].queue {
      LeavesQueue(s, p, m, w, x);
    } else {
      var q := s.cond[w].qlock.value;
      KeepSized(s, p, m);
      assert s.pc[p].User? || LockAt(s, s.pc[p].w, p);
      if q != p { QueueLockKept(s, p, m, w, q); } else { CasUnblocks(s, p, m); }
    }
    hide Step, CanStep, LocksOk, WakersOk;
  }

  lemma CasUnblocks(s: System, p: nat, m: Move)
    requires CanStep(s, p, m) && SameSize(s, Step(s, p, m)) && s.pc[p].WakeCas? && s.pc[p].x < |s.blocked|
    ensures !Step(s, p, m).blocked[s.pc[p].x]
  {
    hide WaiterStep;
  }

  lemma WaiterLeavesQueue(s: System, p: nat, choice: bool, w: nat, x: nat)
    requires CanStep(s, p, On(choice)) && s.pc[p].Waiter() && w < |s.cond| && x in s.cond[w].queue && LockAt(s, w, p)
    requires x < |s.blocked|
    ensures var s' := WaiterStep(s, p, choice);
            SameSize(s, s') && (s'.blocked[x] ==> x in s'.cond[w].queue || WakerAt(s', w, x, false))
  {
  }

  lemma WakerLeavesQueue(s: System, p: nat, choice: bool, w: nat, x: nat)
    requires CanStep(s, p, On(choice)) && !s.pc[p].Waiter() && w < |s.cond| && x in s.cond[w].queue && LockAt(s, w, p)
    requires x < |s.blocked|
    ensures var s' := WakerStep(s, p, choice);
            SameSize(s, s') && (s'.blocked[x] ==> x in s'.cond[w].queue || WakerAt(s', w, x, false))
  {
    if s.pc[p].WakeEnq? && s.pc[p].x < s.n { EnqueueFacts(s, s.pc[p].x); }
    hide Enqueue, Without;
  }

  lemma LeavesQueue(s: System, p: nat, m: Move, w: nat, x: nat)
    requires CanStep(s, p, m) && SameSize(s, Step(s, p, m)) && w < |s.cond| && x in s.cond[w].queue && LockAt(s, w, p)
    requires x < |s.blocked| && Step(s, p, m).blocked[x]
    ensures x in Step(s, p, m).cond[w].queue || WakerAt(Step(s, p, m), w, x, false)
  {
    if m.On? {
      if s.pc[p].Waiter() { WaiterLeavesQueue(s, p, m.choice, w, x); } else { WakerLeavesQueue(s, p, m.choice, w, x); }
      hide WaiterStep, WakerStep, LockAt, WakerAt;
    }
  }

  lemma KeepBlocked(s: System, p: nat, m: Move)
    requires CanStep(s, p, m) && WakersOk(s) && LocksOk(s) && BlockedOk(s)
    ensures Step(s, p, m).Sized() && BlockedOk(Step(s, p, m))
  {
    KeepSized(s, p, m);
    BlockedChanges(s, p, m);
    if s.pc[p].Queueing() { QueueingKept(s, p, m); }
    var s' := Step(s, p, m);
    forall x: nat | x < |s.pc| ensures BlockedAt(s', x) {
      if s'.blocked[x] {
        assert BlockedAt(s, x);
        if s.blocked[x] { StaysQueued(s, p, m, x); } else { NewlyQueued(s, p, m); }
      }
    }
  }

  lemma NewlyQueued(s: System, p: nat, m: Move)
    requires CanStep(s, p, m) && SameSize(s, Step(s, p, m)) && m.On? && s.pc[p].Prepare?
    ensures Step(s, p, m).pc[p] == Pred(s.pc[p].w) && p in Step(s, p, m).cond[s.pc[p].w].queue
  {
  }

  /** Only `clear` ends the time on the wait. */
  lemma QueueingKept(s: System, p: nat, m: Move)
    requires CanStep(s, p, m) && SameSize(s, Step(s, p, m)) && s.pc[p].Queueing()
    ensures Step(s, p, m).blocked[p] ==> Step(s, p, m).pc[p].Queueing() && Step(s, p, m).pc[p].w == s.pc[p].w
  {
  }

  // ----- Nobody lost, nobody missed -----

  lemma StaysPlaced(s: System, p: nat, m: Move, x: nat)
    requires CanStep(s, p, m) && SameSize(s, Step(s, p, m)) && LocksOk(s) && WakersOk(s)
    requires x < s.n && Placed(s, x) && !s.blocked[x] && (x == p || Step(s, p, m).pc[x] == s.pc[x])
    ensures Placed(Step(s, p, m), x)
  {
    assert WakerOk(s, p);
    var s' := Step(s, p, m);
    SameHome(s, s', x);
    CpusOfStep(s, p, m);
    KeepSized(s, p, m);
    if s.pc[x].Queueing() && WakerAt(s, s.pc[x].w, x, true) {
      var w := s.pc[x].w;
      var q := s.cond[w].qlock.value;
      assert LockAt(s, w, p) && (s.pc[p].User? || LockAt(s, s.pc[p].w, p));
      if q != p { QueueLockKept(s, p, m, w, q); }
    }
    hide Step, CanStep, LocksOk, WakersOk;
  }

  lemma NewlyPlaced(s: System, p: nat, m: Move, x: nat)
    requires CanStep(s, p, m) && SameSize(s, Step(s, p, m)) && LocksOk(s) && WakersOk(s)
    requires x < s.n && s.blocked[x] && !Step(s, p, m).blocked[x]
    ensures Placed(Step(s, p, m), x)
  {
    assert WakerOk(s, p);
    var s' := Step(s, p, m);
    SameHome(s, s', x);
    BlockedChanges(s, p, m);
    CpusOfStep(s, p, m);
    KeepSized(s, p, m);
    if x != p {
      var w := s.pc[p].w;
      assert LockAt(s, w, p);
      QueueLockStays(s, p, m);
    }
    hide LocksOk, WakersOk;
  }

  lemma QueueLockStays(s: System, p: nat, m: Move)
    requires CanStep(s, p, m) && SameSize(s, Step(s, p, m)) && m.On? && s.pc[p].WakeCas?
    ensures Step(s, p, m).cond == s.cond
  {
  }

  lemma KeepRunnable(s: System, p: nat, m: Move)
    requires CanStep(s, p, m) && WakersOk(s) && LocksOk(s) && RunnableOk(s)
    ensures Step(s, p, m).Sized() && RunnableOk(Step(s, p, m))
  {
    KeepSized(s, p, m);
    var s' := Step(s, p, m);
    hide Step, CanStep, LocksOk, WakersOk, Placed;
    forall x: nat | x < s.n && !s'.blocked[x] ensures Placed(s', x) {
      if s.blocked[x] { NewlyPlaced(s, p, m, x); } else { StaysPlaced(s, p, m, x); }
    }
  }

  /** A waker stays one until the queue is empty and it gives up the queue lock. */
  lemma StillWaking(s: System, p: nat, m: Move, w: nat)
    requires CanStep(s, p, m) && SameSize(s, Step(s, p, m)) && s.pc[p].WillWake(w) && w < |s.cond|
    ensures Step(s, p, m).pc[p].WillWake(w) || (m.On? && s.pc[p] == WakePop(w, s.pc[p].held) && s.cond[w].queue == [])
  {
  }

  lemma WaiterReady(s: System, p: nat, choice: bool, w: nat)
    requires CanStep(s, p, On(choice)) && s.pc[p].Waiter() && w < |s.cond|
    ensures var s' := WaiterStep(s, p, choice);
            SameSize(s, s') && (s'.cond[w].ready ==> s.cond[w].ready || s'.pc[p].WillWake(w))
  {
  }

  lemma WakerReady(s: System, p: nat, choice: bool, w: nat)
    requires CanStep(s, p, On(choice)) && !s.pc[p].Waiter() && w < |s.cond|
    ensures var s' := WakerStep(s, p, choice);
            SameSize(s, s') && (s'.cond[w].ready ==> s.cond[w].ready || s'.pc[p].WillWake(w))
  {
    if s.pc[p].WakeEnq? && s.pc[p].x < s.n { EnqueueFacts(s, s.pc[p].x); }
    hide Enqueue, Without;
  }

  /** Whoever makes a condition true then wakes its waiters. */
  lemma NewlyReady(s: System, p: nat, m: Move, w: nat)
    requires CanStep(s, p, m) && SameSize(s, Step(s, p, m)) && w < |s.cond|
    requires !s.cond[w].ready && Step(s, p, m).cond[w].ready
    ensures Step(s, p, m).pc[p].WillWake(w)
  {
    if m.On? {
      if s.pc[p].Waiter() { WaiterReady(s, p, m.choice, w); } else { WakerReady(s, p, m.choice, w); }
      hide WaiterStep, WakerStep;
    }
  }

  /** The step of another process leaves a sleeper with a false condition or a waker. */
  lemma StillNotMissed(s: System, p: nat, m: Move, x: nat)
    requires CanStep(s, p, m) && LocksOk(s) && BlockedOk(s) && NoneMissed(s)
    requires x < |s.pc| && x != p && s.blocked[x] && s.pc[x].Resolved()
    ensures Step(s, p, m).Sized() && SameSize(s, Step(s, p, m))
    ensures !Step(s, p, m).cond[s.pc[x].w].ready || WakeDue(Step(s, p, m), s.pc[x].w)
  {
    KeepSized(s, p, m);
    var s', w := Step(s, p, m), s.pc[x].w;
    if s.cond[w].ready {
      var q: nat :| q < |s.pc| && s.pc[q].WillWake(w);
      assert BlockedAt(s, x) && LockAt(s, w, p);
      if q == p { StillWaking(s, p, m, w); }
      hide Step, CanStep;
      assert s'.pc[q].WillWake(w);
    } else if s'.cond[w].ready {
      NewlyReady(s, p, m, w);
    }
  }

  /** A process means to sleep after finding its condition false, and does not itself change the condition. */
  lemma OwnResolved(s: System, p: nat, m: Move)
    requires CanStep(s, p, m) && SameSize(s, Step(s, p, m))
    requires Step(s, p, m).pc[p].Resolved() && Step(s, p, m).blocked[p]
    ensures s.pc[p].Queueing() && Step(s, p, m).pc[p].w == s.pc[p].w && s.pc[p].w < |s.cond|
    ensures Step(s, p, m).cond[s.pc[p].w].ready == s.cond[s.pc[p].w].ready && s.blocked[p]
    ensures s.pc[p].Resolved() || !s.cond[s.pc[p].w].ready
  {
    if m.On? && !s.pc[p].Waiter() {
      WakerNotResolved(s, p, m.choice);
      hide WakerStep;
    } else if m.On? {
      hide WakerStep;
    } else {
      hide Advance;
    }
  }

  lemma WakerNotResolved(s: System, p: nat, choice: bool)
    requires CanStep(s, p, On(choice)) && !s.pc[p].Waiter() && SameSize(s, WakerStep(s, p, choice))
    ensures !WakerStep(s, p, choice).pc[p].Resolved()
  {
  }

  lemma OwnNotMissed(s: System, p: nat, m: Move)
    requires CanStep(s, p, m) && NoneMissed(s) && Step(s, p, m).Sized() && SameSize(s, Step(s, p, m))
    requires Step(s, p, m).blocked[p] && Step(s, p, m).pc[p].Resolved()
    requires forall q: nat :: q < |s.pc| && q != p ==> Step(s, p, m).pc[q] == s.pc[q]
    ensures !Step(s, p, m).cond[Step(s, p, m).pc[p].w].ready || WakeDue(Step(s, p, m), Step(s, p, m).pc[p].w)
  {
    var s' := Step(s, p, m);
    OwnResolved(s, p, m);
    hide Step, CanStep;
    if s.pc[p].Resolved() && s.cond[s.pc[p].w].ready {
      var w := s.pc[p].w;
      assert s.blocked[p];
      var q: nat :| q < |s.pc| && s.pc[q].WillWake(w);
      assert q != p && s'.pc[q].WillWake(w);
    }
  }

  lemma KeepNoneMissed(s: System, p: nat, m: Move)
    requires CanStep(s, p, m) && LocksOk(s) && BlockedOk(s) && NoneMissed(s)
    ensures Step(s, p, m).Sized() && NoneMissed(Step(s, p, m))
  {
    KeepSized(s, p, m);
    var s' := Step(s, p, m);
    forall x: nat | x < |s'.pc| && s'.blocked[x] && s'.pc[x].Resolved()
      ensures !s'.cond[s'.pc[x].w].ready || WakeDue(s', s'.pc[x].w)
    {
      if x == p { OwnNotMissed(s, p, m); } else { NotNewlyBlocked(s, p, m, x); StillNotMissed(s, p, m, x); }
    }
  }

  lemma NotNewlyBlocked(s: System, p: nat, m: Move, x: nat)
    requires CanStep(s, p, m) && x < |s.blocked| && x != p && |Step(s, p, m).blocked| == |s.blocked|
    requires Step(s, p, m).blocked[x]
    ensures s.blocked[x]
  {
  }

  // ----- CPUs -----

  /** The CPUs are as before, and only the executing process may have become blocked. */
  lemma SameCpus(s: System, s': System, p: nat)
    requires s.Sized() && s'.Sized() && SameSize(s, s') && CpusOk(s) && s'.cpu == s.cpu && p < |s.pc| && s.Executing(p)
    requires forall x: nat :: x < |s.pc| && x != p && s'.blocked[x] ==> s.blocked[x]
    ensures CpusOk(s')
  {
    forall c: nat | c < |s.cpu| ensures CpuOk(s', c) {
      assert CpuOk(s, c) && CpuOk(s, s.Home(p));
      assert forall x: nat :: x < |s.pc| ==> s'.Home(x) == s.Home(x);
    }
  }

  lemma EnteredCpus(s: System, s': System, p: nat)
    requires s.Sized() && s'.Sized() && SameSize(s, s') && CpusOk(s) && p < |s.pc| && s'.blocked == s.blocked
    requires s'.cpu == Enter(s, p).cpu
    ensures CpusOk(s')
  {
    forall c: nat | c < |s.cpu| ensures CpuOk(s', c) {
      assert CpuOk(s, c);
      assert forall x: nat :: x < |s.pc| ==> s'.Home(x) == s.Home(x);
    }
  }

  lemma EnqueuedCpus(s: System, s': System, x: nat)
    requires s.Sized() && s'.Sized() && SameSize(s, s') && CpusOk(s) && x < |s.pc| && s'.blocked == s.blocked
    requires !s.blocked[x]
    requires s'.cpu == Enqueue(s, x).cpu
    ensures CpusOk(s')
  {
    forall c: nat | c < |s.cpu| ensures CpuOk(s', c) {
      assert CpuOk(s, c);
      assert forall y: nat :: y < |s.pc| ==> s'.Home(y) == s.Home(y);
    }
  }

  lemma CpusOfStep(s: System, p: nat, m: Move)
    requires CanStep(s, p, m) && WakersOk(s)
    ensures var s' := Step(s, p, m);
            if m.Preempt? || (m.On? && s.pc[p].Yield?) then s'.cpu == Enter(s, p).cpu && s'.blocked == s.blocked
            else if m.On? && s.pc[p].WakeEnq? then s.pc[p].x < s.n && s'.cpu == Enqueue(s, s.pc[p].x).cpu &&
                s'.blocked == s.blocked
            else s'.cpu == s.cpu
  {
    assert WakerOk(s, p);
  }

  lemma KeepCpus(s: System, p: nat, m: Move)
    requires CanStep(s, p, m) && WakersOk(s) && CpusOk(s)
    ensures Step(s, p, m).Sized() && CpusOk(Step(s, p, m))
  {
    assert WakerOk(s, p);
    KeepSized(s, p, m);
    CpusOfStep(s, p, m);
    var s' := Step(s, p, m);
    forall x: nat | x < |s.pc| && x != p && s'.blocked[x] ensures s.blocked[x] { NotNewlyBlocked(s, p, m, x); }
    assert m.On? && s.pc[p].WakeEnq? ==> !s.blocked[s.pc[p].x];
    hide Step, CpusOk, WakersOk;
    if m.Preempt? || (m.On? && s.pc[p].Yield?) {
      EnteredCpus(s, s', p);
    } else if m.On? && s.pc[p].WakeEnq? {
      EnqueuedCpus(s, s', s.pc[p].x);
    } else {
      SameCpus(s, s', p);
    }
  }

  lemma KeepStep(s: System, p: nat, m: Move)
    requires Inv(s) && CanStep(s, p, m)
    ensures Inv(Step(s, p, m))
  {
    assert s.Sized() && LocksOk(s) && ExecutionOk(s) && CpusOk(s) && WakersOk(s) && QueuesOk(s) && BlockedOk(s) &&
        RunnableOk(s) && NoneMissed(s);
    hide *;
    KeepSized(s, p, m);
    KeepLocks(s, p, m);
    KeepExecution(s, p, m);
    KeepCpus(s, p, m);
    KeepWakers(s, p, m);
    KeepQueues(s, p, m);
    KeepBlocked(s, p, m);
    KeepRunnable(s, p, m);
    KeepNoneMissed(s, p, m);
    Gather(Step(s, p, m));
  }

  lemma Gather(s: System)
    requires s.Sized() && LocksOk(s) && ExecutionOk(s) && CpusOk(s)
    requires WakersOk(s) && QueuesOk(s) && BlockedOk(s) && RunnableOk(s) && NoneMissed(s)
    ensures Inv(s)
  {
  }
}
