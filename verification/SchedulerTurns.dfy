/** Giving way: every turn on a run queue comes. */
module SchedulerTurns {
  import opened Scheduler
  import opened SchedulerSteps
  import opened SchedulerRuns
  import opened SchedulerFairness
  import opened Util

  /** Process `p` yields, or is preempted. */
  predicate GivesUp(s: System, p: nat, m: Move)
    requires p < |s.pc|
  {
    m.Preempt? || (m.On? && s.pc[p].Yield?)
  }

  /** Process `p` has given up CPU `c`, and `x`, with `rest` behind it, was at the front of the run queue: until the CPU
      runs, `x` is the next to be current, or is current already. */
  ghost predicate GivingWay(s: System, c: nat, p: nat, x: nat, rest: seq<nat>) {
    && c < |s.cpu| && |s.cpu| > 0 && x < |s.blocked| && x < s.n + |s.cpu| && s.Home(x) == c && !s.blocked[x]
    && var u := s.cpu[c];
       if u.current == Some(p) then
         (u.mode == Pick || (u.mode == Check && u.yielding)) && [x] + rest <= u.runq
       else
         u.current == Some(x) && (u.mode == Run || (u.mode == Check && !u.yielding)) && rest <= u.runq
  }

  lemma StartsGivingWay(s: System, p: nat, m: Move)
    requires Inv(s) && CanStep(s, p, m) && GivesUp(s, p, m) && s.cpu[s.Home(p)].runq != []
    ensures var q := s.cpu[s.Home(p)].runq; GivingWay(Step(s, p, m), s.Home(p), p, q[0], q[1..])
  {
    var c, q := s.Home(p), s.cpu[s.Home(p)].runq;
    assert CpuOk(s, c) && q[0] in q;
    assert [q[0]] + q[1..] == q;
    hide Inv, WakerStep;
  }

  lemma ScheduleGivesWay(s: System, c: nat, d: nat, p: nat, x: nat, rest: seq<nat>)
    requires Inv(s) && GivingWay(s, c, p, x, rest) && p != x && s.cpu[c].mode != Run && d < |s.cpu|
    ensures GivingWay(Schedule(s, d), c, p, x, rest)
  {
    ScheduleChanges(s, d);
    hide Inv;
  }

  lemma StepGivesWay(s: System, c: nat, q: nat, m: Move, p: nat, x: nat, rest: seq<nat>)
    requires Inv(s) && GivingWay(s, c, p, x, rest) && p != x && s.cpu[c].mode != Run && CanStep(s, q, m)
    ensures GivingWay(Step(s, q, m), c, p, x, rest)
  {
    KeepSized(s, q, m);
    CpusOfStep(s, q, m);
    BlockedChanges(s, q, m);
    SameHome(s, Step(s, q, m), x);
    hide Inv, Step;
  }

  // ----- In any run -----

  predicate Scheduling(s: System, c: nat) { c < |s.cpu| && s.cpu[c].mode != Run }

  lemma NextGivesWay(s: System, s': System, c: nat, p: nat, x: nat, rest: seq<nat>)
    requires Inv(s) && Next(s, s') && GivingWay(s, c, p, x, rest) && p != x && s.cpu[c].mode != Run
    ensures GivingWay(s', c, p, x, rest)
  {
    if d: nat :| s.Sized() && d < |s.cpu| && s' == Schedule(s, d) {
      ScheduleGivesWay(s, c, d, p, x, rest);
    } else {
      var q: nat, m: Move :| CanStep(s, q, m) && s' == Step(s, q, m);
      StepGivesWay(s, c, q, m, p, x, rest);
    }
  }

  lemma {:induction false} GivesWayAt(run: seq<System>, i: nat, j: nat, c: nat, p: nat, x: nat, rest: seq<nat>)
    requires IsRun(run) && Start(run[0]) && i <= j < |run| && GivingWay(run[i], c, p, x, rest) && p != x
    requires forall l :: i <= l < j ==> Scheduling(run[l], c)
    ensures GivingWay(run[j], c, p, x, rest)
    decreases j
  {
    hide GivingWay, Inv, IsRun, Start, Scheduling;
    if i < j {
      GivesWayAt(run, i, j - 1, c, p, x, rest);
      RunKeeps(run, j - 1);
      RunStep(run, j - 1, c);
      NextGivesWay(run[j - 1], run[j], c, p, x, rest);
    }
  }

  lemma RunStep(run: seq<System>, i: nat, c: nat)
    requires IsRun(run) && i < |run| - 1 && Scheduling(run[i], c)
    ensures Next(run[i], run[i + 1]) && c < |run[i].cpu| && run[i].cpu[c].mode != Run
  {
  }

  /** A process that yields or is preempted while its CPU has others to run gives way: when the CPU next runs, it runs
      the process that was at the front. Those behind that one have moved up, and the process that gave way, if it is
      runnable, stands behind them, unless a waker is about to put it there. */
  lemma YieldGivesWay(run: seq<System>, i: nat, j: nat, p: nat, m: Move)
    requires IsRun(run) && Start(run[0]) && i < j < |run| && CanStep(run[i], p, m) && GivesUp(run[i], p, m)
    requires run[i + 1] == Step(run[i], p, m) && run[i].cpu[run[i].Home(p)].runq != []
    requires forall l :: i < l < j ==> Scheduling(run[l], run[i].Home(p))
    requires run[i].Home(p) < |run[j].cpu| && run[j].cpu[run[i].Home(p)].mode == Run
    ensures var q, u := run[i].cpu[run[i].Home(p)].runq, run[j].cpu[run[i].Home(p)];
            && u.current == Some(q[0]) && q[0] != p && q[1..] <= u.runq
            && run[j].Sized() && Behind(run[j], run[i].Home(p), p, |q| - 1)
  {
    hide GivingWay, Start, Next, Step, Inv, IsRun, Scheduling;
    var s, c := run[i], run[i].Home(p);
    var q := s.cpu[c].runq;
    RunKeeps(run, i);
    StartsGivingWay(s, p, m);
    NotQueued(s, p);
    assert |s.cpu| > 0 by { SomeCpus(s); }
    GivesWayAt(run, i + 1, j, c, p, q[0], q[1..]);
    RunKeeps(run, j);
    LastInLine(run[i], run[j], c, p, q);
  }

  lemma SomeCpus(s: System)
    requires Inv(s)
    ensures |s.cpu| > 0
  {
  }

  lemma NotQueued(s: System, p: nat)
    requires Inv(s) && p < |s.pc| && s.Executing(p)
    ensures p !in s.cpu[s.Home(p)].runq
  {
    assert CpuOk(s, s.Home(p));
  }

  /** If it is runnable, `p` stands on the run queue behind its first `n` processes, or is about to be put there. */
  predicate Behind(s: System, c: nat, p: nat, n: nat)
    requires c < |s.cpu| && n <= |s.cpu[c].runq| && s.n <= |s.pc| == |s.blocked|
  {
    p < s.n && !s.blocked[p] ==>
      p in s.cpu[c].runq[n..] || (s.pc[p].Queueing() && WakerAt(s, s.pc[p].w, p, true))
  }

  lemma LastInLine(s0: System, s: System, c: nat, p: nat, q: seq<nat>)
    requires Inv(s) && q != [] && p !in q && GivingWay(s, c, p, q[0], q[1..]) && s.cpu[c].mode == Run
    requires s0.n == s.n && |s0.cpu| == |s.cpu| > 0 && (p < s.n ==> s0.Home(p) == c)
    ensures s.cpu[c].current == Some(q[0]) && q[1..] <= s.cpu[c].runq && s.Sized() && Behind(s, c, p, |q| - 1)
  {
    var r := s.cpu[c].runq;
    assert p < s.n && !s.blocked[p] ==> Placed(s, p);
    if p in r { InTail(r, |q| - 1, p); }
    hide Inv;
  }

  lemma InTail(r: seq<nat>, n: nat, p: nat)
    requires n <= |r| && p in r && p !in r[..n]
    ensures p in r[n..]
  {
    assert r == r[..n] + r[n..];
  }

  // ----- In runs with a timer -----

  ghost predicate TurnSoon(act: nat -> Action, c: nat, i: nat) {
    exists k: nat :: k >= i && act(k) == Turn(c)
  }

  /** Whatever runs on CPU `c` gives it up at step `k`. */
  predicate GivenUp(s: System, a: Action, c: nat) {
    a.Does? && |s.cpu| > 0 && a.p < |s.pc| && a.p < s.n + |s.cpu| && s.Home(a.p) == c && GivesUp(s, a.p, a.m)
  }

  ghost predicate GivenUpSoon(run: nat -> System, act: nat -> Action, c: nat, i: nat) {
    exists k: nat :: k >= i && GivenUp(run(k), act(k), c)
  }

  /** The scheduler of CPU `c` goes on, and what it runs is preempted, or yields, again and again. */
  ghost predicate TimedRun(run: nat -> System, act: nat -> Action, c: nat) {
    && (forall i: nat :: StepAt(run, act, i))
    && (forall i: nat :: TurnSoon(act, c, i) || (c < |run(i).cpu| && run(i).cpu[c].mode == Run))
    && (forall i: nat :: GivenUpSoon(run, act, c, i))
  }

  lemma TimedNext(run: nat -> System, act: nat -> Action, c: nat, i: nat)
    requires TimedRun(run, act, c) && Inv(run(i))
    ensures Next(run(i), run(i + 1)) && Inv(run(i + 1)) && SameSize(run(i), run(i + 1))
  {
    assert StepAt(run, act, i);
    if act(i).Does? { KeepSized(run(i), act(i).p, act(i).m); } else { ScheduleChanges(run(i), act(i).c); }
    assert Next(run(i), run(i + 1));
    hide Inv, Step, Schedule;
    NextKeeps(run(i), run(i + 1));
  }

  /** Turns of the scheduler's loop until the CPU runs. */
  function Left(u: Cpu, p: nat): nat {
    if u.mode == Run then 0 else if u.current == Some(p) then (if u.mode == Pick then 2 else 3) else 1
  }

  lemma GoesOn(run: nat -> System, act: nat -> Action, i: nat, c: nat, p: nat, x: nat, rest: seq<nat>)
    requires TimedRun(run, act, c) && Inv(run(i)) && GivingWay(run(i), c, p, x, rest) && p != x
    requires run(i).cpu[c].mode != Run
    ensures Inv(run(i + 1)) && GivingWay(run(i + 1), c, p, x, rest)
    ensures if act(i) == Turn(c) then Left(run(i + 1).cpu[c], p) < Left(run(i).cpu[c], p)
            else Left(run(i + 1).cpu[c], p) == Left(run(i).cpu[c], p)
  {
    TimedNext(run, act, c, i);
    NextGivesWay(run(i), run(i + 1), c, p, x, rest);
    assert StepAt(run, act, i);
    if act(i).Does? {
      CpusOfStep(run(i), act(i).p, act(i).m);
      hide Inv, Step, GivingWay;
    } else {
      hide Inv;
    }
  }

  lemma {:induction false} UntilTurn(run: nat -> System, act: nat -> Action, i: nat, k: nat, c: nat, p: nat, x: nat,
      rest: seq<nat>)
    requires TimedRun(run, act, c) && Inv(run(i)) && GivingWay(run(i), c, p, x, rest) && p != x
    requires run(i).cpu[c].mode != Run && i <= k && act(k) == Turn(c)
    ensures exists j: nat :: i <= j && Inv(run(j)) && GivingWay(run(j), c, p, x, rest) &&
              Left(run(j).cpu[c], p) < Left(run(i).cpu[c], p)
    decreases k - i
  {
    GoesOn(run, act, i, c, p, x, rest);
    hide TimedRun, Inv, GivingWay;
    if act(i) == Turn(c) {
      var j: nat := i + 1;
      assert i <= j && Inv(run(j)) && GivingWay(run(j), c, p, x, rest);
    } else {
      UntilTurn(run, act, i + 1, k, c, p, x, rest);
    }
  }

  /** Once its predecessor gives way, a process comes to run. */
  lemma {:induction false} RunsNext(run: nat -> System, act: nat -> Action, i: nat, c: nat, p: nat, x: nat,
      rest: seq<nat>)
    returns (j: nat)
    requires TimedRun(run, act, c) && Inv(run(i)) && GivingWay(run(i), c, p, x, rest) && p != x
    ensures i <= j && Inv(run(j)) && GivingWay(run(j), c, p, x, rest) && run(j).cpu[c].mode == Run
    decreases Left(run(i).cpu[c], p)
  {
    if run(i).cpu[c].mode == Run {
      j := i;
    } else {
      assert TurnSoon(act, c, i);
      var k: nat :| k >= i && act(k) == Turn(c);
      UntilTurn(run, act, i, k, c, p, x, rest);
      var l: nat :| i <= l && Inv(run(l)) && GivingWay(run(l), c, p, x, rest) &&
          Left(run(l).cpu[c], p) < Left(run(i).cpu[c], p);
      hide TimedRun, Inv;
      j := RunsNext(run, act, l, c, p, x, rest);
    }
  }

  predicate QueuedAt(s: System, c: nat, k: nat, y: nat) { c < |s.cpu| && k < |s.cpu[c].runq| && s.cpu[c].runq[k] == y }

  /** A queued process moves up, or is picked. */
  lemma {:induction false} Queues(run: nat -> System, act: nat -> Action, i: nat, l: nat, c: nat, k: nat, y: nat)
    returns (j: nat, k': nat)
    requires TimedRun(run, act, c) && Inv(run(i)) && QueuedAt(run(i), c, k, y) && i <= l
    ensures i <= j && Inv(run(j)) && k' <= k
    ensures (j == l && QueuedAt(run(j), c, k', y)) || GivingWay(run(j), c, y + 1, y, [])
    decreases l - i
  {
    if i == l {
      j, k' := i, k;
    } else {
      TimedNext(run, act, c, i);
      QueueStep(run(i), run(i + 1), c, k);
      if TakesFront(run(i), run(i + 1), c) && k == 0 {
        Picked(run(i), run(i + 1), c, y);
        j, k' := i + 1, 0;
      } else {
        hide Inv, Next, TimedRun, GivingWay;
        j, k' := Queues(run, act, i + 1, l, c, if TakesFront(run(i), run(i + 1), c) then k - 1 else k, y);
      }
    }
  }

  lemma Picked(s: System, s': System, c: nat, y: nat)
    requires Inv(s) && Inv(s') && Next(s, s') && SameSize(s, s') && QueuedAt(s, c, 0, y) && TakesFront(s, s', c)
    ensures GivingWay(s', c, y + 1, y, [])
  {
    QueueStep(s, s', c, 0);
    assert CpuOk(s', c) && CpuOk(s, c) && y in s.cpu[c].runq;
    if d: nat :| s.Sized() && d < |s.cpu| && s' == Schedule(s, d) {
      hide LocksOk, ExecutionOk, WakersOk, QueuesOk, BlockedOk, RunnableOk, NoneMissed;
    } else {
      var p: nat, m: Move :| CanStep(s, p, m) && s' == Step(s, p, m);
      CpusOfStep(s, p, m);
      hide LocksOk, ExecutionOk, WakersOk, QueuesOk, BlockedOk, RunnableOk, NoneMissed, Step;
    }
  }

  lemma WhoIsBehind(s: System, c: nat, p: nat, q: seq<nat>, k: nat)
    requires q != [] && GivingWay(s, c, p, q[0], q[1..]) && s.cpu[c].mode == Run && k + 1 < |q|
    ensures k < |s.cpu[c].runq| && s.cpu[c].runq[k] == q[k + 1]
  {
    assert s.cpu[c].runq[..|q| - 1][k] == q[1..][k];
  }

  lemma WhoRuns(s: System, c: nat, p: nat, x: nat, rest: seq<nat>)
    requires GivingWay(s, c, p, x, rest) && s.cpu[c].mode == Run
    ensures s.cpu[c].current == Some(x)
  {
  }

  /** Each time the CPU is given up, a queued process moves up, or runs if it was at the front. */
  lemma MovesUp(run: nat -> System, act: nat -> Action, l: nat, c: nat, k: nat, y: nat) returns (j: nat)
    requires TimedRun(run, act, c) && Inv(run(l)) && QueuedAt(run(l), c, k, y) && GivenUp(run(l), act(l), c)
    ensures l <= j && Inv(run(j)) && c < |run(j).cpu| && run(j).cpu[c].mode == Run
    ensures if k == 0 then run(j).cpu[c].current == Some(y) else QueuedAt(run(j), c, k - 1, y)
  {
    var p, q := act(l).p, run(l).cpu[c].runq;
    assert StepAt(run, act, l);
    hide Inv, GivingWay, Step;
    NotQueued(run(l), p);
    assert q[0] in q && p != q[0];
    StartsGivingWay(run(l), p, act(l).m);
    TimedNext(run, act, c, l);
    hide TimedRun, StepAt;
    j := RunsNext(run, act, l + 1, c, p, q[0], q[1..]);
    WhoRuns(run(j), c, p, q[0], q[1..]);
    if k > 0 { WhoIsBehind(run(j), c, p, q, k - 1); }
  }

  lemma NextGivenUp(run: nat -> System, act: nat -> Action, c: nat, i: nat) returns (l: nat)
    requires TimedRun(run, act, c)
    ensures l >= i && GivenUp(run(l), act(l), c)
  {
    assert GivenUpSoon(run, act, c, i);
    l :| l >= i && GivenUp(run(l), act(l), c);
  }

  lemma PickedRuns(run: nat -> System, act: nat -> Action, i: nat, c: nat, y: nat) returns (j: nat)
    requires TimedRun(run, act, c) && Inv(run(i)) && GivingWay(run(i), c, y + 1, y, [])
    ensures i <= j && Inv(run(j)) && c < |run(j).cpu|
    ensures run(j).cpu[c].mode == Run && run(j).cpu[c].current == Some(y)
  {
    j := RunsNext(run, act, i, c, y + 1, y, []);
    WhoRuns(run(j), c, y + 1, y, []);
  }

  /** Every turn comes: with a timer, each process on a run queue runs in the end. */
  lemma {:induction false} EveryTurnComes(run: nat -> System, act: nat -> Action, i: nat, c: nat, k: nat)
    returns (j: nat)
    requires TimedRun(run, act, c) && Inv(run(i)) && c < |run(i).cpu| && k < |run(i).cpu[c].runq|
    ensures i <= j && Inv(run(j)) && c < |run(j).cpu|
    ensures run(j).cpu[c].mode == Run && run(j).cpu[c].current == Some(run(i).cpu[c].runq[k])
    decreases k
  {
    hide Inv, GivingWay, TimedRun, GivenUp;
    var y := run(i).cpu[c].runq[k];
    var l := NextGivenUp(run, act, c, i);
    var l', k' := Queues(run, act, i, l, c, k, y);
    if GivingWay(run(l'), c, y + 1, y, []) {
      j := PickedRuns(run, act, l', c, y);
    } else {
      j := MovesUp(run, act, l, c, k', y);
      if k' > 0 {
        j := EveryTurnComes(run, act, j, c, k' - 1);
      }
    }
  }
}
