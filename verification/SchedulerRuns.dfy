/** What holds in every state of every run of processes and schedulers. */
module SchedulerRuns {
  import opened Scheduler
  import opened SchedulerSteps
  import opened Util

  // ----- A step of the scheduler -----

  /** Only CPU `c` differs. */
  ghost predicate OnlyCpu(s: System, s': System, c: nat) {
    && s.Sized() && c < |s.cpu| == |s'.cpu| && s' == s.WithCpu(c, s'.cpu[c])
  }

  lemma ScheduleChanges(s: System, c: nat)
    requires s.Sized() && c < |s.cpu|
    ensures OnlyCpu(s, Schedule(s, c), c)
  {
  }

  lemma OthersKept(s: System, s': System, c: nat)
    requires OnlyCpu(s, s', c) && LocksOk(s) && WakersOk(s) && QueuesOk(s) && BlockedOk(s) && NoneMissed(s)
    ensures s'.Sized() && LocksOk(s') && WakersOk(s') && QueuesOk(s') && BlockedOk(s') && NoneMissed(s')
  {
    forall w: nat, p: nat | w < |s.cond| && p < |s.pc| ensures LockAt(s', w, p) { assert LockAt(s, w, p); }
    forall w: nat | w < |s.cond| ensures QueueOk(s', w) {
      assert QueueOk(s, w);
      forall x | x in s.cond[w].queue ensures Waits(s', w, x) { assert Waits(s, w, x); }
    }
    forall p: nat | p < |s.pc| ensures BlockedAt(s', p) { assert BlockedAt(s, p); }
    forall p: nat | p < |s.pc| ensures WakerOk(s', p) { assert WakerOk(s, p); }
    forall w: nat | WakeDue(s, w) ensures WakeDue(s', w) {
      var q: nat :| q < |s.pc| && s.pc[q].WillWake(w);
      assert s'.pc[q].WillWake(w);
    }
  }

  lemma HomeKept(s: System, s': System, c: nat, p: nat)
    requires OnlyCpu(s, s', c) && p < |s.pc|
    ensures s'.Home(p) == s.Home(p)
  {
  }

  lemma ScheduleExecution(s: System, c: nat)
    requires s.Sized() && c < |s.cpu| && ExecutionOk(s)
    ensures Schedule(s, c).Sized() && ExecutionOk(Schedule(s, c))
  {
    var s' := Schedule(s, c);
    forall p: nat | p < |s.pc| ensures ExecutionAt(s', p) {
      assert ExecutionAt(s, p);
      HomeKept(s, s', c, p);
    }
  }

  /** The run queue with the old current process put back if it is runnable. */
  function Offered(s: System, c: nat): seq<nat>
    requires c < |s.cpu|
  {
    var u := s.cpu[c];
    if u.current.Some? && u.current.value < |s.blocked| &&
        !s.blocked[u.current.value] then u.runq + [u.current.value] else u.runq
  }

  /** One turn of the loop on a run queue: what comes back, and what is taken off the front. */
  lemma SchedulePicks(s: System, c: nat)
    requires s.Sized() && c < |s.cpu| && CpuOk(s, c) && CpusOk(s)
    ensures Schedule(s, c).Sized() && CpuOk(Schedule(s, c), c)
  {
    var s' := Schedule(s, c);
    forall p: nat | p < |s.pc| ensures s'.Home(p) == s.Home(p) { HomeKept(s, s', c, p); }
    assert s.Home(s.n + c) == c;
    if s.cpu[c].mode == Pick {
      OfferedOk(s, c);
      if Offered(s, c) != [] { FrontOff(Offered(s, c)); }
      hide NoDup;
    }
  }

  lemma OfferedOk(s: System, c: nat)
    requires s.Sized() && c < |s.cpu| && CpuOk(s, c)
    ensures NoDup(Offered(s, c)) && forall p :: p in Offered(s, c) ==> p < |s.pc| && s.Home(p) == c && !s.blocked[p]
  {
  }

  lemma FrontOff(q: seq<nat>)
    requires NoDup(q) && q != []
    ensures NoDup(q[1..]) && q[0] !in q[1..] && q[0] in q && forall p :: p in q[1..] ==> p in q
  {
  }

  lemma ScheduleCpus(s: System, c: nat)
    requires s.Sized() && c < |s.cpu| && CpusOk(s)
    ensures Schedule(s, c).Sized() && CpusOk(Schedule(s, c))
  {
    var s' := Schedule(s, c);
    SchedulePicks(s, c);
    forall d: nat | d < |s.cpu| ensures CpuOk(s', d) {
      if d != c {
        assert CpuOk(s, d);
        forall p: nat | p < |s.pc| ensures s'.Home(p) == s.Home(p) { HomeKept(s, s', c, p); }
      }
    }
  }

  lemma SchedulePlaced(s: System, c: nat, p: nat)
    requires s.Sized() && c < |s.cpu| && p < s.n && !s.blocked[p] && Placed(s, p)
    ensures Placed(Schedule(s, c), p)
  {
    HomeKept(s, Schedule(s, c), c, p);
    var q := Offered(s, c);
    assert q != [] ==> q == [q[0]] + q[1..];
    if s.Home(p) == c && (s.cpu[c].current == Some(p) || p in s.cpu[c].runq) { assert p in q; }
  }

  lemma KeepSchedule(s: System, c: nat)
    requires Inv(s) && c < |s.cpu|
    ensures Inv(Schedule(s, c))
  {
    var s' := Schedule(s, c);
    ScheduleChanges(s, c);
    OthersKept(s, s', c);
    ScheduleExecution(s, c);
    ScheduleCpus(s, c);
    forall p: nat | p < s.n && !s'.blocked[p] ensures Placed(s', p) { SchedulePlaced(s, c, p); }
    hide Schedule, LocksOk, WakersOk, QueuesOk, BlockedOk, NoneMissed, ExecutionOk, CpusOk, Placed;
    assert RunnableOk(s');
  }

  // ----- Whole runs -----

  ghost predicate IsRun(run: seq<System>) {
    run != [] && forall i :: 0 <= i < |run| - 1 ==> Next(run[i], run[i + 1])
  }

  lemma NextKeeps(s: System, s': System)
    requires Inv(s) && Next(s, s')
    ensures Inv(s') && s'.n == s.n && |s'.cpu| == |s.cpu|
  {
    if c: nat :| s.Sized() && c < |s.cpu| && s' == Schedule(s, c) {
      KeepSchedule(s, c);
    } else {
      var p: nat, m: Move :| CanStep(s, p, m) && s' == Step(s, p, m);
      KeepStep(s, p, m);
      KeepSized(s, p, m);
    }
  }

  lemma {:induction false} RunKeeps(run: seq<System>, i: nat)
    requires IsRun(run) && Start(run[0]) && i < |run|
    ensures Inv(run[i]) && run[i].n == run[0].n && |run[i].cpu| == |run[0].cpu|
  {
    if i == 0 {
      StartsWell(run[0]);
    } else {
      hide Inv, Next, Start;
      RunKeeps(run, i - 1);
      assert Next(run[i - 1], run[i - 1 + 1]);
      NextKeeps(run[i - 1], run[i]);
    }
  }

  /** A runnable process is never lost: it is current on its home CPU, on its run queue, or about to be enqueued
      there. */
  lemma NeverLost(run: seq<System>, i: nat, p: nat)
    requires IsRun(run) && Start(run[0]) && i < |run| && p < run[0].n
    ensures run[i].Sized() && run[i].n == run[0].n
    ensures !run[i].blocked[p] ==> Placed(run[i], p)
  {
    RunKeeps(run, i);
  }

  /** Nor is a process duplicated: it is nowhere but at home, once, and never both current and queued. */
  lemma NeverDuplicated(run: seq<System>, i: nat, c: nat, p: nat)
    requires IsRun(run) && Start(run[0]) && i < |run| && c < |run[i].cpu|
    ensures var s := run[i]; var u := s.cpu[c];
            && (u.current == Some(p) || p in u.runq ==> s.Sized() && p < |s.pc| && s.Home(p) == c)
            && (forall j, k :: 0 <= j < |u.runq| && 0 <= k < |u.runq| && u.runq[j] == u.runq[k] == p ==> j == k)
            && !(u.current == Some(p) && p in u.runq)
            && (p in u.runq ==> !s.blocked[p])
  {
    RunKeeps(run, i);
    assert CpuOk(run[i], c);
  }

  /** No wake-up is missed: a process descheduled as blocked has found its condition false, is on the wait queue
      or being taken off it to be woken, and its condition is still false unless a waker has yet to go through the
      queue. */
  lemma NoMissedWakeup(run: seq<System>, i: nat, p: nat)
    requires IsRun(run) && Start(run[0]) && i < |run| && p < |run[i].pc| && run[i].Sized()
    requires run[i].blocked[p] && !run[i].Executing(p)
    ensures var s := run[i];
            && s.pc[p].Resolved()
            && var w := s.pc[p].w;
            && (p in s.cond[w].queue || WakerAt(s, w, p, false))
            && (!s.cond[w].ready || WakeDue(s, w))
  {
    RunKeeps(run, i);
    var s := run[i];
    assert ExecutionAt(s, p) && BlockedAt(s, p);
    assert s.pc[p].Resolved();
  }

  /** The step takes a process off the front of the run queue. */
  predicate TakesFront(s: System, s': System, c: nat) {
    c < |s.cpu| && c < |s'.cpu| && !(s.cpu[c].runq <= s'.cpu[c].runq)
  }

  /** A step that takes a process off the front of a run queue makes it current and moves the others on by one place;
      any other step leaves the queue's processes where they are. */
  lemma QueueStep(s: System, s': System, c: nat, k: nat)
    requires Inv(s) && Next(s, s') && c < |s.cpu| && k < |s.cpu[c].runq|
    ensures |s'.cpu| == |s.cpu|
    ensures var p, u' := s.cpu[c].runq[k], s'.cpu[c];
            if !TakesFront(s, s', c) then k < |u'.runq| && u'.runq[k] == p
            else if k > 0 then k - 1 < |u'.runq| && u'.runq[k - 1] == p
            else u'.current == Some(p) && u'.mode == Check && !u'.yielding
  {
    if d: nat :| s.Sized() && d < |s.cpu| && s' == Schedule(s, d) {
    } else {
      var p: nat, m: Move :| CanStep(s, p, m) && s' == Step(s, p, m);
      CpusOfStep(s, p, m);
    }
  }

  /** How often steps `i` to `j` take a process off the front of the run queue. */
  ghost function Fronts(run: seq<System>, c: nat, i: nat, j: nat): nat
    requires i <= j < |run|
    decreases j - i
  {
    if i == j then 0 else Fronts(run, c, i + 1, j) + (if TakesFront(run[i], run[i + 1], c) then 1 else 0)
  }

  /** Run queues are first come, first served: by the time more processes have been taken off the front than stand
      before a process, it has become current. */
  lemma {:induction false} TurnComes(run: seq<System>, c: nat, i: nat, j: nat, k: nat) returns (t: nat)
    requires IsRun(run) && Start(run[0]) && i <= j < |run| && c < |run[i].cpu|
    requires k < |run[i].cpu[c].runq| && Fronts(run, c, i, j) > k
    ensures i < t <= j && c < |run[t].cpu| && run[t].cpu[c].current == Some(run[i].cpu[c].runq[k])
    decreases j - i
  {
    RunKeeps(run, i);
    assert Next(run[i], run[i + 1]);
    QueueStep(run[i], run[i + 1], c, k);
    hide Inv, Next, Start;
    if !TakesFront(run[i], run[i + 1], c) {
      t := TurnComes(run, c, i + 1, j, k);
    } else if k > 0 {
      t := TurnComes(run, c, i + 1, j, k - 1);
    } else {
      t := i + 1;
    }
  }
}
