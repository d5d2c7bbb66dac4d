/** The three-state mutex over the kernel futex, step by step. */
module FutexMutex {
  import opened Util

  const SPINS := 40

  /** Where a thread stands. `Owner` is the critical section; the states from `WaitCheck` to `Remove` are inside the
      kernel, waiting. */
  datatype Pc =
    | Out
    | Spin(i: nat) | Load | Xchg1
    | WaitCheck | Add | Prepare | Pred | Block | Asleep | ClearAgain | ClearDone | Remove
    | Xchg2
    | Owner
    | Store0 | WakeFind | WakeCall(state: nat)
  {
    predicate Holding() { Owner? || Store0? }

    /** Holds a reference to the futex state of the word. */
    predicate Referring() { Prepare? || Pred? || Block? || Asleep? || ClearAgain? || ClearDone? || Remove? }

    /** May be on the wait queue. */
    predicate Queueing() { Pred? || Block? || Asleep? || ClearAgain? || ClearDone? }

    /** Bound to exchange the word with 2, or to find it 2, before doing anything else to it. */
    predicate Slow() { WaitCheck? || Referring() || Add? || Xchg2? }
  }

  /** `queue` is the wait queue of the futex state now allocated for the word (number `state`, with `refs`
      references); `blocked[t]` says that thread `t` is not runnable. */
  datatype System = System(word: nat, pc: seq<Pc>, blocked: seq<bool>, queue: seq<nat>, refs: nat, state: nat)
  {
    function Goto(t: nat, p: Pc): System
      requires t < |pc|
    {
      this.(pc := pc[t := p])
    }
  }

  predicate CanStep(s: System, t: nat) {
    t < |s.pc| == |s.blocked| && !(s.pc[t].Asleep? && s.blocked[t])
  }

  /** One atomic step of thread `t`. With `bad`, a compare-exchange fails spuriously and the allocation of a futex
      state fails. */
  function Step(s: System, t: nat, bad: bool): System
    requires CanStep(s, t)
  {
    match s.pc[t]
    case Out => s.Goto(t, Spin(0))
    case Spin(i) =>
      if s.word == 0 && !bad then s.Goto(t, Owner).(word := 1)
      else s.Goto(t, if i + 1 < SPINS then Spin(i + 1) else Load)
    case Load => s.Goto(t, if s.word != 2 then Xchg1 else WaitCheck)
    case Xchg1 => s.Goto(t, if s.word == 0 then Owner else WaitCheck).(word := 2)
    case WaitCheck => s.Goto(t, if s.word != 2 then Xchg2 else Add)
    case Add =>
      if s.refs > 0 then s.Goto(t, Prepare).(refs := s.refs + 1)
      else if bad then s.Goto(t, Xchg2)
      else s.Goto(t, Prepare).(refs := 1, state := s.state + 1, queue := [])
    case Prepare => s.Goto(t, Pred).(blocked := s.blocked[t := true], queue := s.queue + [t])
    case Pred => s.Goto(t, if s.word != 2 then ClearDone else Block)
    case Block => s.Goto(t, if s.blocked[t] then Asleep else ClearAgain)
    case Asleep => s.Goto(t, ClearAgain)
    case ClearAgain => s.Goto(t, Prepare).(blocked := s.blocked[t := false], queue := Without(s.queue, t))
    case ClearDone => s.Goto(t, Remove).(blocked := s.blocked[t := false], queue := Without(s.queue, t))
    case Remove => s.Goto(t, Xchg2).(refs := if s.refs > 0 then s.refs - 1 else 0)
    case Xchg2 => s.Goto(t, if s.word == 0 then Owner else WaitCheck).(word := 2)
    case Owner =>
      var w := if s.word > 0 then s.word - 1 else 0;
      s.Goto(t, if w != 0 then Store0 else Out).(word := w)
    case Store0 => s.Goto(t, WakeFind).(word := 0)
    case WakeFind => s.Goto(t, if s.refs > 0 then WakeCall(s.state) else Out)
    case WakeCall(st) =>
      if st == s.state && s.queue != [] && s.queue[0] < |s.blocked| then
        s.Goto(t, Out).(blocked := s.blocked[s.queue[0] := false], queue := s.queue[1..])
      else s.Goto(t, Out)
  }

  /** The timer wakes every futex waiter. */
  function Tick(s: System): System {
    s.(blocked := seq(|s.blocked|, t requires 0 <= t < |s.blocked| => s.blocked[t] && t !in s.queue), queue := [])
  }

  ghost predicate Next(s: System, s': System) {
    s' == Tick(s) || exists t: nat, bad: bool :: CanStep(s, t) && s' == Step(s, t, bad)
  }

  ghost predicate Start(s: System) {
    && s.word == 0 && s.queue == [] && s.refs == 0 && |s.pc| == |s.blocked|
    && forall t :: 0 <= t < |s.pc| ==> s.pc[t] == Out && !s.blocked[t]
  }

  // ----- The invariant -----

  predicate HoldsLock(s: System, t: nat) {
    t < |s.pc| && s.pc[t].Holding()
  }

  /** The word is non-zero exactly when there is an owner, and there is at most one. */
  ghost predicate OneOwner(s: System) {
    && s.word <= 2
    && (s.word != 0 <==> exists t :: HoldsLock(s, t))
    && (forall t, u :: HoldsLock(s, t) && HoldsLock(s, u) ==> t == u)
  }

  /** A thread is blocked exactly while it is on the wait queue. */
  ghost predicate QueueOk(s: System) {
    && |s.pc| == |s.blocked|
    && (forall t: nat :: t in s.queue <==> t < |s.pc| && s.blocked[t])
    && (forall t :: 0 <= t < |s.pc| && s.blocked[t] ==> s.pc[t].Queueing())
    && NoDup(s.queue)
  }

  function Referrers(pc: seq<Pc>): nat {
    if pc == [] then 0 else Referrers(pc[1..]) + (if pc[0].Referring() then 1 else 0)
  }

  /** The futex state lives as long as a thread refers to it. */
  ghost predicate RefsOk(s: System) {
    && s.refs == Referrers(s.pc)
    && (forall t :: 0 <= t < |s.pc| && s.pc[t].WakeCall? ==> s.pc[t].state <= s.state)
  }

  /** Has decided to sleep and was not woken since. */
  predicate Committed(s: System, t: nat) {
    t < |s.pc| && t < |s.blocked| && s.blocked[t] && (s.pc[t].Block? || s.pc[t].Asleep?)
  }

  /** Will wake a sleeper or set the word to 2 before long: an unlocker that has yet to store 0 or to wake, or an
      awake thread on the slow path. */
  predicate WillSee(s: System, u: nat) {
    && u < |s.pc|
    && (s.pc[u].Store0? || s.pc[u].WakeFind? || s.pc[u] == WakeCall(s.state) || (s.pc[u].Slow() && !Committed(s, u)))
  }

  /** Sleepers are never stranded. */
  ghost predicate NoneStranded(s: System) {
    (exists t :: Committed(s, t)) ==> s.word == 2 || exists u :: WillSee(s, u)
  }

  ghost predicate Inv(s: System) {
    OneOwner(s) && QueueOk(s) && RefsOk(s) && NoneStranded(s)
  }

  // ----- Every step keeps it -----

  lemma {:induction false} ReferrersSplit(a: seq<Pc>, b: seq<Pc>)
    ensures Referrers(a + b) == Referrers(a) + Referrers(b)
  {
    if a == [] {
      assert a + b == b;
    } else {
      assert (a + b)[1..] == a[1..] + b;
      ReferrersSplit(a[1..], b);
    }
  }

  lemma ReferrersUpdate(pc: seq<Pc>, t: nat, p: Pc)
    requires t < |pc|
    ensures Referrers(pc[t := p]) ==
            Referrers(pc) - (if pc[t].Referring() then 1 else 0) + (if p.Referring() then 1 else 0)
    ensures pc[t].Referring() ==> Referrers(pc) > 0
  {
    ReferrersSplit(pc[..t], [pc[t]] + pc[t + 1..]);
    ReferrersSplit([pc[t]], pc[t + 1..]);
    ReferrersSplit(pc[..t], [p] + pc[t + 1..]);
    ReferrersSplit([p], pc[t + 1..]);
    assert pc == pc[..t] + ([pc[t]] + pc[t + 1..]);
    assert pc[t := p] == pc[..t] + ([p] + pc[t + 1..]);
  }

  lemma StepMoves(s: System, t: nat, bad: bool)
    requires CanStep(s, t)
    ensures |Step(s, t, bad).pc| == |s.pc| && Step(s, t, bad).pc == s.pc[t := Step(s, t, bad).pc[t]]
  {
  }

  lemma StepOwner(s: System, t: nat, bad: bool)
    requires CanStep(s, t) && OneOwner(s)
    ensures OneOwner(Step(s, t, bad))
  {
    var s' := Step(s, t, bad);
    StepMoves(s, t, bad);
    forall u ensures u != t ==> HoldsLock(s', u) == HoldsLock(s, u) { }
    assert s.word != 0 && !HoldsLock(s, t) ==> exists u :: u != t && HoldsLock(s, u) && HoldsLock(s', u);
    if HoldsLock(s', t) { assert s'.word != 0; }
  }

  lemma MoveKeepsQueue(s: System, s': System, t: nat)
    requires QueueOk(s) && t < |s.pc| && s'.queue == s.queue && s'.blocked == s.blocked
    requires |s'.pc| == |s.pc| && s'.pc == s.pc[t := s'.pc[t]] && (s.pc[t].Queueing() ==> s'.pc[t].Queueing())
    ensures QueueOk(s')
  {
  }

  lemma EnqueueKeepsQueue(s: System, s': System, t: nat)
    requires QueueOk(s) && t < |s.pc| && !s.pc[t].Queueing()
    requires s'.queue == s.queue + [t] && s'.blocked == s.blocked[t := true]
    requires |s'.pc| == |s.pc| && s'.pc == s.pc[t := s'.pc[t]] && s'.pc[t].Queueing()
    ensures QueueOk(s')
  {
  }

  lemma DequeueKeepsQueue(s: System, s': System, t: nat)
    requires QueueOk(s) && t < |s.pc| && s'.queue == Without(s.queue, t) && s'.blocked == s.blocked[t := false]
    requires |s'.pc| == |s.pc| && s'.pc == s.pc[t := s'.pc[t]]
    ensures QueueOk(s')
  {
    WithoutNoDup(s.queue, t);
  }

  lemma PopKeepsQueue(s: System, s': System, t: nat)
    requires QueueOk(s) && t < |s.pc| && !s.pc[t].Queueing()
    requires s.queue != [] && s.queue[0] < |s.pc|
    requires s'.queue == s.queue[1..] && s'.blocked == s.blocked[s.queue[0] := false]
    requires |s'.pc| == |s.pc| && s'.pc == s.pc[t := s'.pc[t]]
    ensures QueueOk(s')
  {
    assert s.queue == [s.queue[0]] + s'.queue;
    forall x: nat ensures x in s'.queue <==> x in s.queue && x != s.queue[0] {
      if x in s'.queue { var k :| 0 <= k < |s'.queue| && s'.queue[k] == x; assert s.queue[k + 1] == x; }
    }
  }

  lemma StepQueue(s: System, t: nat, bad: bool)
    requires CanStep(s, t) && QueueOk(s) && RefsOk(s)
    ensures QueueOk(Step(s, t, bad))
  {
    var s' := Step(s, t, bad);
    StepMoves(s, t, bad);
    if s.refs == 0 { NobodyQueued(s); }
    assert s.pc[t].WakeCall? && s.queue != [] ==> s.queue[0] in s.queue && s.queue[0] < |s.pc|;
    hide QueueOk, RefsOk;
    if s.pc[t].Prepare? {
      EnqueueKeepsQueue(s, s', t);
    } else if s.pc[t].ClearAgain? || s.pc[t].ClearDone? {
      DequeueKeepsQueue(s, s', t);
    } else if s.pc[t].WakeCall? && s.queue != [] && s.pc[t].state == s.state {
      PopKeepsQueue(s, s', t);
    } else {
      MoveKeepsQueue(s, s', t);
    }
  }

  lemma NobodyQueued(s: System)
    requires QueueOk(s) && RefsOk(s) && s.refs == 0
    ensures s.queue == []
  {
    if s.queue != [] {
      var t := s.queue[0];
      assert t in s.queue;
      ReferrersUpdate(s.pc, t, s.pc[t]);
    }
  }

  lemma StepRefs(s: System, t: nat, bad: bool)
    requires CanStep(s, t) && RefsOk(s)
    ensures RefsOk(Step(s, t, bad))
  {
    StepMoves(s, t, bad);
    ReferrersUpdate(s.pc, t, Step(s, t, bad).pc[t]);
    StepCounts(s, t, bad);
    hide Step, Referrers;
  }

  /** What a step does to the count of references, and to the states that are to be woken. */
  lemma StepCounts(s: System, t: nat, bad: bool)
    requires CanStep(s, t) && (s.pc[t].Referring() ==> s.refs > 0)
    ensures var s' := Step(s, t, bad);
            && t < |s'.pc| && s'.state >= s.state
            && s'.refs == s.refs - (if s.pc[t].Referring() then 1 else 0) + (if s'.pc[t].Referring() then 1 else 0)
            && (s'.pc[t].WakeCall? ==> s'.pc[t].state <= s'.state)
  {
    hide Without;
  }

  /** A sleeper refers to the futex state and is on its queue. */
  lemma SleeperHolds(s: System, x: nat)
    requires QueueOk(s) && RefsOk(s) && Committed(s, x)
    ensures s.refs > 0 && s.queue != [] && s.queue[0] < |s.pc|
  {
    ReferrersUpdate(s.pc, x, s.pc[x]);
    assert x in s.queue && s.queue[0] in s.queue;
  }

  /** The one who will see to a sleeper takes a step. */
  lemma SeerSteps(s: System, t: nat, bad: bool)
    requires CanStep(s, t) && QueueOk(s) && s.refs > 0 && s.queue != [] && s.queue[0] < |s.pc| && WillSee(s, t)
    requires s.queue[0] in s.queue
    ensures Step(s, t, bad).word == 2 || WillSee(Step(s, t, bad), t) || WillSee(Step(s, t, bad), s.queue[0])
  {
    assert s.pc[s.queue[0]].Queueing();
    hide QueueOk;
  }

  /** Another thread takes a step. */
  lemma SeerStays(s: System, t: nat, bad: bool, u: nat)
    requires CanStep(s, t) && s.refs > 0 && WillSee(s, u) && u != t
    ensures WillSee(Step(s, t, bad), u)
  {
    StepMoves(s, t, bad);
  }

  lemma StepStranded(s: System, t: nat, bad: bool)
    requires CanStep(s, t) && Inv(s)
    ensures NoneStranded(Step(s, t, bad))
  {
    var s' := Step(s, t, bad);
    if x :| Committed(s', x) {
      if Committed(s, x) {
        SleeperHolds(s, x);
        assert s.queue[0] in s.queue;
        if s.word == 2 {
          WordLeaves2(s, t, bad);
        } else {
          var u :| WillSee(s, u);
          if u == t { SeerSteps(s, t, bad); } else { SeerStays(s, t, bad, u); }
        }
      } else {
        NewSleeper(s, t, bad, x);
      }
    }
  }

  lemma WordLeaves2(s: System, t: nat, bad: bool)
    requires CanStep(s, t) && s.word == 2
    ensures Step(s, t, bad).word == 2 || WillSee(Step(s, t, bad), t)
  {
  }

  /** A thread commits to sleeping only while the word is 2. */
  lemma NewSleeper(s: System, t: nat, bad: bool, x: nat)
    requires CanStep(s, t) && !Committed(s, x) && Committed(Step(s, t, bad), x)
    ensures x == t && Step(s, t, bad).word == 2
  {
    StepMoves(s, t, bad);
  }

  lemma TickKeeps(s: System)
    requires Inv(s)
    ensures Inv(Tick(s))
  {
    var s' := Tick(s);
    forall t ensures HoldsLock(s', t) == HoldsLock(s, t) { }
    forall t | 0 <= t < |s.pc| ensures !s'.blocked[t] {
      assert t in s.queue <==> s.blocked[t];
    }
  }

  lemma NextKeeps(s: System, s': System)
    requires Inv(s) && Next(s, s')
    ensures Inv(s') && |s'.pc| == |s.pc|
  {
    if s' == Tick(s) {
      TickKeeps(s);
    } else {
      var t: nat, bad: bool :| CanStep(s, t) && s' == Step(s, t, bad);
      StepMoves(s, t, bad);
      StepOwner(s, t, bad);
      StepQueue(s, t, bad);
      StepRefs(s, t, bad);
      StepStranded(s, t, bad);
    }
  }

  // ----- Whole runs -----

  ghost predicate IsRun(run: seq<System>) {
    run != [] && forall i :: 0 <= i < |run| - 1 ==> Next(run[i], run[i + 1])
  }

  lemma {:induction false} RunKeeps(run: seq<System>, i: nat)
    requires IsRun(run) && Inv(run[0]) && i < |run|
    ensures Inv(run[i]) && |run[i].pc| == |run[0].pc|
  {
    if i > 0 {
      RunKeeps(run, i - 1);
      assert Next(run[i - 1], run[i - 1 + 1]);
      NextKeeps(run[i - 1], run[i]);
    }
  }

  lemma StartsWell(s: System)
    requires Start(s)
    ensures Inv(s)
  {
    NoReferrers(s.pc);
  }

  lemma {:induction false} NoReferrers(pc: seq<Pc>)
    requires forall t :: 0 <= t < |pc| ==> !pc[t].Referring()
    ensures Referrers(pc) == 0
  {
    if pc != [] { NoReferrers(pc[1..]); }
  }

  /** In every state of every run: at most one thread owns the mutex; the word says whether one does; and while a
      thread sleeps, the word is 2 or somebody will still wake a sleeper or set it to 2. */
  lemma Safety(run: seq<System>, i: nat)
    requires IsRun(run) && Start(run[0]) && i < |run|
    ensures var s := run[i];
            && (s.word != 0 <==> exists t :: HoldsLock(s, t))
            && (forall t, u :: HoldsLock(s, t) && HoldsLock(s, u) ==> t == u)
            && ((exists t :: Committed(s, t)) ==> s.word == 2 || exists u :: WillSee(s, u))
  {
    StartsWell(run[0]);
    RunKeeps(run, i);
  }

  /** While a thread sleeps, another is inside and can take a step. */
  lemma SleeperHasCompany(s: System, t: nat) returns (u: nat)
    requires Inv(s) && Committed(s, t)
    ensures u != t && CanStep(s, u) && s.pc[u] != Out
  {
    if s.word == 2 { u :| HoldsLock(s, u); } else { u :| WillSee(s, u); }
  }

  /** Nobody sleeps once every other thread is out. */
  lemma LastOneAwake(run: seq<System>, i: nat, t: nat)
    requires IsRun(run) && Start(run[0]) && i < |run| && t < |run[0].pc|
    requires forall u :: 0 <= u < |run[i].pc| && u != t ==> run[i].pc[u] == Out
    ensures !Committed(run[i], t)
  {
    StartsWell(run[0]);
    RunKeeps(run, i);
    var s := run[i];
    if Committed(s, t) { var u := SleeperHasCompany(s, t); }
  }

  // ----- No deadlock -----

  /** How far from done, when the word is free. */
  function Rank(p: Pc): nat {
    match p
    case Out => 0
    case WakeCall(_) => 1
    case WakeFind => 2
    case Store0 => 3
    case Owner => 4
    case Xchg2 => 5
    case Remove => 6
    case ClearDone => 7
    case Pred => 8
    case Prepare => 9
    case ClearAgain => 10
    case Asleep => 11
    case Block => 12
    case Add => 13
    case WaitCheck => 14
    case Xchg1 => 15
    case Load => 16
    case Spin(i) => 17 + (if i < SPINS then SPINS - i else 0)
  }

  function Distance(pc: seq<Pc>): nat {
    if pc == [] then 0 else Distance(pc[1..]) + Rank(pc[0])
  }

  lemma {:induction false} DistanceUpdate(pc: seq<Pc>, t: nat, p: Pc)
    requires t < |pc|
    ensures Distance(pc[t := p]) == Distance(pc) - Rank(pc[t]) + Rank(p)
  {
    if t == 0 {
      assert pc[t := p][1..] == pc[1..];
    } else {
      assert pc[t := p][1..] == pc[1..][t - 1 := p];
      DistanceUpdate(pc[1..], t - 1, p);
    }
  }

  ghost predicate AllOut(s: System) {
    forall t :: 0 <= t < |s.pc| ==> s.pc[t] == Out
  }

  predicate Unlocking(s: System, t: nat) {
    t < |s.pc| && (s.pc[t].Holding() || s.pc[t].WakeFind? || s.pc[t].WakeCall?)
  }

  ghost predicate NoNewLock(s: System, s': System) {
    |s'.pc| == |s.pc| && forall t :: 0 <= t < |s.pc| && s.pc[t] == Out ==> s'.pc[t] == Out
  }

  /** As long as a thread is not done, some thread can take a step towards being done. */
  lemma CanProgress(s: System) returns (t: nat)
    requires Inv(s) && !AllOut(s)
    ensures CanStep(s, t) && s.pc[t] != Out && Distance(Step(s, t, false).pc) < Distance(s.pc)
  {
    if s.word != 0 {
      t :| HoldsLock(s, t);
    } else if u: nat :| Unlocking(s, u) {
      t := u;
    } else {
      var a: nat :| a < |s.pc| && s.pc[a] != Out;
      if CanStep(s, a) {
        t := a;
      } else {
        assert Committed(s, a);
        t :| WillSee(s, t);
        assert !Unlocking(s, t);
      }
    }
    hide Inv, AllOut, Step, Distance, Rank;
    StepMoves(s, t, false);
    StepCloser(s, t, false);
    DistanceUpdate(s.pc, t, Step(s, t, false).pc[t]);
  }

  lemma StepCloser(s: System, t: nat, bad: bool)
    requires CanStep(s, t) && s.pc[t] != Out && (Unlocking(s, t) || s.word == 0)
    ensures Rank(Step(s, t, bad).pc[t]) < Rank(s.pc[t])
  {
  }

  lemma FreeWhenDone(s: System)
    requires Inv(s) && AllOut(s)
    ensures s.word == 0 && s.queue == [] && s.refs == 0
  {
    NoReferrers(s.pc);
    NobodyQueued(s);
  }

  lemma PrependRun(s: System, more: seq<System>, rest: seq<System>)
    requires IsRun(more) && Next(s, more[0]) && NoNewLock(s, more[0]) && rest == [s] + more
    requires forall i :: 0 <= i < |more| - 1 ==> NoNewLock(more[i], more[i + 1])
    ensures IsRun(rest) && rest[|rest| - 1] == more[|more| - 1]
    ensures forall i :: 0 <= i < |rest| - 1 ==> NoNewLock(rest[i], rest[i + 1])
  {
    hide Next, NoNewLock;
    forall i | 0 <= i < |rest| - 1 ensures Next(rest[i], rest[i + 1]) && NoNewLock(rest[i], rest[i + 1]) {
      if i > 0 { assert rest[i] == more[i - 1] && rest[i + 1] == more[i - 1 + 1]; }
    }
  }

  /** No deadlock: from every reachable state the threads inside can all finish, without any further call of `lock`,
      and the mutex is then free with nobody queued. */
  lemma {:induction false} CanFinish(s: System) returns (rest: seq<System>)
    requires Inv(s)
    ensures IsRun(rest) && rest[0] == s && AllOut(rest[|rest| - 1])
    ensures rest[|rest| - 1].word == 0 && rest[|rest| - 1].queue == [] && rest[|rest| - 1].refs == 0
    ensures forall i :: 0 <= i < |rest| - 1 ==> NoNewLock(rest[i], rest[i + 1])
    decreases Distance(s.pc)
  {
    if AllOut(s) {
      rest := [s];
      FreeWhenDone(s);
    } else {
      var t := CanProgress(s);
      var s' := Step(s, t, false);
      StepMoves(s, t, false);
      assert Next(s, s') && NoNewLock(s, s');
      NextKeeps(s, s');
      hide *;
      var more := CanFinish(s');
      rest := [s] + more;
      PrependRun(s, more, rest);
    }
  }
}
