/** Processes, run queues and wait queues, as interleaved atomic steps. */
module Scheduler {
  import opened Util

  /** Where a process stands. `w` is the condition it waits for or signals; `held` says that the waker kept the
      condition's lock; `x` is the process being woken. */
  datatype Pc =
    | User
    | Lock(w: nat) | Prepare(w: nat) | Pred(w: nat) | Unlock(w: nat) | Block(w: nat) | Yield(w: nat)
    | ClearAgain(w: nat) | Relock(w: nat) | ClearDone(w: nat) | Release(w: nat)
    | SLock(w: nat) | Set(w: nat) | Drop(w: nat)
    | WakeLock(w: nat, held: bool) | WakePop(w: nat, held: bool)
    | WakeCas(w: nat, held: bool, x: nat) | WakeEnq(w: nat, held: bool, x: nat)
    | SRelease(w: nat)
  {
    predicate Waiter() {
      Lock? || Prepare? || Pred? || Unlock? || Block? || Yield? || ClearAgain? || Relock? || ClearDone? || Release?
    }

    predicate Waking() { WakeLock? || WakePop? || WakeCas? || WakeEnq? }

    /** Holds the lock of its condition. */
    predicate HasLock() {
      Prepare? || Pred? || Unlock? || ClearDone? || Release? || Set? || Drop? || SRelease? || (Waking() && held)
    }

    /** Holds the lock of the condition's wait queue. */
    predicate HasQueueLock() { WakePop? || WakeCas? || WakeEnq? }

    /** Can be interrupted: no spinlock is held. */
    predicate LockFree() { !HasLock() && !HasQueueLock() }

    /** Between `prepare` and `clear`: may be on the wait queue. */
    predicate Queueing() { Pred? || Unlock? || Block? || Yield? || ClearAgain? || ClearDone? }

    /** Has found the condition false and means to sleep. */
    predicate Resolved() { Unlock? || Block? || Yield? || ClearAgain? }

    /** Has yet to wake all the waiters of condition `c`. */
    predicate WillWake(c: nat) { (Drop? || Waking()) && w == c }
  }

  /** A condition with its lock and its wait queue. */
  datatype Cond = Cond(ready: bool, lock: Option<nat>, qlock: Option<nat>, queue: seq<nat>)

  datatype Mode = Run | Check | Pick

  datatype Cpu = Cpu(current: Option<nat>, mode: Mode, yielding: bool, runq: seq<nat>)

  /** Processes `0..n` and, after them, the idle task of each CPU. */
  datatype System = System(n: nat, pc: seq<Pc>, blocked: seq<bool>, cond: seq<Cond>, cpu: seq<Cpu>)
  {
    ghost predicate Sized() {
      && |cpu| > 0 && |pc| == |blocked| == n + |cpu|
      && forall p :: 0 <= p < |pc| ==> pc[p].User? || pc[p].w < |cond|
    }

    function Home(p: nat): (c: nat)
      requires |cpu| > 0 && p < n + |cpu|
      ensures c < |cpu|
    {
      if p >= n then p - n else if p == 1 then 0 else p % |cpu|
    }

    predicate Executing(p: nat)
      requires |cpu| > 0 && p < n + |cpu|
    {
      cpu[Home(p)].current == Some(p) && cpu[Home(p)].mode == Run
    }

    function Goto(p: nat, to: Pc): System
      requires p < |pc|
    {
      this.(pc := pc[p := to])
    }

    function WithCond(w: nat, c: Cond): System
      requires w < |cond|
    {
      this.(cond := cond[w := c])
    }

    function WithCpu(c: nat, u: Cpu): System
      requires c < |cpu|
    {
      this.(cpu := cpu[c := u])
    }
  }

  datatype Move = Preempt | Wait(w: nat) | Signal(w: nat) | On(choice: bool)

  ghost predicate CanStep(s: System, p: nat, m: Move) {
    && s.Sized() && p < |s.pc| && s.Executing(p)
    && match m
       case Preempt => s.pc[p].LockFree()
       case Wait(w) => s.pc[p].User? && p < s.n && w < |s.cond|
       case Signal(w) => s.pc[p].User? && p < s.n && w < |s.cond|
       case On(_) =>
         && !s.pc[p].User?
         && (s.pc[p].Lock? || s.pc[p].Relock? || s.pc[p].SLock? ==> s.cond[s.pc[p].w].lock == None)
         && (s.pc[p].Prepare? || s.pc[p].ClearAgain? || s.pc[p].ClearDone? || s.pc[p].WakeLock? ==>
               s.cond[s.pc[p].w].qlock == None)
  }

  /** The CPU of `p` enters the scheduler, yielding from `p`. */
  function Enter(s: System, p: nat): System
    requires |s.cpu| > 0 && p < s.n + |s.cpu|
  {
    var c := s.Home(p);
    s.WithCpu(c, s.cpu[c].(mode := Check, yielding := true))
  }

  /** `cpustate::enqueue`. */
  function Enqueue(s: System, x: nat): System
    requires |s.cpu| > 0 && x < s.n + |s.cpu|
  {
    var c := s.Home(x);
    var u := s.cpu[c];
    if u.current != Some(x) && x !in u.runq then s.WithCpu(c, u.(runq := u.runq + [x])) else s
  }

  /** Make `p` runnable and take it off the wait queue. */
  function Clear(s: System, p: nat, w: nat): System
    requires p < |s.blocked| && w < |s.cond|
  {
    s.WithCond(w, s.cond[w].(queue := Without(s.cond[w].queue, p))).(blocked := s.blocked[p := false])
  }

  /** One atomic step of process `p`. */
  ghost function Step(s: System, p: nat, m: Move): System
    requires CanStep(s, p, m)
  {
    match m
    case Preempt => Enter(s, p)
    case Wait(w) => s.Goto(p, Lock(w))
    case Signal(w) => s.Goto(p, SLock(w))
    case On(choice) => Advance(s, p, choice)
  }

  /** One atomic step inside `block_until` with the condition's lock, from taking the lock to releasing it. */
  ghost function WaiterStep(s: System, p: nat, choice: bool): System
    requires s.Sized() && p < |s.pc| && s.pc[p].Waiter()
  {
    var w := s.pc[p].w;
    var c := s.cond[w];
    match s.pc[p]
    case Lock(_) => s.Goto(p, Prepare(w)).WithCond(w, c.(lock := Some(p)))
    case Prepare(_) => s.Goto(p, Pred(w)).WithCond(w, c.(queue := c.queue + [p])).(blocked := s.blocked[p := true])
    case Pred(_) => s.Goto(p, if c.ready then ClearDone(w) else Unlock(w))
    case Unlock(_) => s.Goto(p, Block(w)).WithCond(w, c.(lock := None))
    case Block(_) => s.Goto(p, if s.blocked[p] then Yield(w) else ClearAgain(w))
    case Yield(_) => Enter(s.Goto(p, ClearAgain(w)), p)
    case ClearAgain(_) => Clear(s, p, w).Goto(p, Relock(w))
    case Relock(_) => s.Goto(p, Prepare(w)).WithCond(w, c.(lock := Some(p)))
    case ClearDone(_) => Clear(s, p, w).Goto(p, Release(w))
    case Release(_) => s.Goto(p, User).WithCond(w, c.(ready := c.ready && choice, lock := None))
  }

  /** One atomic step of bringing a condition about and waking all its waiters. */
  ghost function WakerStep(s: System, p: nat, choice: bool): System
    requires s.Sized() && p < |s.pc| && !s.pc[p].User? && !s.pc[p].Waiter()
  {
    var w := s.pc[p].w;
    var c := s.cond[w];
    match s.pc[p]
    case SLock(_) => s.Goto(p, Set(w)).WithCond(w, c.(lock := Some(p)))
    case Set(_) => s.Goto(p, if choice then WakeLock(w, true) else Drop(w)).WithCond(w, c.(ready := true))
    case Drop(_) => s.Goto(p, WakeLock(w, false)).WithCond(w, c.(lock := None))
    case WakeLock(_, held) => s.Goto(p, WakePop(w, held)).WithCond(w, c.(qlock := Some(p)))
    case WakePop(_, held) =>
      if c.queue == [] then s.Goto(p, if held then SRelease(w) else User).WithCond(w, c.(qlock := None))
      else s.Goto(p, WakeCas(w, held, c.queue[0])).WithCond(w, c.(queue := c.queue[1..]))
    case WakeCas(_, held, x) =>
      if x < |s.blocked| && s.blocked[x] then s.Goto(p, WakeEnq(w, held, x)).(blocked := s.blocked[x := false])
      else s.Goto(p, WakePop(w, held))
    case WakeEnq(_, held, x) =>
      (if x < s.n then Enqueue(s, x) else s).Goto(p, WakePop(w, held))
    case SRelease(_) => s.Goto(p, User).WithCond(w, c.(lock := None))
  }

  ghost function Advance(s: System, p: nat, choice: bool): System
    requires s.Sized() && p < |s.pc| && !s.pc[p].User?
  {
    if s.pc[p].Waiter() then WaiterStep(s, p, choice) else WakerStep(s, p, choice)
  }

  /** The scheduler of CPU `c`: one test of its loop condition, or one turn of its loop. */
  function Schedule(s: System, c: nat): System
    requires c < |s.cpu| && |s.blocked| == s.n + |s.cpu|
  {
    var u := s.cpu[c];
    match u.mode
    case Run => s
    case Check =>
      var stay := u.current.Some? && u.current.value < |s.blocked| && !s.blocked[u.current.value] && !u.yielding;
      s.WithCpu(c, u.(mode := if stay then Run else Pick))
    case Pick =>
      var back := u.current.Some? && u.current.value < |s.blocked| && !s.blocked[u.current.value];
      var q := if back then u.runq + [u.current.value] else u.runq;
      s.WithCpu(c, if q == [] then Cpu(Some(s.n + c), Check, false, []) else Cpu(Some(q[0]), Check, false, q[1..]))
  }

  ghost predicate Next(s: System, s': System) {
    || (s.Sized() && exists c: nat :: c < |s.cpu| && s' == Schedule(s, c))
    || exists p: nat, m: Move :: CanStep(s, p, m) && s' == Step(s, p, m)
  }

  // ----- The invariant -----

  /** `p` has the lock, or the queue lock, of condition `w` exactly while it stands where they are held. */
  predicate LockAt(s: System, w: nat, p: nat)
    requires w < |s.cond| && p < |s.pc| && (s.pc[p].User? || s.pc[p].w < |s.cond|)
  {
    && (s.cond[w].lock == Some(p) <==> s.pc[p].HasLock() && s.pc[p].w == w)
    && (s.cond[w].qlock == Some(p) <==> s.pc[p].HasQueueLock() && s.pc[p].w == w)
  }

  ghost predicate LocksOk(s: System)
    requires s.Sized()
  {
    && (forall w: nat, p: nat :: w < |s.cond| && p < |s.pc| ==> LockAt(s, w, p))
    && (forall w: nat :: w < |s.cond| && s.cond[w].qlock.Some? ==> s.cond[w].qlock.value < |s.pc|)
  }

  /** A process with a spinlock is executing; idle tasks neither wait nor signal. */
  predicate ExecutionAt(s: System, p: nat)
    requires |s.cpu| > 0 && |s.pc| == |s.blocked| == s.n + |s.cpu| && p < |s.pc|
  {
    (!s.pc[p].LockFree() ==> s.Executing(p)) && (p >= s.n ==> s.pc[p].User? && !s.blocked[p])
  }

  ghost predicate ExecutionOk(s: System)
    requires s.Sized()
  {
    forall p: nat :: p < |s.pc| ==> ExecutionAt(s, p)
  }

  /** The current process and those on the run queue are at home and distinct; the run queue holds runnable processes
      only. */
  ghost predicate CpuOk(s: System, c: nat)
    requires s.Sized() && c < |s.cpu|
  {
    var u := s.cpu[c];
    && NoDup(u.runq)
    && (forall p :: p in u.runq ==> p < |s.pc| && s.Home(p) == c && !s.blocked[p])
    && (u.current.Some? ==> u.current.value < |s.pc| && s.Home(u.current.value) == c && u.current.value !in u.runq)
    && (u.mode == Run ==> u.current.Some?)
  }

  ghost predicate CpusOk(s: System)
    requires s.Sized()
  {
    forall c: nat :: c < |s.cpu| ==> CpuOk(s, c)
  }

  /** Somebody holding the queue lock of `w` is waking `x`: about to make it runnable, or, with `enq`, about to
      enqueue it. */
  predicate WakerAt(s: System, w: nat, x: nat, enq: bool) {
    && w < |s.cond| && s.cond[w].qlock.Some? && s.cond[w].qlock.value < |s.pc|
    && var q := s.pc[s.cond[w].qlock.value];
       && (if enq then q.WakeEnq? else q.WakeCas?) && q.w == w && q.x == x
  }

  /** A process being woken is on the condition's wait, and was taken off its queue. */
  predicate WakerOk(s: System, q: nat)
    requires q < |s.pc| == |s.blocked| && (s.pc[q].User? || s.pc[q].w < |s.cond|)
  {
    s.pc[q].WakeCas? || s.pc[q].WakeEnq? ==>
      var x, w := s.pc[q].x, s.pc[q].w;
      x < s.n && x < |s.pc| && s.pc[x].Queueing() && s.pc[x].w == w && x !in s.cond[w].queue &&
          s.blocked[x] == s.pc[q].WakeCas?
  }

  ghost predicate WakersOk(s: System)
    requires s.Sized()
  {
    forall q: nat :: q < |s.pc| ==> WakerOk(s, q)
  }

  predicate Waits(s: System, w: nat, x: nat) {
    x < s.n && x < |s.blocked| && x < |s.pc| && s.blocked[x] && s.pc[x].Queueing() && s.pc[x].w == w
  }

  ghost predicate QueueOk(s: System, w: nat)
    requires w < |s.cond|
  {
    NoDup(s.cond[w].queue) && forall x :: x in s.cond[w].queue ==> Waits(s, w, x)
  }

  ghost predicate QueuesOk(s: System)
    requires s.Sized()
  {
    forall w: nat :: w < |s.cond| ==> QueueOk(s, w)
  }

  /** A blocked process is on its wait queue, or has just been taken off it to be made runnable. */
  predicate BlockedAt(s: System, p: nat)
    requires p < |s.pc| == |s.blocked| && (s.pc[p].User? || s.pc[p].w < |s.cond|)
  {
    s.blocked[p] ==> s.pc[p].Queueing() && (p in s.cond[s.pc[p].w].queue || WakerAt(s, s.pc[p].w, p, false))
  }

  ghost predicate BlockedOk(s: System)
    requires s.Sized()
  {
    forall p: nat :: p < |s.pc| ==> BlockedAt(s, p)
  }

  /** A runnable process is current on its home CPU, on its run queue, or about to be enqueued. */
  ghost predicate RunnableOk(s: System)
    requires s.Sized()
  {
    forall p: nat :: p < s.n && !s.blocked[p] ==> Placed(s, p)
  }

  predicate Placed(s: System, p: nat)
    requires |s.cpu| > 0 && p < s.n && |s.pc| == s.n + |s.cpu|
  {
    || s.cpu[s.Home(p)].current == Some(p)
    || p in s.cpu[s.Home(p)].runq
    || (s.pc[p].Queueing() && WakerAt(s, s.pc[p].w, p, true))
  }

  /** A waker is on its way through the wait queue of `w`. */
  ghost predicate WakeDue(s: System, w: nat) {
    exists q: nat :: q < |s.pc| && s.pc[q].WillWake(w)
  }

  /** No wake-up is missed: a blocked process that found its condition false will still see it false, or be woken. */
  ghost predicate NoneMissed(s: System)
    requires s.Sized()
  {
    forall p: nat :: p < |s.pc| && s.blocked[p] && s.pc[p].Resolved() ==>
      !s.cond[s.pc[p].w].ready || WakeDue(s, s.pc[p].w)
  }

  ghost predicate Inv(s: System) {
    && s.Sized() && LocksOk(s) && ExecutionOk(s) && CpusOk(s)
    && WakersOk(s) && QueuesOk(s) && BlockedOk(s) && RunnableOk(s) && NoneMissed(s)
  }

  ghost predicate Start(s: System) {
    && s.Sized()
    && (forall p :: 0 <= p < |s.pc| ==> s.pc[p].User? && !s.blocked[p])
    && (forall w :: 0 <= w < |s.cond| ==> s.cond[w].lock == None && s.cond[w].qlock == None && s.cond[w].queue == [])
    && (forall c: nat :: c < |s.cpu| ==>
          var u := s.cpu[c];
          u.current == None && u.mode == Check && NoDup(u.runq) && forall p: nat :: p in u.runq <==>
              p < s.n && s.Home(p) == c)
  }

  lemma StartsWell(s: System)
    requires Start(s)
    ensures Inv(s)
  {
  }
}
