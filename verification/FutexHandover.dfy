/** One thread by itself: taking the mutex, and being handed it. */
module FutexHandover {
  import opened FutexMutex
  import opened Util

  /** Thread `t` takes `n` steps, nobody else does, and nothing fails; less if it falls asleep. */
  function Alone(s: System, t: nat, n: nat): System
    decreases n
  {
    if n == 0 || !CanStep(s, t) then s else Alone(Step(s, t, false), t, n - 1)
  }

  lemma {:induction false} AloneAdds(s: System, t: nat, m: nat, n: nat)
    ensures Alone(s, t, m + n) == Alone(Alone(s, t, m), t, n)
    decreases m
  {
    if m > 0 && CanStep(s, t) { AloneAdds(Step(s, t, false), t, m - 1, n); }
  }

  predicate At(s: System, t: nat, p: Pc) { t < |s.pc| == |s.blocked| && s.pc[t] == p }

  // ----- The free mutex -----

  /** Locking the free mutex takes one compare-exchange, and unlocking it, when nobody came, one decrement: the kernel
      is not called, and everything is as before. */
  lemma Uncontended(s: System, t: nat)
    requires At(s, t, Out) && s.word == 0
    ensures Alone(s, t, 2) == s.Goto(t, Owner).(word := 1)
    ensures Alone(s, t, 3) == s
  {
    var s1 := s.Goto(t, Spin(0));
    var s2 := s1.Goto(t, Owner).(word := 1);
    assert Step(s, t, false) == s1 && Step(s1, t, false) == s2 && s2 == s.Goto(t, Owner).(word := 1);
    assert Step(s2, t, false) == s;
  }

  /** A spinning thread takes the mutex as soon as it finds it free. */
  lemma SpinTakes(s: System, t: nat, i: nat)
    requires At(s, t, Spin(i)) && s.word == 0
    ensures Step(s, t, false) == s.Goto(t, Owner).(word := 1)
  {
  }

  // ----- The taken mutex -----

  lemma {:induction false} SpinsOn(s: System, t: nat, i: nat)
    requires At(s, t, Spin(i)) && s.word != 0 && i < SPINS
    ensures Alone(s, t, SPINS - i) == s.Goto(t, Load)
    decreases SPINS - i
  {
    var s1 := Step(s, t, false);
    if i + 1 < SPINS {
      SpinsOn(s1, t, i + 1);
      assert s1.Goto(t, Load) == s.Goto(t, Load);
    } else {
      assert s1 == s.Goto(t, Load);
      assert Alone(s1, t, 0) == s1;
    }
  }

  /** What a thread leaves behind when it falls asleep. */
  predicate FellAsleep(s: System, s': System, t: nat) {
    && t < |s.pc| == |s.blocked| && s'.pc == s.pc[t := Asleep] && s'.blocked == s.blocked[t := true]
    && s'.word == 2 && s'.queue == s.queue + [t] && s'.refs == s.refs + 1
  }

  lemma AloneOnce(s: System, t: nat, n: nat)
    requires CanStep(s, t) && n > 0
    ensures Alone(s, t, n) == Alone(Step(s, t, false), t, n - 1)
  {
  }

  lemma PreparedSleeps(s: System, t: nat)
    requires At(s, t, Prepare) && s.word == 2
    ensures Alone(s, t, 3) == s.Goto(t, Asleep).(blocked := s.blocked[t := true], queue := s.queue + [t])
  {
    var s1 := s.Goto(t, Pred).(blocked := s.blocked[t := true], queue := s.queue + [t]);
    var s2 := s1.Goto(t, Block);
    var s3 := s1.Goto(t, Asleep);
    assert Step(s1, t, false) == s2 && Step(s2, t, false) == s3;
    AloneOnce(s, t, 3);
    AloneOnce(s1, t, 2);
    AloneOnce(s2, t, 1);
    assert s3 == s.Goto(t, Asleep).(blocked := s.blocked[t := true], queue := s.queue + [t]);
  }

  lemma WaitSleeps(s: System, t: nat)
    requires At(s, t, WaitCheck) && s.word == 2 && (s.refs == 0 ==> s.queue == [])
    ensures FellAsleep(s, Alone(s, t, 5), t)
  {
    hide Alone;
    var s1 := s.Goto(t, Add);
    var s2 := Step(s1, t, false);
    assert Step(s, t, false) == s1;
    AloneOnce(s, t, 5);
    AloneOnce(s1, t, 4);
    PreparedSleeps(s2, t);
  }

  /** On a taken mutex a thread tries 40 times, sets the word to 2 and falls asleep in the kernel, last on the wait
      queue; nobody else is affected. */
  lemma Contended(s: System, t: nat)
    requires Inv(s) && At(s, t, Out) && s.word != 0
    ensures Alone(s, t, 41) == s.Goto(t, Load)
    ensures FellAsleep(s, Alone(s, t, if s.word == 2 then 47 else 48), t)
  {
    var s0 := s.Goto(t, Spin(0));
    AloneOnce(s, t, SPINS + 1);
    SpinsOn(s0, t, 0);
    if s.refs == 0 { NobodyQueued(s); }
    hide Inv, Alone;
    var s1 := s.Goto(t, Load);
    assert s0.Goto(t, Load) == s1;
    LoadSleeps(s1, t);
    AloneAdds(s, t, SPINS + 1, if s.word == 2 then 6 else 7);
  }

  lemma LoadSleeps(s: System, t: nat)
    requires At(s, t, Load) && s.word != 0 && (s.refs == 0 ==> s.queue == [])
    ensures FellAsleep(s, Alone(s, t, if s.word == 2 then 6 else 7), t)
  {
    hide Alone;
    var s1 := Step(s, t, false);
    if s.word == 2 {
      AloneOnce(s, t, 6);
      WaitSleeps(s1, t);
    } else {
      AloneOnce(s, t, 7);
      AloneOnce(s1, t, 6);
      WaitSleeps(Step(s1, t, false), t);
    }
  }

  // ----- Handing over -----

  /** A sleeper cannot go on by itself: only a waker or the timer can let it. */
  lemma SleeperStays(s: System, t: nat, n: nat)
    requires Inv(s) && At(s, t, Asleep) && t in s.queue
    ensures Alone(s, t, n) == s && !CanStep(s, t)
  {
  }

  /** Unlocking a mutex that others wait for frees it and makes exactly the first thread on the wait queue runnable. */
  lemma UnlockWakesOne(s: System, u: nat)
    requires Inv(s) && At(s, u, Owner) && s.word == 2 && s.queue != []
    ensures var s' := Alone(s, u, 4);
            && s'.pc == s.pc[u := Out] && s'.word == 0 && s'.queue == s.queue[1..] && s'.refs == s.refs
            && s.queue[0] < |s.blocked| && s'.blocked == s.blocked[s.queue[0] := false]
  {
    var t := s.queue[0];
    assert t in s.queue;
    ReferrersUpdate(s.pc, t, s.pc[t]);
    hide Inv, Alone;
    var s1 := s.Goto(u, Store0).(word := 1);
    var s2 := s.Goto(u, WakeFind).(word := 0);
    var s3 := s.Goto(u, WakeCall(s.state)).(word := 0);
    assert Step(s, u, false) == s1;
    assert Step(s1, u, false) == s2;
    assert Step(s2, u, false) == s3;
    AloneOnce(s, u, 4);
    AloneOnce(s1, u, 3);
    AloneOnce(s2, u, 2);
    AloneOnce(s3, u, 1);
    assert Alone(s, u, 4) == Alone(Step(s3, u, false), u, 0);
    assert Alone(Step(s3, u, false), u, 0) == Step(s3, u, false) by { AloneNone(Step(s3, u, false), u); }
  }

  lemma AloneNone(s: System, t: nat)
    ensures Alone(s, t, 0) == s
  {
  }

  /** A sleeper that was woken and finds the mutex free takes it, with the word at 2 for those still asleep, and gives
      its reference to the futex state back. */
  lemma WokenTakes(s: System, t: nat)
    requires At(s, t, Asleep) && !s.blocked[t] && t !in s.queue && s.word == 0 && s.refs > 0
    ensures Alone(s, t, 7) == s.Goto(t, Owner).(word := 2, refs := s.refs - 1)
  {
    hide Alone;
    WithoutAbsent(s.queue, t);
    var s1 := s.Goto(t, ClearAgain);
    var s2 := s.Goto(t, Prepare);
    var s3 := s.Goto(t, Pred).(blocked := s.blocked[t := true], queue := s.queue + [t]);
    var s4 := s.Goto(t, ClearDone).(blocked := s.blocked[t := true], queue := s.queue + [t]);
    var s5 := s.Goto(t, Remove);
    var s6 := s.Goto(t, Xchg2).(refs := s.refs - 1);
    assert Step(s, t, false) == s1;
    assert Step(s1, t, false) == s2;
    assert Step(s2, t, false) == s3;
    assert Step(s3, t, false) == s4;
    assert Step(s4, t, false) == s5;
    assert Step(s5, t, false) == s6;
    AloneOnce(s, t, 7);
    AloneOnce(s1, t, 6);
    AloneOnce(s2, t, 5);
    AloneOnce(s3, t, 4);
    AloneOnce(s4, t, 3);
    AloneOnce(s5, t, 2);
    AloneOnce(s6, t, 1);
    AloneNone(Step(s6, t, false), t);
  }

  /** The mutex is handed over: its owner unlocks, and the thread that has slept longest owns it next, although others
      may have gone on sleeping. */
  lemma HandOver(s: System, u: nat, t: nat)
    requires Inv(s) && At(s, u, Owner) && s.word == 2 && s.queue != [] && s.queue[0] == t && At(s, t, Asleep)
    ensures var s' := Alone(Alone(s, u, 4), t, 7);
            && s'.pc == s.pc[u := Out][t := Owner] && s'.word == 2 && s'.queue == s.queue[1..]
            && s'.blocked == s.blocked[t := false] && s'.refs == s.refs - 1
  {
    UnlockWakesOne(s, u);
    ReferrersUpdate(s.pc, t, s.pc[t]);
    assert t !in s.queue[1..];
    hide Inv, Alone;
    WokenTakes(Alone(s, u, 4), t);
  }

  /** After a tick of the timer nobody is blocked or queued; everything else is as it was. */
  lemma TickWakes(s: System)
    requires Inv(s)
    ensures Tick(s).queue == [] && Tick(s) == s.(blocked := Tick(s).blocked, queue := [])
    ensures |Tick(s).blocked| == |s.blocked| && forall t :: 0 <= t < |s.blocked| ==> !Tick(s).blocked[t]
  {
    forall t | 0 <= t < |s.blocked| ensures !Tick(s).blocked[t] {
      assert t in s.queue <==> s.blocked[t];
    }
  }
}
