/** Runs of descriptor calls: what is read from a pipe is what was written to it. */
module FdRuns {
  import opened PipeRing
  import opened FdTables
  import opened Util

  /** The steps that the system calls consist of: `fork` is a new process and shared slots, `dup2` a cleared slot and
      a shared one, `close` and `exit` cleared slots. Steps of several processes interleave. */
  datatype Op =
    | NewProcess
    | NewPipe(p: nat, rfd: nat, wfd: nat)
    | Clear(p: nat, fd: nat)
    | Copy(p: nat, fd: nat, v: nat)
    | Write(p: nat, fd: nat, data: seq<byte>)
    | Read(p: nat, fd: nat, sz: nat)

  /** The descriptor tables, with what was written to each pipe and read from it so far. */
  datatype Traced = Traced(now: State, written: map<nat, seq<byte>>, read: map<nat, seq<byte>>)

  predicate IsSlot(s: State, p: nat, fd: nat) { p < |s.tables| && fd < |s.tables[p]| }

  /** The slot holds one end of pipe `q`. */
  predicate HoldsEnd(s: State, p: nat, fd: nat, q: nat, writer: bool) {
    && IsSlot(s, p, fd) && s.tables[p][fd].Some? && s.tables[p][fd].value in s.vnodes
    && s.vnodes[s.tables[p][fd].value].writer == writer && s.vnodes[s.tables[p][fd].value].pipe == q
  }

  function After(m: map<nat, seq<byte>>, q: nat, bytes: seq<byte>): map<nat, seq<byte>> {
    if q in m then m[q := m[q] + bytes] else m
  }

  ghost predicate Step(t: Traced, op: Op, t': Traced) {
    var s := t.now;
    match op
    case NewProcess => t' == t.(now := Spawned(s))
    case NewPipe(p, rfd, wfd) =>
      && IsSlot(s, p, rfd) && IsSlot(s, p, wfd) && rfd != wfd && s.tables[p][rfd] == s.tables[p][wfd] == None
      && t' == Traced(Installed(s, p, rfd, wfd), t.written[s.next := []], t.read[s.next := []])
    case Clear(p, fd) =>
      && IsSlot(s, p, fd) && s.tables[p][fd].Some? && s.tables[p][fd].value in s.vnodes
      && s.vnodes[s.tables[p][fd].value].refcount > 0 && s.vnodes[s.tables[p][fd].value].pipe in s.pipes
      && t' == t.(now := Cleared(s, p, fd))
    case Copy(p, fd, v) =>
      IsSlot(s, p, fd) && s.tables[p][fd] == None && v in s.vnodes && t' == t.(now := Shared(s, p, fd, v))
    case Write(p, fd, data) => exists q :: IsWrite(t, p, fd, q, data, t')
    case Read(p, fd, sz) => exists q :: IsRead(t, p, fd, q, sz, t')
  }

  /** A write to pipe `q`; what it took of the data is the first `n` bytes. */
  predicate IsWrite(t: Traced, p: nat, fd: nat, q: nat, data: seq<byte>, t': Traced) {
    && HoldsEnd(t.now, p, fd, q, true) && q in t.now.pipes && |t.now.pipes[q].contents| <= BBUF_CAP
    && var (pipe, r) := WriteTo(t.now.pipes[q], data);
       t' == Traced(Refilled(t.now, q, pipe.contents),
           After(t.written, q, if r.Wrote? && r.n <= |data| then data[..r.n] else []), t.read)
  }

  predicate IsRead(t: Traced, p: nat, fd: nat, q: nat, sz: nat, t': Traced) {
    && HoldsEnd(t.now, p, fd, q, false) && q in t.now.pipes
    && var (pipe, r) := ReadFrom(t.now.pipes[q], sz);
       t' == Traced(Refilled(t.now, q, pipe.contents), t.written, After(t.read, q, if r.Got? then r.data else []))
  }

  ghost predicate Joined(t: Traced) {
    && Valid(t.now)
    && forall q :: q in t.now.pipes ==>
         q in t.written && q in t.read && t.written[q] == t.read[q] + t.now.pipes[q].contents
  }

  lemma WriteKeeps(t: Traced, p: nat, fd: nat, q: nat, data: seq<byte>, t': Traced)
    requires Joined(t) && IsWrite(t, p, fd, q, data, t')
    ensures Joined(t')
  {
    var pipe := t.now.pipes[q];
    assert VnodeOk(t.now, t.now.tables[p][fd].value);
    RefilledValid(t.now, q, WriteTo(pipe, data).0.contents);
    StepKeepsStream(Stream(pipe, t.written[q], t.read[q]), PipeRing.Write(data),
                    Stream(WriteTo(pipe, data).0, t'.written[q], t'.read[q]));
    hide Valid;
  }

  lemma ReadKeeps(t: Traced, p: nat, fd: nat, q: nat, sz: nat, t': Traced)
    requires Joined(t) && IsRead(t, p, fd, q, sz, t')
    ensures Joined(t')
  {
    var pipe := t.now.pipes[q];
    assert VnodeOk(t.now, t.now.tables[p][fd].value) && PipeOk(t.now, q);
    RefilledValid(t.now, q, ReadFrom(pipe, sz).0.contents);
    StepKeepsStream(Stream(pipe, t.written[q], t.read[q]), PipeRing.Read(sz),
                    Stream(ReadFrom(pipe, sz).0, t'.written[q], t'.read[q]));
    hide Valid;
  }

  lemma ClearKeeps(t: Traced, p: nat, fd: nat, t': Traced)
    requires Joined(t) && Step(t, Clear(p, fd), t')
    ensures Joined(t')
  {
    ClearedValid(t.now, p, fd);
    hide Valid, VnodeOk;
  }

  lemma StepKeeps(t: Traced, op: Op, t': Traced)
    requires Joined(t) && Step(t, op, t')
    ensures Joined(t')
  {
    match op
    case NewProcess => SpawnedValid(t.now); hide Valid;
    case NewPipe(p, rfd, wfd) => InstalledValid(t.now, p, rfd, wfd); hide Valid;
    case Clear(p, fd) => ClearKeeps(t, p, fd, t');
    case Copy(p, fd, v) => SharedValid(t.now, p, fd, v); hide Valid;
    case Write(p, fd, data) =>
      var q :| IsWrite(t, p, fd, q, data, t');
      WriteKeeps(t, p, fd, q, data, t');
    case Read(p, fd, sz) =>
      var q :| IsRead(t, p, fd, q, sz, t');
      ReadKeeps(t, p, fd, q, sz, t');
  }

  ghost predicate IsRun(run: seq<Traced>, ops: seq<Op>) {
    && |run| == |ops| + 1 && run[0] == Traced(State([], map[], map[], 0), map[], map[])
    && forall i :: 0 <= i < |ops| ==> Step(run[i], ops[i], run[i + 1])
  }

  lemma {:induction false} RunKeeps(run: seq<Traced>, ops: seq<Op>, i: nat)
    requires IsRun(run, ops) && i < |run|
    ensures Joined(run[i])
  {
    if i > 0 {
      RunKeeps(run, ops, i - 1);
      assert Step(run[i - 1], ops[i - 1], run[i - 1 + 1]);
      hide Step, Joined;
      StepKeeps(run[i - 1], ops[i - 1], run[i]);
    }
  }

  /** In every state of every run, and for every pipe: what was read, followed by what is in the ring, is what was
      written; and a read of at least one byte reports the end of the file exactly if everything written was read and
      no process holds the write end any more. */
  lemma EofIffAllRead(run: seq<Traced>, ops: seq<Op>, i: nat, q: nat, sz: nat)
    requires IsRun(run, ops) && i < |run| && q in run[i].now.pipes && sz > 0
    ensures var t := run[i];
            && q in t.written && q in t.read && t.written[q] == t.read[q] + t.now.pipes[q].contents
            && (ReadFrom(t.now.pipes[q], sz).1 == Eof <==> t.read[q] == t.written[q] && !HoldsWriter(t.now, q))
  {
    RunKeeps(run, ops, i);
    EofIffNoWriter(run[i].now, q, sz);
    hide Valid, HoldsWriter;
  }

  // ----- Runs of whole calls -----

  datatype Call =
    | Spawn
    | MakePipe(p: nat)
    | Close(p: nat, fd: nat)
    | Dup2(p: nat, oldfd: nat, newfd: nat)
    | Fork(p: nat)
    | Exit(p: nat)
    | ReadFd(p: nat, fd: nat, sz: nat)
    | WriteFd(p: nat, fd: nat, data: seq<byte>)

  /** What a call did to a pipe: bytes put in, bytes taken out, or the end of the file reported. */
  datatype Event = Nothing | Put(q: nat, data: seq<byte>) | Taken(q: nat, data: seq<byte>) | End(q: nat)

  /** Only writes put bytes in, some of theirs; only reads take bytes out, or report the end. */
  predicate Answers(c: Call, e: Event) {
    match e
    case Nothing => true
    case Put(_, data) => c.WriteFd? && data <= c.data
    case Taken(_, data) => c.ReadFd? && |data| <= c.sz
    case End(_) => c.ReadFd?
  }

  function Written(log: seq<Event>, q: nat): seq<byte> {
    if log == [] then []
    else
      var e := log[|log| - 1];
      Written(log[..|log| - 1], q) + (if e.Put? && e.q == q then e.data else [])
  }

  function ReadSoFar(log: seq<Event>, q: nat): seq<byte> {
    if log == [] then []
    else
      var e := log[|log| - 1];
      ReadSoFar(log[..|log| - 1], q) + (if e.Taken? && e.q == q then e.data else [])
  }

  predicate Flow(s: State, log: seq<Event>, q: nat) {
    q in s.pipes ==> Written(log, q) == ReadSoFar(log, q) + s.pipes[q].contents
  }

  /** What was read from a pipe, followed by what is in it, is what was written to it; names from the next one on were
      never used. */
  ghost predicate Logged(s: State, log: seq<Event>) {
    && Valid(s) && (forall q: nat :: Flow(s, log, q))
    && forall e :: e in log && !e.Nothing? ==> e.q < s.next
  }

  /** Since event `i`, an end of the file, the pipe has no writer, and nothing was written but what had been read. */
  ghost predicate Ended(s: State, log: seq<Event>, i: nat)
    requires i < |log| && log[i].End?
  {
    && (log[i].q in s.pipes ==> s.pipes[log[i].q].writeClosed)
    && Written(log, log[i].q) == ReadSoFar(log[..i], log[i].q)
  }

  ghost predicate EndsFinal(s: State, log: seq<Event>) {
    forall i: nat :: i < |log| && log[i].End? ==> Ended(s, log, i)
  }

  lemma LogGrows(log: seq<Event>, e: Event, q: nat)
    ensures Written(log + [e], q) == Written(log, q) + (if e.Put? && e.q == q then e.data else [])
    ensures ReadSoFar(log + [e], q) == ReadSoFar(log, q) + (if e.Taken? && e.q == q then e.data else [])
  {
    assert (log + [e])[..|log|] == log;
  }

  lemma {:induction false} UnusedName(log: seq<Event>, q: nat)
    requires forall e :: e in log && !e.Nothing? ==> e.q < q
    ensures Written(log, q) == [] && ReadSoFar(log, q) == []
  {
    if log != [] {
      assert log[|log| - 1] in log;
      UnusedName(log[..|log| - 1], q);
    }
  }

  /** An end of the pipe that is closed stays closed. */
  lemma StaysClosed(s: State, s': State, q: nat)
    requires Valid(s) && Valid(s') && Kept(s, s') && q in s'.pipes && s.pipes[q].writeClosed
    ensures s'.pipes[q].writeClosed
  {
    assert PipeOk(s', q);
    assert q in s.vnodes ==> VnodeOk(s, q);
    hide Count;
  }

  lemma KeptLogged(s: State, s': State, log: seq<Event>)
    requires Logged(s, log) && Valid(s') && Kept(s, s')
    ensures Logged(s', log + [Nothing])
  {
    hide Valid;
    forall q: nat ensures Flow(s', log + [Nothing], q) {
      assert Flow(s, log, q);
      LogGrows(log, Nothing, q);
    }
    hide Flow;
  }

  lemma InstalledLogged(s: State, log: seq<Event>, p: nat, rfd: nat, wfd: nat)
    requires Logged(s, log) && p < |s.tables| && rfd < |s.tables[p]| && wfd < |s.tables[p]| && rfd != wfd
    requires s.tables[p][rfd] == s.tables[p][wfd] == None && Valid(Installed(s, p, rfd, wfd))
    ensures Logged(Installed(s, p, rfd, wfd), log + [Nothing])
  {
    UnusedName(log, s.next);
    hide Valid;
    forall q: nat ensures Flow(Installed(s, p, rfd, wfd), log + [Nothing], q) {
      assert Flow(s, log, q);
      LogGrows(log, Nothing, q);
    }
    hide Flow;
  }

  /** A later event other than a write to a pipe that had ended keeps the ends final. */
  lemma EndStays(s: State, s': State, log: seq<Event>, e: Event, i: nat)
    requires i < |log| && log[i].End? && Ended(s, log, i) && (e.Put? ==> e.q != log[i].q)
    requires log[i].q in s'.pipes ==> log[i].q in s.pipes && (s.pipes[log[i].q].writeClosed ==>
               s'.pipes[log[i].q].writeClosed)
    ensures Ended(s', log + [e], i)
  {
    LogGrows(log, e, log[i].q);
    assert (log + [e])[..i] == log[..i];
  }

  lemma KeptEnds(s: State, s': State, log: seq<Event>)
    requires Valid(s) && Valid(s') && Kept(s, s') && EndsFinal(s, log)
    ensures EndsFinal(s', log + [Nothing])
  {
    forall i: nat | i < |log| && log[i].End? ensures Ended(s', log + [Nothing], i) {
      assert Ended(s, log, i);
      if log[i].q in s'.pipes && s.pipes[log[i].q].writeClosed { StaysClosed(s, s', log[i].q); }
      hide Valid;
      EndStays(s, s', log, Nothing, i);
    }
    hide Ended, Valid, Kept;
  }

  lemma InstalledEnds(s: State, log: seq<Event>, p: nat, rfd: nat, wfd: nat)
    requires Logged(s, log) && EndsFinal(s, log) && p < |s.tables| && rfd < |s.tables[p]| && wfd < |s.tables[p]|
    ensures EndsFinal(Installed(s, p, rfd, wfd), log + [Nothing])
  {
    hide Valid;
    forall i: nat | i < |log| && log[i].End? ensures Ended(Installed(s, p, rfd, wfd), log + [Nothing], i) {
      assert Ended(s, log, i) && log[i] in log;
      EndStays(s, Installed(s, p, rfd, wfd), log, Nothing, i);
    }
    hide Ended;
  }

  /** The calls that change the tables. */
  method TableCall(sys: System, c: Call, ghost log: seq<Event>)
    requires Logged(sys.Now(), log) && EndsFinal(sys.Now(), log)
    modifies sys
    ensures Logged(sys.Now(), log + [Nothing]) && EndsFinal(sys.Now(), log + [Nothing])
  {
    ghost var s := sys.Now();
    assert Kept(s, s) && Kept(s, Spawned(s));
    hide Valid, Kept, EndsFinal;
    if c.MakePipe? && c.p < |sys.tables| {
      var r := sys.MakePipe(c.p);
      if r.Some? {
        InstalledLogged(s, log, c.p, r.value.0, r.value.1);
        InstalledEnds(s, log, c.p, r.value.0, r.value.1);
        return;
      }
    } else {
      KeptCall(sys, c);
    }
    KeptLogged(s, sys.Now(), log);
    KeptEnds(s, sys.Now(), log);
  }

  method KeptCall(sys: System, c: Call)
    requires Valid(sys.Now())
    modifies sys
    ensures Valid(sys.Now()) && Kept(old(sys.Now()), sys.Now())
  {
    ghost var s := sys.Now();
    assert Kept(s, s) && Kept(s, Spawned(s));
    hide Valid, Kept;
    if c.Spawn? {
      sys.Spawn();
    } else if c.p < |sys.tables| {
      match c
      case Close(p, fd) => var _ := sys.Close(p, fd);
      case Dup2(p, oldfd, newfd) => var _ := sys.Dup2(p, oldfd, newfd);
      case Fork(p) => sys.Fork(p);
      case Exit(p) => sys.Exit(p);
      case _ =>
    }
  }

  /** Bytes put in, or taken out, of one pipe, and its event. */
  lemma RefilledLogged(s: State, log: seq<Event>, q: nat, bytes: seq<byte>, e: Event)
    requires Logged(s, log) && q in s.pipes && Valid(Refilled(s, q, bytes)) && (!e.Nothing? ==> e.q == q)
    requires if e.Put? then bytes == s.pipes[q].contents + e.data
             else s.pipes[q].contents == (if e.Taken? then e.data else []) + bytes
    ensures Logged(Refilled(s, q, bytes), log + [e])
  {
    assert PipeOk(s, q);
    hide Valid, PipeOk;
    forall r: nat ensures Flow(Refilled(s, q, bytes), log + [e], r) {
      assert Flow(s, log, r);
      RefilledFlow(s, log, q, bytes, e, r);
    }
    hide Flow;
  }

  lemma RefilledFlow(s: State, log: seq<Event>, q: nat, bytes: seq<byte>, e: Event, r: nat)
    requires Flow(s, log, r) && q in s.pipes && (!e.Nothing? ==> e.q == q)
    requires if e.Put? then bytes == s.pipes[q].contents + e.data
             else s.pipes[q].contents == (if e.Taken? then e.data else []) + bytes
    ensures Flow(Refilled(s, q, bytes), log + [e], r)
  {
    LogGrows(log, e, r);
    hide Written, ReadSoFar;
  }

  /** A change of one pipe's bytes keeps the ends final, unless it puts bytes in after the end. */
  lemma RefilledEnds(s: State, log: seq<Event>, q: nat, bytes: seq<byte>, e: Event)
    requires EndsFinal(s, log) && q in s.pipes && (e.Put? ==> e.q == q && !s.pipes[q].writeClosed)
    requires e.End? ==> e.q == q && s.pipes[q].writeClosed && Flow(s, log, q) && s.pipes[q].contents == []
    ensures EndsFinal(Refilled(s, q, bytes), log + [e])
  {
    var s' := Refilled(s, q, bytes);
    LogGrows(log, e, q);
    assert (log + [e])[..|log|] == log;
    forall i: nat | i < |log| + 1 && (log + [e])[i].End? ensures Ended(s', log + [e], i) {
      if i < |log| {
        assert Ended(s, log, i);
        EndStays(s, s', log, e, i);
      }
    }
    hide Ended;
  }

  function ReadEvent(q: nat, r: ReadResult): Event {
    match r
    case ReadBlocked => Nothing
    case Eof => End(q)
    case Got(data) => Taken(q, data)
  }

  function WriteEvent(q: nat, r: WriteResult, data: seq<byte>): Event {
    if r.Wrote? && r.n <= |data| then Put(q, data[..r.n]) else Nothing
  }

  lemma ReadLogged(s: State, log: seq<Event>, q: nat, sz: nat)
    requires Logged(s, log) && EndsFinal(s, log) && q in s.pipes
    ensures var (pipe, r) := ReadFrom(s.pipes[q], sz);
            && pipe == s.pipes[q].(contents := pipe.contents)
            && Logged(Refilled(s, q, pipe.contents), log + [ReadEvent(q, r)])
            && EndsFinal(Refilled(s, q, pipe.contents), log + [ReadEvent(q, r)])
  {
    var data, n := s.pipes[q].contents, Min(sz, |s.pipes[q].contents|);
    var (pipe, r) := ReadFrom(s.pipes[q], sz);
    assert PipeOk(s, q) && Flow(s, log, q);
    assert data == data[..n] + data[n..] && data == [] + data;
    RefilledValid(s, q, pipe.contents);
    RefilledEnds(s, log, q, pipe.contents, ReadEvent(q, r));
    hide Valid, Logged;
    RefilledLogged(s, log, q, pipe.contents, ReadEvent(q, r));
  }

  lemma WriteLogged(s: State, log: seq<Event>, q: nat, data: seq<byte>)
    requires Logged(s, log) && EndsFinal(s, log) && q in s.pipes && |s.pipes[q].contents| <= BBUF_CAP
    requires !s.pipes[q].writeClosed
    ensures var (pipe, r) := WriteTo(s.pipes[q], data);
            && pipe == s.pipes[q].(contents := pipe.contents)
            && Logged(Refilled(s, q, pipe.contents), log + [WriteEvent(q, r, data)])
            && EndsFinal(Refilled(s, q, pipe.contents), log + [WriteEvent(q, r, data)])
  {
    var (pipe, r) := WriteTo(s.pipes[q], data);
    assert s.pipes[q].contents == [] + s.pipes[q].contents;
    RefilledValid(s, q, pipe.contents);
    RefilledEnds(s, log, q, pipe.contents, WriteEvent(q, r, data));
    hide Valid, Logged;
    RefilledLogged(s, log, q, pipe.contents, WriteEvent(q, r, data));
  }

  method ReadCall(sys: System, p: nat, fd: nat, sz: nat, ghost log: seq<Event>) returns (e: Event)
    requires Logged(sys.Now(), log) && EndsFinal(sys.Now(), log) && p < |sys.tables|
    modifies sys
    ensures Logged(sys.Now(), log + [e]) && EndsFinal(sys.Now(), log + [e]) && Answers(ReadFd(p, fd, sz), e)
  {
    ghost var s := sys.Now();
    assert Kept(s, s);
    KeptLogged(s, s, log);
    KeptEnds(s, s, log);
    hide Valid, Kept, EndsFinal, Logged, HoldsWriter;
    var r := sys.ReadFd(p, fd, sz);
    if r.None? {
      return Nothing;
    }
    var q := sys.vnodes[sys.tables[p][fd].value].pipe;
    ReadLogged(s, log, q, sz);
    assert sys.Now() == Refilled(s, q, ReadFrom(s.pipes[q], sz).0.contents);
    return ReadEvent(q, r.value);
  }

  method WriteCall(sys: System, p: nat, fd: nat, data: seq<byte>, ghost log: seq<Event>) returns (e: Event)
    requires Logged(sys.Now(), log) && EndsFinal(sys.Now(), log) && p < |sys.tables|
    modifies sys
    ensures Logged(sys.Now(), log + [e]) && EndsFinal(sys.Now(), log + [e]) && Answers(WriteFd(p, fd, data), e)
  {
    ghost var s := sys.Now();
    assert Kept(s, s);
    KeptLogged(s, s, log);
    KeptEnds(s, s, log);
    assert forall v :: v in s.vnodes ==> VnodeOk(s, v);
    hide Valid, Kept, EndsFinal, Logged, Count;
    var r := sys.WriteFd(p, fd, data);
    if r.None? {
      return Nothing;
    }
    var q := sys.vnodes[sys.tables[p][fd].value].pipe;
    WriteLogged(s, log, q, data);
    assert sys.Now() == Refilled(s, q, WriteTo(s.pipes[q], data).0.contents);
    return WriteEvent(q, r.value, data);
  }

  /** What is written to the second descriptor of a new pipe comes out of the first. */
  method PipeCarries(sys: System, p: nat, data: seq<byte>) returns (r: Option<(nat, nat)>, got: Option<ReadResult>)
    requires Valid(sys.Now()) && p < |sys.tables| && 0 < |data| <= BBUF_CAP
    modifies sys
    ensures Valid(sys.Now()) && (r.Some? ==> got == Some(Got(data)))
  {
    r := sys.MakePipe(p);
    got := None;
    if r.Some? {
      var (rfd, wfd) := r.value;
      assert |sys.tables[p]| == MAX_FD;
      hide Valid, HoldsWriter;
      var w := sys.WriteFd(p, wfd, data);
      assert [] + data == data && data[..|data|] == data;
      got := sys.ReadFd(p, rfd, |data|);
    }
  }

  /** Any sequence of calls of any processes. What was read from a pipe, followed by what is in it, is what was
      written to it; and if a read reported the end of the file, then it is final: all that is ever written to the
      pipe, in the whole run, had been read by then. */
  method Run(calls: seq<Call>) returns (sys: System, log: seq<Event>)
    ensures Valid(sys.Now()) && |log| == |calls| && forall i :: 0 <= i < |log| ==> Answers(calls[i], log[i])
    ensures forall q :: q in sys.pipes ==> Written(log, q) == ReadSoFar(log, q) + sys.pipes[q].contents
    ensures forall i :: 0 <= i < |log| && log[i].End? ==> Written(log, log[i].q) == ReadSoFar(log[..i], log[i].q)
  {
    sys := new System();
    log := [];
    for i := 0 to |calls|
      invariant fresh(sys) && Logged(sys.Now(), log) && EndsFinal(sys.Now(), log) && |log| == i
      invariant forall k :: 0 <= k < i ==> Answers(calls[k], log[k])
    {
      hide Logged, EndsFinal;
      var e := Nothing;
      if calls[i].ReadFd? && calls[i].p < |sys.tables| {
        e := ReadCall(sys, calls[i].p, calls[i].fd, calls[i].sz, log);
      } else if calls[i].WriteFd? && calls[i].p < |sys.tables| {
        e := WriteCall(sys, calls[i].p, calls[i].fd, calls[i].data, log);
      } else {
        TableCall(sys, calls[i], log);
      }
      log := log + [e];
    }
    forall q | q in sys.pipes ensures Written(log, q) == ReadSoFar(log, q) + sys.pipes[q].contents {
      assert Flow(sys.Now(), log, q);
    }
    forall i | 0 <= i < |log| && log[i].End? ensures Written(log, log[i].q) == ReadSoFar(log[..i], log[i].q) {
      assert Ended(sys.Now(), log, i);
    }
  }
}
