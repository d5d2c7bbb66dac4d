/** Descriptor tables and the reference counts of pipe vnodes. */
module FdTables {
  import opened PipeRing
  import opened Util

  const MAX_FD := 8

  /** One end of a pipe. */
  datatype Vnode = Vnode(pipe: nat, writer: bool, refcount: nat)

  type Table = seq<Option<nat>>

  /** Descriptor slots that hold vnode `v`. */
  function CountIn(t: Table, v: nat): nat {
    if t == [] then 0 else CountIn(t[1..], v) + (if t[0] == Some(v) then 1 else 0)
  }

  function Count(ts: seq<Table>, v: nat): nat {
    if ts == [] then 0 else Count(ts[1..], v) + CountIn(ts[0], v)
  }

  lemma {:induction false} CountInSplit(a: Table, b: Table, v: nat)
    ensures CountIn(a + b, v) == CountIn(a, v) + CountIn(b, v)
  {
    if a == [] {
      assert a + b == b;
    } else {
      assert (a + b)[1..] == a[1..] + b;
      CountInSplit(a[1..], b, v);
    }
  }

  lemma CountInUpdate(t: Table, fd: nat, x: Option<nat>, v: nat)
    requires fd < |t|
    ensures CountIn(t[fd := x], v) ==
            CountIn(t, v) - (if t[fd] == Some(v) then 1 else 0) + (if x == Some(v) then 1 else 0)
    ensures t[fd] == Some(v) ==> CountIn(t, v) > 0
  {
    CountInSplit(t[..fd], [t[fd]] + t[fd + 1..], v);
    CountInSplit([t[fd]], t[fd + 1..], v);
    CountInSplit(t[..fd], [x] + t[fd + 1..], v);
    CountInSplit([x], t[fd + 1..], v);
    assert t == t[..fd] + ([t[fd]] + t[fd + 1..]);
    assert t[fd := x] == t[..fd] + ([x] + t[fd + 1..]);
  }

  lemma {:induction false} CountSplit(a: seq<Table>, b: seq<Table>, v: nat)
    ensures Count(a + b, v) == Count(a, v) + Count(b, v)
  {
    if a == [] {
      assert a + b == b;
    } else {
      assert (a + b)[1..] == a[1..] + b;
      CountSplit(a[1..], b, v);
    }
  }

  lemma CountUpdate(ts: seq<Table>, p: nat, t: Table, v: nat)
    requires p < |ts|
    ensures Count(ts[p := t], v) == Count(ts, v) - CountIn(ts[p], v) + CountIn(t, v)
    ensures CountIn(ts[p], v) <= Count(ts, v)
  {
    CountSplit(ts[..p], [ts[p]] + ts[p + 1..], v);
    CountSplit([ts[p]], ts[p + 1..], v);
    CountSplit(ts[..p], [t] + ts[p + 1..], v);
    CountSplit([t], ts[p + 1..], v);
    assert ts == ts[..p] + ([ts[p]] + ts[p + 1..]);
    assert ts[p := t] == ts[..p] + ([t] + ts[p + 1..]);
  }

  /** Setting one slot. */
  lemma CountSet(ts: seq<Table>, p: nat, fd: nat, x: Option<nat>, v: nat)
    requires p < |ts| && fd < |ts[p]|
    ensures Count(ts[p := ts[p][fd := x]], v)
            == Count(ts, v) - (if ts[p][fd] == Some(v) then 1 else 0) + (if x == Some(v) then 1 else 0)
    ensures ts[p][fd] == Some(v) ==> Count(ts, v) > 0
  {
    CountUpdate(ts, p, ts[p][fd := x], v);
    CountInUpdate(ts[p], fd, x, v);
  }

  lemma {:induction false} CountInFinds(t: Table, v: nat)
    requires CountIn(t, v) > 0
    ensures exists fd :: 0 <= fd < |t| && t[fd] == Some(v)
  {
    if t[0] != Some(v) {
      CountInFinds(t[1..], v);
      var fd :| 0 <= fd < |t[1..]| && t[1..][fd] == Some(v);
      assert t[fd + 1] == Some(v);
    } else {
      assert t[0] == Some(v);
    }
  }

  /** A counted vnode is in some slot. */
  lemma {:induction false} CountFinds(ts: seq<Table>, v: nat) returns (p: nat, fd: nat)
    requires Count(ts, v) > 0
    ensures p < |ts| && fd < |ts[p]| && ts[p][fd] == Some(v)
  {
    if CountIn(ts[0], v) > 0 {
      CountInFinds(ts[0], v);
      p := 0;
      fd :| fd < |ts[0]| && ts[0][fd] == Some(v);
    } else {
      p, fd := CountFinds(ts[1..], v);
      p := p + 1;
    }
  }

  lemma {:induction false} Empty(t: Table, v: nat)
    requires forall i :: 0 <= i < |t| ==> t[i] == None
    ensures CountIn(t, v) == 0
  {
    if t != [] { Empty(t[1..], v); }
  }

  // ----- The state of all descriptor tables -----

  /** All processes' tables, the vnodes and pipes they refer to, and a name above all in use. A pipe and the vnode of
      its write end are named alike; its read end is named one above. */
  datatype State = State(tables: seq<Table>, vnodes: map<nat, Vnode>, pipes: map<nat, Pipe>, next: nat)

  predicate SlotOk(s: State, p: nat, fd: nat) {
    p < |s.tables| && fd < |s.tables[p]| && s.tables[p][fd].Some? ==> s.tables[p][fd].value in s.vnodes
  }

  /** The reference count of a vnode is the number of slots that hold it, and its end of its pipe is open. */
  predicate VnodeOk(s: State, v: nat)
    requires v in s.vnodes
  {
    var x := s.vnodes[v];
    && x.refcount == Count(s.tables, v) > 0 && v < s.next && x.pipe in s.pipes
    && (if x.writer then v == x.pipe && !s.pipes[x.pipe].writeClosed
        else v == x.pipe + 1 && !s.pipes[x.pipe].readClosed)
  }

  /** An open end has its vnode; a pipe has an open end. */
  predicate PipeOk(s: State, q: nat)
    requires q in s.pipes
  {
    && (!s.pipes[q].writeClosed ==> q in s.vnodes && s.vnodes[q].writer && s.vnodes[q].pipe == q)
    && (!s.pipes[q].readClosed ==> q + 1 in s.vnodes && !s.vnodes[q + 1].writer && s.vnodes[q + 1].pipe == q)
    && !(s.pipes[q].writeClosed && s.pipes[q].readClosed)
    && |s.pipes[q].contents| <= BBUF_CAP && q < s.next
  }

  ghost predicate Valid(s: State) {
    && (forall p :: 0 <= p < |s.tables| ==> |s.tables[p]| == MAX_FD)
    && (forall p: nat, fd: nat :: SlotOk(s, p, fd))
    && (forall v :: v in s.vnodes ==> VnodeOk(s, v))
    && (forall q :: q in s.pipes ==> PipeOk(s, q))
  }

  lemma Held(s: State, v: nat)
    requires (forall p: nat, fd: nat :: SlotOk(s, p, fd)) && Count(s.tables, v) > 0
    ensures v in s.vnodes
  {
    var p, fd := CountFinds(s.tables, v);
    assert SlotOk(s, p, fd);
  }

  lemma NotHeld(s: State, v: nat)
    requires (forall p: nat, fd: nat :: SlotOk(s, p, fd)) && v !in s.vnodes
    ensures Count(s.tables, v) == 0
  {
    if Count(s.tables, v) > 0 { Held(s, v); }
  }

  // ----- Releasing a slot -----

  /** The pipe with the end of `x` closed, or gone if that was the last. */
  function Closed(ps: map<nat, Pipe>, x: Vnode): map<nat, Pipe>
    requires x.pipe in ps
  {
    var p := if x.writer then ps[x.pipe].(writeClosed := true) else ps[x.pipe].(readClosed := true);
    if p.writeClosed && p.readClosed then ps - {x.pipe} else ps[x.pipe := p]
  }

  /** The slot cleared, the vnode's reference dropped, and the vnode deleted if it was the last. */
  function Cleared(s: State, p: nat, fd: nat): State
    requires p < |s.tables| && fd < |s.tables[p]| && s.tables[p][fd].Some? && s.tables[p][fd].value in s.vnodes
    requires s.vnodes[s.tables[p][fd].value].refcount > 0 && s.vnodes[s.tables[p][fd].value].pipe in s.pipes
  {
    var v := s.tables[p][fd].value;
    var x := s.vnodes[v];
    var ts := s.tables[p := s.tables[p][fd := None]];
    if x.refcount == 1 then State(ts, s.vnodes - {v}, Closed(s.pipes, x), s.next)
    else State(ts, s.vnodes[v := x.(refcount := x.refcount - 1)], s.pipes, s.next)
  }

  lemma ClearedValid(s: State, p: nat, fd: nat)
    requires Valid(s) && p < |s.tables| && fd < |s.tables[p]| && s.tables[p][fd].Some?
    ensures s.tables[p][fd].value in s.vnodes && VnodeOk(s, s.tables[p][fd].value) && Valid(Cleared(s, p, fd))
  {
    assert SlotOk(s, p, fd);
    var v := s.tables[p][fd].value;
    assert VnodeOk(s, v);
    var s' := Cleared(s, p, fd);
    ClearedSlots(s, p, fd);
    assert forall w :: w in s.vnodes ==> VnodeOk(s, w);
    assert forall q :: q in s.pipes ==> PipeOk(s, q);
    hide Count, SlotOk, PipeOk, VnodeOk;
    forall w | w in s'.vnodes ensures VnodeOk(s', w) { ClearedVnode(s, p, fd, w); }
    forall q | q in s'.pipes ensures PipeOk(s', q) { ClearedPipe(s, p, fd, q); }
  }

  lemma ClearedVnode(s: State, p: nat, fd: nat, w: nat)
    requires p < |s.tables| && fd < |s.tables[p]| && s.tables[p][fd].Some? && s.tables[p][fd].value in s.vnodes
    requires VnodeOk(s, s.tables[p][fd].value) && w in Cleared(s, p, fd).vnodes && VnodeOk(s, w)
    ensures VnodeOk(Cleared(s, p, fd), w)
  {
    CountSet(s.tables, p, fd, None, w);
    hide Count;
  }

  lemma ClearedPipe(s: State, p: nat, fd: nat, q: nat)
    requires p < |s.tables| && fd < |s.tables[p]| && s.tables[p][fd].Some? && s.tables[p][fd].value in s.vnodes
    requires VnodeOk(s, s.tables[p][fd].value) && q in s.pipes && PipeOk(s, q) && q in Cleared(s, p, fd).pipes
    ensures PipeOk(Cleared(s, p, fd), q)
  {
  }

  lemma ClearedSlots(s: State, p: nat, fd: nat)
    requires p < |s.tables| && fd < |s.tables[p]| && s.tables[p][fd].Some? && s.tables[p][fd].value in s.vnodes
    requires VnodeOk(s, s.tables[p][fd].value) && forall a: nat, b: nat :: SlotOk(s, a, b)
    ensures forall a: nat, b: nat :: SlotOk(Cleared(s, p, fd), a, b)
  {
    var s', v := Cleared(s, p, fd), s.tables[p][fd].value;
    CountSet(s.tables, p, fd, None, v);
    forall a: nat, b: nat ensures SlotOk(s', a, b) {
      assert SlotOk(s, a, b);
      if a < |s'.tables| && b < |s'.tables[a]| && s'.tables[a][b] == Some(v) { CountSet(s'.tables, a, b, None, v); }
      hide Count;
    }
  }

  // ----- One more reference -----

  function Shared(s: State, p: nat, fd: nat, v: nat): State
    requires p < |s.tables| && fd < |s.tables[p]| && v in s.vnodes
  {
    s.(tables := s.tables[p := s.tables[p][fd := Some(v)]],
        vnodes := s.vnodes[v := s.vnodes[v].(refcount := s.vnodes[v].refcount + 1)])
  }

  lemma SharedValid(s: State, p: nat, fd: nat, v: nat)
    requires Valid(s) && p < |s.tables| && fd < |s.tables[p]| && s.tables[p][fd] == None && v in s.vnodes
    ensures Valid(Shared(s, p, fd, v))
  {
    var s' := Shared(s, p, fd, v);
    forall a: nat, b: nat ensures SlotOk(s', a, b) { assert SlotOk(s, a, b); }
    hide Count, SlotOk, VnodeOk;
    forall w | w in s'.vnodes ensures VnodeOk(s', w) { SharedVnode(s, p, fd, v, w); }
    forall q | q in s'.pipes ensures PipeOk(s', q) { assert PipeOk(s, q); }
  }

  lemma SharedVnode(s: State, p: nat, fd: nat, v: nat, w: nat)
    requires p < |s.tables| && fd < |s.tables[p]| && s.tables[p][fd] == None && v in s.vnodes && w in s.vnodes
    requires VnodeOk(s, w)
    ensures VnodeOk(Shared(s, p, fd, v), w)
  {
    CountSet(s.tables, p, fd, Some(v), w);
    hide Count;
  }

  // ----- A new pipe -----

  function Installed(s: State, p: nat, rfd: nat, wfd: nat): State
    requires p < |s.tables| && rfd < |s.tables[p]| && wfd < |s.tables[p]|
  {
    var q := s.next;
    State(s.tables[p := s.tables[p][wfd := Some(q)][rfd := Some(q + 1)]],
          s.vnodes[q := Vnode(q, true, 1)][q + 1 := Vnode(q, false, 1)],
          s.pipes[q := Pipe([], false, false)], q + 2)
  }

  lemma InstalledCounts(s: State, p: nat, rfd: nat, wfd: nat, w: nat)
    requires p < |s.tables| && rfd < |s.tables[p]| && wfd < |s.tables[p]| && rfd != wfd
    requires s.tables[p][rfd] == None && s.tables[p][wfd] == None
    ensures Count(Installed(s, p, rfd, wfd).tables, w) ==
            Count(s.tables, w) + (if w == s.next || w == s.next + 1 then 1 else 0)
  {
    var q, ts := s.next, s.tables;
    var t1 := ts[p := ts[p][wfd := Some(q)]];
    CountSet(ts, p, wfd, Some(q), w);
    CountSet(t1, p, rfd, Some(q + 1), w);
    assert t1[p := t1[p][rfd := Some(q + 1)]] == Installed(s, p, rfd, wfd).tables;
  }

  lemma InstalledValid(s: State, p: nat, rfd: nat, wfd: nat)
    requires Valid(s) && p < |s.tables| && rfd < |s.tables[p]| && wfd < |s.tables[p]| && rfd != wfd
    requires s.tables[p][rfd] == None && s.tables[p][wfd] == None
    ensures Valid(Installed(s, p, rfd, wfd))
    ensures s.next !in s.vnodes && s.next + 1 !in s.vnodes && s.next !in s.pipes
  {
    var s', q := Installed(s, p, rfd, wfd), s.next;
    assert forall w :: w in s.vnodes ==> VnodeOk(s, w);
    assert forall r :: r in s.pipes ==> PipeOk(s, r);
    NotHeld(s, q);
    NotHeld(s, q + 1);
    hide Count, SlotOk, PipeOk, VnodeOk;
    forall a: nat, b: nat ensures SlotOk(s', a, b) { assert SlotOk(s, a, b); InstalledSlot(s, p, rfd, wfd, a, b); }
    forall r | r in s'.pipes ensures PipeOk(s', r) { InstalledPipe(s, p, rfd, wfd, r); }
    forall w | w in s'.vnodes ensures VnodeOk(s', w) { InstalledVnode(s, p, rfd, wfd, w); }
  }

  lemma InstalledSlot(s: State, p: nat, rfd: nat, wfd: nat, a: nat, b: nat)
    requires p < |s.tables| && rfd < |s.tables[p]| && wfd < |s.tables[p]| && SlotOk(s, a, b)
    ensures SlotOk(Installed(s, p, rfd, wfd), a, b)
  {
  }

  lemma InstalledPipe(s: State, p: nat, rfd: nat, wfd: nat, r: nat)
    requires p < |s.tables| && rfd < |s.tables[p]| && wfd < |s.tables[p]| && r in Installed(s, p, rfd, wfd).pipes
    requires r != s.next ==> PipeOk(s, r) && s.next !in s.vnodes && s.next + 1 !in s.vnodes
    ensures PipeOk(Installed(s, p, rfd, wfd), r)
  {
  }

  lemma InstalledVnode(s: State, p: nat, rfd: nat, wfd: nat, w: nat)
    requires p < |s.tables| && rfd < |s.tables[p]| && wfd < |s.tables[p]| && rfd != wfd
    requires s.tables[p][rfd] == None && s.tables[p][wfd] == None && w in Installed(s, p, rfd, wfd).vnodes
    requires if w == s.next || w == s.next + 1 then Count(s.tables, w) == 0 else VnodeOk(s, w) && s.next !in s.pipes
    ensures VnodeOk(Installed(s, p, rfd, wfd), w)
  {
    InstalledCounts(s, p, rfd, wfd, w);
    hide Count;
  }

  // ----- A new process, and reading -----

  function Spawned(s: State): State { s.(tables := s.tables + [seq(MAX_FD, i => None)]) }

  lemma SpawnedValid(s: State)
    requires Valid(s)
    ensures Valid(Spawned(s))
  {
    var s', t := Spawned(s), seq(MAX_FD, i => None);
    forall w ensures Count(s'.tables, w) == Count(s.tables, w) {
      CountSplit(s.tables, [t], w);
      Empty(t, w);
      assert Count([t], w) == Count([t][1..], w) + CountIn(t, w);
    }
    forall a: nat, b: nat ensures SlotOk(s', a, b) { assert SlotOk(s, a, b); }
    hide Count, SlotOk;
    forall w | w in s'.vnodes ensures VnodeOk(s', w) { assert VnodeOk(s, w); }
    forall q | q in s'.pipes ensures PipeOk(s', q) { assert PipeOk(s, q); }
  }

  /** Some process has the write end of the pipe in a slot. */
  ghost predicate HoldsWriter(s: State, q: nat) {
    exists p: nat, fd: nat :: IsWriterSlot(s, p, fd, q)
  }

  predicate IsWriterSlot(s: State, p: nat, fd: nat, q: nat) {
    && p < |s.tables| && fd < |s.tables[p]| && s.tables[p][fd].Some? && s.tables[p][fd].value in s.vnodes
    && s.vnodes[s.tables[p][fd].value].pipe == q && s.vnodes[s.tables[p][fd].value].writer
  }

  /** The write end is open exactly as long as some slot holds it. */
  lemma WriterHeld(s: State, q: nat)
    requires Valid(s) && q in s.pipes
    ensures s.pipes[q].writeClosed <==> !HoldsWriter(s, q)
  {
    assert PipeOk(s, q);
    if !s.pipes[q].writeClosed {
      assert VnodeOk(s, q);
      var p, fd := CountFinds(s.tables, q);
      assert IsWriterSlot(s, p, fd, q);
    }
    if p: nat, fd: nat :| IsWriterSlot(s, p, fd, q) {
      assert VnodeOk(s, s.tables[p][fd].value);
    }
  }

  /** End of file: a read of at least one byte reports it exactly when the pipe is drained and no process has its
      write end any more. */
  lemma EofIffNoWriter(s: State, q: nat, sz: nat)
    requires Valid(s) && q in s.pipes && sz > 0
    ensures ReadFrom(s.pipes[q], sz).1 == Eof <==> s.pipes[q].contents == [] && !HoldsWriter(s, q)
  {
    WriterHeld(s, q);
  }

  /** The bytes in a pipe can change while everything else stays. */
  function Refilled(s: State, q: nat, bytes: seq<byte>): State
    requires q in s.pipes
  {
    s.(pipes := s.pipes[q := s.pipes[q].(contents := bytes)])
  }

  lemma RefilledValid(s: State, q: nat, bytes: seq<byte>)
    requires Valid(s) && q in s.pipes && |bytes| <= BBUF_CAP
    ensures Valid(Refilled(s, q, bytes))
  {
    var s' := Refilled(s, q, bytes);
    forall a: nat, b: nat ensures SlotOk(s', a, b) { assert SlotOk(s, a, b); }
    hide Count, SlotOk;
    forall w | w in s'.vnodes ensures VnodeOk(s', w) { assert VnodeOk(s, w); }
    forall r | r in s'.pipes ensures PipeOk(s', r) { assert PipeOk(s, r); }
  }

  // ----- What no change of a table affects -----

  /** No new vnodes or pipes; those that are left have their ends and their bytes. */
  ghost predicate Kept(s: State, s': State) {
    && s'.next == s.next
    && (forall v :: v in s'.vnodes ==>
         v in s.vnodes && s'.vnodes[v].pipe == s.vnodes[v].pipe && s'.vnodes[v].writer == s.vnodes[v].writer)
    && (forall q :: q in s'.pipes ==> q in s.pipes && s'.pipes[q].contents == s.pipes[q].contents)
  }

  lemma KeptItself(s: State)
    ensures Kept(s, s)
  {
  }

  lemma KeptTransitive(s: State, s': State, s'': State)
    requires Kept(s, s') && Kept(s', s'')
    ensures Kept(s, s'')
  {
  }

  lemma SharedKept(s: State, p: nat, fd: nat, v: nat)
    requires p < |s.tables| && fd < |s.tables[p]| && v in s.vnodes
    ensures Kept(s, Shared(s, p, fd, v))
  {
  }

  lemma ClearedKept(s: State, p: nat, fd: nat)
    requires p < |s.tables| && fd < |s.tables[p]| && s.tables[p][fd].Some? && s.tables[p][fd].value in s.vnodes
    requires s.vnodes[s.tables[p][fd].value].refcount > 0 && s.vnodes[s.tables[p][fd].value].pipe in s.pipes
    ensures Kept(s, Cleared(s, p, fd))
  {
  }

  /** The tables then determine the reference counts, which ends are open, and which pipes are left. */
  lemma TablesDetermine(s: State, a: State, b: State)
    requires Valid(a) && Valid(b) && Kept(s, a) && Kept(s, b) && a.tables == b.tables
    ensures a == b
  {
    assert a.next == b.next;
    hide Valid, Kept;
    forall v ensures v in a.vnodes ==> v in b.vnodes && a.vnodes[v] == b.vnodes[v] { SameVnode(s, a, b, v); }
    forall v ensures v in b.vnodes ==> v in a.vnodes { SameVnode(s, b, a, v); }
    assert a.vnodes == b.vnodes;
    forall q ensures q in a.pipes ==> q in b.pipes && a.pipes[q] == b.pipes[q] { SamePipe(s, a, b, q); }
    forall q ensures q in b.pipes ==> q in a.pipes { SamePipe(s, b, a, q); }
    assert a.pipes == b.pipes;
  }

  lemma SameVnode(s: State, a: State, b: State, v: nat)
    requires Valid(a) && Valid(b) && Kept(s, a) && Kept(s, b) && a.tables == b.tables
    ensures v in a.vnodes ==> v in b.vnodes && a.vnodes[v] == b.vnodes[v]
  {
    if v in a.vnodes {
      assert VnodeOk(a, v);
      Held(b, v);
      assert VnodeOk(b, v);
    }
  }

  lemma SamePipe(s: State, a: State, b: State, q: nat)
    requires Valid(a) && Valid(b) && Kept(s, a) && Kept(s, b) && a.vnodes == b.vnodes
    ensures q in a.pipes ==> q in b.pipes && a.pipes[q] == b.pipes[q]
  {
    hide Count;
    assert q in a.vnodes ==> VnodeOk(a, q) && VnodeOk(b, q);
    assert q + 1 in a.vnodes ==> VnodeOk(a, q + 1) && VnodeOk(b, q + 1);
    assert q in a.pipes ==> PipeOk(a, q) && a.pipes[q].contents == s.pipes[q].contents;
    assert q in b.pipes ==> PipeOk(b, q) && b.pipes[q].contents == s.pipes[q].contents;
    hide Valid, Kept;
  }

  /** All descriptors from 3 on are taken, but possibly `k`. */
  ghost predicate NoTwoFree(t: Table, k: nat) {
    forall fd :: 3 <= fd < MAX_FD && fd != k ==> fd < |t| && t[fd].Some?
  }

  /** All descriptors from 3 up to `wfd` but `rfd` are taken: these two are the first that are free. */
  ghost predicate OthersTaken(t: Table, rfd: nat, wfd: nat) {
    forall fd :: 3 <= fd < wfd && fd != rfd ==> fd < |t| && t[fd].Some?
  }

  /** The two slots hold the ends of one empty pipe, open at both: the first is for reading, the second for writing. */
  ghost predicate NewPipe(s: State, p: nat, rfd: nat, wfd: nat) {
    && p < |s.tables| && rfd < |s.tables[p]| && wfd < |s.tables[p]|
    && s.tables[p][rfd].Some? && s.tables[p][rfd].value in s.vnodes
    && s.tables[p][wfd].Some? && s.tables[p][wfd].value in s.vnodes
    && var r, w := s.vnodes[s.tables[p][rfd].value], s.vnodes[s.tables[p][wfd].value];
       && !r.writer && w.writer && r.pipe == w.pipe && r.pipe in s.pipes
       && s.pipes[r.pipe].contents == [] && !s.pipes[r.pipe].writeClosed && !s.pipes[r.pipe].readClosed
  }

  // ----- The system calls -----

  class System {
    var tables: seq<Table>
    var vnodes: map<nat, Vnode>
    var pipes: map<nat, Pipe>
    var next: nat

    ghost function Now(): State
      reads this
    {
      State(tables, vnodes, pipes, next)
    }

    constructor ()
      ensures Valid(Now()) && Now() == State([], map[], map[], 0)
    {
      tables, vnodes, pipes, next := [], map[], map[], 0;
    }

    method Spawn()
      requires Valid(Now())
      modifies this`tables
      ensures Valid(Now()) && Now() == Spawned(old(Now()))
    {
      SpawnedValid(Now());
      tables := tables + [seq(MAX_FD, i => None)];
    }

    /** `vnode::close`, and `delete` once nobody refers to the vnode: its end of the pipe is closed, and the pipe goes
        with its second end. */
    method Release(v: nat)
      requires v in vnodes && vnodes[v].refcount > 0 && vnodes[v].pipe in pipes
      modifies this`vnodes, this`pipes
      ensures vnodes == if old(vnodes)[v].refcount == 1
              then old(vnodes) - {v} else old(vnodes)[v := old(vnodes)[v].(refcount := old(vnodes)[v].refcount - 1)]
      ensures pipes == if old(vnodes)[v].refcount == 1 then Closed(old(pipes), old(vnodes)[v]) else old(pipes)
    {
      var x := vnodes[v];
      var n := x.refcount - 1;
      if n == 0 {
        vnodes := vnodes - {v};
        var p := pipes[x.pipe];
        if x.writer {
          p := p.(writeClosed := true);
        } else {
          p := p.(readClosed := true);
        }
        pipes := if p.writeClosed && p.readClosed then pipes - {x.pipe} else pipes[x.pipe := p];
      } else {
        vnodes := vnodes[v := x.(refcount := n)];
      }
    }

    /** Release what a slot holds and clear it. */
    method ClearSlot(p: nat, fd: nat)
      requires Valid(Now()) && p < |tables| && fd < |tables[p]| && tables[p][fd].Some?
      modifies this`tables, this`vnodes, this`pipes
      ensures Valid(Now()) && old(tables[p][fd].value in vnodes && VnodeOk(Now(), tables[p][fd].value))
      ensures Now() == Cleared(old(Now()), p, fd) && Kept(old(Now()), Now())
      ensures tables == old(tables)[p := old(tables)[p][fd := None]]
    {
      ClearedValid(Now(), p, fd);
      ClearedKept(Now(), p, fd);
      hide Valid;
      Release(tables[p][fd].value);
      tables := tables[p := tables[p][fd := None]];
    }

    /** `find_open_fd`. */
    method FindOpenFd(p: nat, exclude: Option<nat>) returns (r: Option<nat>)
      requires p < |tables| && |tables[p]| == MAX_FD
      ensures r.Some? ==> 3 <= r.value < MAX_FD && tables[p][r.value] == None && exclude != r
      ensures r.Some? ==> forall fd :: 3 <= fd < r.value && exclude != Some(fd) ==> tables[p][fd].Some?
      ensures r.None? ==> forall fd :: 3 <= fd < MAX_FD && exclude != Some(fd) ==> tables[p][fd].Some?
    {
      var fd := 3;
      while fd < MAX_FD
        invariant 3 <= fd <= MAX_FD
        invariant forall k :: 3 <= k < fd && exclude != Some(k) ==> tables[p][k].Some?
      {
        if tables[p][fd].None? && exclude != Some(fd) {
          return Some(fd);
        }
        fd := fd + 1;
      }
      return None;
    }

    /** `syscall_pipe`: a new pipe, with its two ends in two free slots; none if there are not two. */
    method MakePipe(p: nat) returns (r: Option<(nat, nat)>)
      requires Valid(Now()) && p < |tables|
      modifies this
      ensures Valid(Now())
      ensures r.None? ==> Now() == old(Now())
      ensures r.None? ==> exists k :: NoTwoFree(old(tables)[p], k)
      ensures r.Some? ==>
                var (rfd, wfd) := r.value;
                && rfd != wfd && rfd < |old(tables)[p]| && wfd < |old(tables)[p]|
                && old(tables)[p][rfd] == old(tables)[p][wfd] == None
                && Now() == Installed(old(Now()), p, rfd, wfd)
                && 3 <= rfd < wfd && OthersTaken(old(tables)[p], rfd, wfd)
                && NewPipe(Now(), p, rfd, wfd)
    {
      assert |tables[p]| == MAX_FD;
      hide Valid;
      var rfd := FindOpenFd(p, None);
      if rfd.None? {
        assert NoTwoFree(tables[p], 0);
        return None;
      }
      var wfd := FindOpenFd(p, rfd);
      if wfd.None? {
        assert NoTwoFree(tables[p], rfd.value);
        return None;
      }
      Install(p, rfd.value, wfd.value);
      return Some((rfd.value, wfd.value));
    }

    method Install(p: nat, rfd: nat, wfd: nat)
      requires Valid(Now()) && p < |tables| && rfd < |tables[p]| && wfd < |tables[p]| && rfd != wfd
      requires tables[p][rfd] == None && tables[p][wfd] == None
      modifies this
      ensures Valid(Now()) && Now() == Installed(old(Now()), p, rfd, wfd)
    {
      hide Valid;
      InstalledValid(Now(), p, rfd, wfd);
      var q := next;
      vnodes := vnodes[q := Vnode(q, true, 1)][q + 1 := Vnode(q, false, 1)];
      pipes := pipes[q := Pipe([], false, false)];
      next := q + 2;
      tables := tables[p := tables[p][wfd := Some(q)][rfd := Some(q + 1)]];
    }

    /** `syscall_close`. */
    method Close(p: nat, fd: nat) returns (ok: bool)
      requires Valid(Now()) && p < |tables|
      modifies this`tables, this`vnodes, this`pipes
      ensures Valid(Now()) && ok == (fd < MAX_FD && fd < |old(tables)[p]| && old(tables)[p][fd].Some?)
      ensures ok ==> old(tables[p][fd].value in vnodes && VnodeOk(Now(), tables[p][fd].value))
      ensures Now() == if ok then Cleared(old(Now()), p, fd) else old(Now())
      ensures Kept(old(Now()), Now())
    {
      assert |tables[p]| == MAX_FD;
      hide Valid;
      if fd >= MAX_FD || tables[p][fd].None? {
        return false;
      }
      ClearSlot(p, fd);
      return true;
    }

    /** One more reference to an open vnode, in a free slot. */
    method Share(p: nat, fd: nat, v: nat)
      requires Valid(Now()) && p < |tables| && fd < |tables[p]| && tables[p][fd] == None && v in vnodes
      modifies this`tables, this`vnodes
      ensures Valid(Now()) && Now() == Shared(old(Now()), p, fd, v) && Kept(old(Now()), Now())
    {
      SharedValid(Now(), p, fd, v);
      SharedKept(Now(), p, fd, v);
      hide Valid;
      tables := tables[p := tables[p][fd := Some(v)]];
      vnodes := vnodes[v := vnodes[v].(refcount := vnodes[v].refcount + 1)];
    }

    /** One more reference to what slot `fd` holds, in a free slot of the same process. */
    method CopySlot(p: nat, fd: nat, to: nat)
      requires Valid(Now()) && p < |tables| && fd < |tables[p]| && tables[p][fd].Some? && to < |tables[p]|
      requires tables[p][to] == None
      modifies this`tables, this`vnodes
      ensures Valid(Now()) && tables == old(tables)[p := old(tables)[p][to := old(tables)[p][fd]]]
      ensures Kept(old(Now()), Now())
    {
      assert SlotOk(Now(), p, fd);
      hide Valid;
      Share(p, to, tables[p][fd].value);
    }

    /** Clear slot `to`, if it is taken, and fill it with what slot `fd` holds. */
    method ReplaceSlot(p: nat, fd: nat, to: nat)
      requires Valid(Now()) && p < |tables| && fd < |tables[p]| && tables[p][fd].Some? && to < |tables[p]| && fd != to
      modifies this`tables, this`vnodes, this`pipes
      ensures Valid(Now()) && tables == old(tables)[p := old(tables)[p][to := old(tables)[p][fd]]]
      ensures Kept(old(Now()), Now())
    {
      hide Cleared, Valid, Kept;
      ghost var ts := tables;
      if tables[p][to].None? {
        CopySlot(p, fd, to);
      } else {
        ClearSlot(p, to);
        ghost var s := Now();
        assert tables[p] == ts[p][to := None];
        CopySlot(p, fd, to);
        KeptTransitive(old(Now()), s, Now());
        assert tables[p] == ts[p][to := ts[p][fd]];
      }
    }

    /** `syscall_dup2`: success is reported as 0, except that equal descriptors report the descriptor. */
    method Dup2(p: nat, oldfd: nat, newfd: nat) returns (r: Option<nat>)
      requires Valid(Now()) && p < |tables|
      modifies this`tables, this`vnodes, this`pipes
      ensures Valid(Now()) && |old(tables)[p]| == MAX_FD
      ensures r.Some? <==> oldfd < MAX_FD && newfd < MAX_FD && old(tables)[p][oldfd].Some?
      ensures r.Some? ==> r.value == if oldfd == newfd then newfd else 0
      ensures tables == if r.Some?
              then old(tables)[p := old(tables)[p][newfd := old(tables)[p][oldfd]]] else old(tables)
      ensures Kept(old(Now()), Now())
    {
      assert |tables[p]| == MAX_FD;
      if oldfd >= MAX_FD || newfd >= MAX_FD || tables[p][oldfd].None? {
        return None;
      }
      if oldfd == newfd {
        assert tables[p][newfd := tables[p][oldfd]] == tables[p];
        return Some(newfd);
      }
      hide Valid, Kept;
      ReplaceSlot(p, oldfd, newfd);
      return Some(0);
    }

    /** `syscall_fork`: the child has a copy of the parent's table. */
    method Fork(p: nat)
      requires Valid(Now()) && p < |tables|
      modifies this`tables, this`vnodes
      ensures Valid(Now()) && tables == old(tables) + [old(tables)[p]] && pipes == old(pipes)
      ensures Kept(old(Now()), Now())
    {
      ghost var s := Now();
      assert |tables[p]| == MAX_FD && Kept(s, Spawned(s));
      hide Valid, Kept;
      Spawn();
      CopyTable(p, |tables| - 1, s.tables);
      KeptTransitive(s, Spawned(s), Now());
      ForkDone(s.tables, tables, p);
    }

    /** The loop over the parent's slots. */
    method CopyTable(p: nat, child: nat, ghost ts: seq<Table>)
      requires Valid(Now()) && p < |ts| == child && |ts[p]| == MAX_FD && Forking(ts, tables, p, 0)
      modifies this`tables, this`vnodes
      ensures Valid(Now()) && Forking(ts, tables, p, MAX_FD) && Kept(old(Now()), Now())
    {
      hide Valid, Kept, Forking;
      KeptItself(Now());
      var fd := 0;
      while fd < MAX_FD
        invariant 0 <= fd <= MAX_FD && Valid(Now()) && Forking(ts, tables, p, fd) && Kept(old(Now()), Now())
      {
        ForkSlot(Now(), ts, p, fd);
        if tables[p][fd].Some? {
          ghost var s := Now();
          Share(child, fd, tables[p][fd].value);
          KeptTransitive(old(Now()), s, Now());
        }
        fd := fd + 1;
      }
    }

    /** The part of `syscall_exit` that closes every descriptor. */
    method Exit(p: nat)
      requires Valid(Now()) && p < |tables|
      modifies this`tables, this`vnodes, this`pipes
      ensures Valid(Now()) && tables == old(tables)[p := seq(MAX_FD, i => None)] && Kept(old(Now()), Now())
    {
      ghost var ts := tables;
      assert |ts[p]| == MAX_FD;
      hide Valid;
      var fd := 0;
      while fd < MAX_FD
        invariant 0 <= fd <= MAX_FD && Valid(Now()) && Exiting(ts, tables, p, fd) && Kept(old(Now()), Now())
      {
        ghost var s := Now();
        ExitingStep(ts, tables, p, fd);
        hide Kept, Exiting, Cleared;
        if tables[p][fd].Some? {
          ClearSlot(p, fd);
          KeptTransitive(old(Now()), s, Now());
        }
        fd := fd + 1;
      }
      ExitDone(ts, tables, p);
    }

    /** `syscall_read` on a pipe; nothing if the descriptor is not open for reading. */
    method ReadFd(p: nat, fd: nat, sz: nat) returns (r: Option<ReadResult>)
      requires Valid(Now()) && p < |tables|
      modifies this`pipes
      ensures Valid(Now()) && |tables[p]| == MAX_FD
      ensures r.Some? <==>
              && fd < MAX_FD && tables[p][fd].Some?
              && tables[p][fd].value in vnodes && !vnodes[tables[p][fd].value].writer
      ensures r.None? ==> pipes == old(pipes)
      ensures r.Some? ==> old(vnodes[tables[p][fd].value].pipe in pipes)
      ensures r.Some? ==> var q := vnodes[tables[p][fd].value].pipe;
                && (pipes, r.value) == (old(pipes)[q := ReadFrom(old(pipes)[q], sz).0], ReadFrom(old(pipes)[q], sz).1)
                && (sz > 0 ==> (r.value == Eof <==> old(pipes)[q].contents == [] && !HoldsWriter(old(Now()), q)))
    {
      assert |tables[p]| == MAX_FD && SlotOk(Now(), p, fd);
      if fd >= MAX_FD || tables[p][fd].None? {
        return None;
      }
      var v := tables[p][fd].value;
      if vnodes[v].writer {
        return None;
      }
      var q := vnodes[v].pipe;
      assert VnodeOk(Now(), v);
      if sz > 0 { EofIffNoWriter(Now(), q, sz); }
      assert PipeOk(Now(), q);
      var (pipe, res) := ReadFrom(pipes[q], sz);
      RefilledValid(Now(), q, pipe.contents);
      assert pipe == pipes[q].(contents := pipe.contents);
      hide Valid, ReadFrom, HoldsWriter;
      pipes := pipes[q := pipe];
      return Some(res);
    }

    /** `syscall_write` on a pipe; nothing if the descriptor is not open for writing. */
    method WriteFd(p: nat, fd: nat, data: seq<byte>) returns (r: Option<WriteResult>)
      requires Valid(Now()) && p < |tables|
      modifies this`pipes
      ensures Valid(Now()) && |tables[p]| == MAX_FD
      ensures r.Some? <==>
              && fd < MAX_FD && tables[p][fd].Some?
              && tables[p][fd].value in vnodes && vnodes[tables[p][fd].value].writer
      ensures r.None? ==> pipes == old(pipes)
      ensures r.Some? ==> old(vnodes[tables[p][fd].value].pipe in pipes)
      ensures r.Some? ==> var q := vnodes[tables[p][fd].value].pipe;
                && |old(pipes)[q].contents| <= BBUF_CAP
                && (pipes, r.value) == (old(pipes)[q := WriteTo(old(pipes)[q], data).0], WriteTo(old(pipes)[q], data).1)
    {
      assert |tables[p]| == MAX_FD && SlotOk(Now(), p, fd);
      if fd >= MAX_FD || tables[p][fd].None? {
        return None;
      }
      var v := tables[p][fd].value;
      if !vnodes[v].writer {
        return None;
      }
      var q := vnodes[v].pipe;
      assert VnodeOk(Now(), v);
      assert PipeOk(Now(), q);
      var (pipe, res) := WriteTo(pipes[q], data);
      RefilledValid(Now(), q, pipe.contents);
      assert pipe == pipes[q].(contents := pipe.contents);
      hide Valid, WriteTo;
      pipes := pipes[q := pipe];
      return Some(res);
    }
  }

  /** The child's table, last, is a copy of the parent's up to `fd`. */
  ghost predicate Forking(ts: seq<Table>, now: seq<Table>, p: nat, fd: nat)
    requires p < |ts| && |ts[p]| == MAX_FD
  {
    && |now| == |ts| + 1 && now[..|ts|] == ts && |now[|ts|]| == MAX_FD
    && forall k :: 0 <= k < MAX_FD ==> now[|ts|][k] == if k < fd then ts[p][k] else None
  }

  /** The slots of the table below `fd` are cleared. */
  ghost predicate Exiting(ts: seq<Table>, now: seq<Table>, p: nat, fd: nat)
    requires p < |ts| && |ts[p]| == MAX_FD
  {
    && |now| == |ts| && (forall k :: 0 <= k < |ts| && k != p ==> now[k] == ts[k]) && |now[p]| == MAX_FD
    && forall k :: 0 <= k < MAX_FD ==> now[p][k] == if k < fd then None else ts[p][k]
  }

  lemma ExitingStep(ts: seq<Table>, now: seq<Table>, p: nat, fd: nat)
    requires p < |ts| && |ts[p]| == MAX_FD && fd < MAX_FD && Exiting(ts, now, p, fd)
    ensures p < |now| && fd < |now[p]| && Exiting(ts, now[p := now[p][fd := None]], p, fd + 1)
    ensures now[p][fd].None? ==> Exiting(ts, now, p, fd + 1)
  {
  }

  lemma ExitDone(ts: seq<Table>, now: seq<Table>, p: nat)
    requires p < |ts| && |ts[p]| == MAX_FD && Exiting(ts, now, p, MAX_FD)
    ensures now == ts[p := seq(MAX_FD, i => None)]
  {
    var row: Table := seq(MAX_FD, i => None);
    assert now[p] == row;
    forall k | 0 <= k < |ts| ensures now[k] == ts[p := row][k] { }
  }

  /** One more slot of the child. */
  lemma ForkSlot(s: State, ts: seq<Table>, p: nat, fd: nat)
    requires p < |ts| && |ts[p]| == MAX_FD && Forking(ts, s.tables, p, fd) && fd < MAX_FD && Valid(s)
    ensures var t := s.tables;
            && |t| == |ts| + 1 && p < |t| && fd < |t[p]| && fd < |t[|ts|]| && t[|ts|][fd] == None
            && (t[p][fd].Some? ==> t[p][fd].value in s.vnodes)
            && Forking(ts, t[|ts| := t[|ts|][fd := t[p][fd]]], p, fd + 1)
            && (t[p][fd].None? ==> Forking(ts, t, p, fd + 1))
  {
    assert SlotOk(s, p, fd);
    hide Valid;
    ForkingRow(ts, s.tables, p, fd);
    assert s.tables[|ts| := s.tables[|ts|][fd := s.tables[p][fd]]][..|ts|] == ts;
  }

  lemma ForkingRow(ts: seq<Table>, now: seq<Table>, p: nat, fd: nat)
    requires p < |ts| && |ts[p]| == MAX_FD && Forking(ts, now, p, fd)
    ensures now[p] == ts[p]
  {
    assert now[..|ts|][p] == now[p];
  }

  lemma ForkDone(ts: seq<Table>, now: seq<Table>, p: nat)
    requires p < |ts| && |ts[p]| == MAX_FD && Forking(ts, now, p, MAX_FD)
    ensures now == ts + [ts[p]]
  {
    assert now[|ts|] == ts[p];
    assert now == now[..|ts|] + [now[|ts|]];
  }
}
