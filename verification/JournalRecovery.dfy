/** Recovery from the disk, cut short and started over at will. */
module JournalRecovery {
  import opened JournalFormat
  import opened JournalReplay
  import opened JournalAnalysis
  import opened JournalChecks
  import opened JournalRuns
  import opened Util

  // ----- The outcome of a replay is a function of the journal -----

  /** A replay of the journal `J0`, with accepted metablocks `metas`, accepts it or not and writes `ws`. */
  ghost predicate Outcome(env: Env, J0: Journal, J: Journal, metas: seq<nat>, accepted: bool, ws: seq<Write>) {
    && Follows(env, J0, J, metas, |J0|) && Sorted(J, metas) && InBounds(J, metas) && MetasOk(J, metas)
    && (accepted <==> AllReach(env, J0, |J0|) && Acceptable(J, metas))
    && ws == if accepted then LastWrites(J, metas, Lo(J, metas), Hi(J, metas)) else []
  }

  lemma OneOutcome(env: Env, J0: Journal, J: Journal, metas: seq<nat>, accepted: bool, ws: seq<Write>, J': Journal,
      metas': seq<nat>, accepted': bool, ws': seq<Write>)
    requires Outcome(env, J0, J, metas, accepted, ws) && Outcome(env, J0, J', metas', accepted', ws')
    ensures J' == J && accepted' == accepted && ws' == ws
  {
    hide AllReach, LastWrites;
    if accepted {
      SameMetablocks(J, metas, metas');
    } else if accepted' {
      SameMetablocks(J, metas', metas);
    }
  }

  lemma SameMetablocks(J: Journal, a: seq<nat>, b: seq<nat>)
    requires Sorted(J, a) && Sorted(J, b) && InBounds(J, a) && Acceptable(J, a) && forall x: nat :: x in a <==> x in b
    ensures a == b
  {
    AcceptableMeans(J, a);
    hide Acceptable, Bounded;
    forall i, j | 0 <= i < j < |a| ensures J[a[i]].seqno != J[a[j]].seqno {
      assert Meta(J, a, i).seqno < Meta(J, a, j).seqno;
    }
    SameList(J, a, b);
  }

  // ----- The journal on the disk -----

  /** The journal takes up `n` blocks of the disk from block `first` on. */
  ghost predicate HasJournal(disk: Disk, first: nat, n: nat) {
    forall i :: first <= i < first + n ==> i in disk
  }

  function Stored(disk: Disk, first: nat, n: nat): (J: Journal)
    requires HasJournal(disk, first, n)
    ensures |J| == n
  {
    seq(n, i requires 0 <= i < n => disk[first + i])
  }

  method Load(disk: Disk, first: nat, n: nat) returns (j: array<Block>)
    requires HasJournal(disk, first, n)
    ensures fresh(j) && j[..] == Stored(disk, first, n)
  {
    j := new Block[n](i requires 0 <= i < n => disk[first + i]);
  }

  /** What replay of the journal writes is elsewhere. */
  ghost predicate WritesElsewhere(env: Env, J0: Journal, first: nat) {
    forall J, metas, accepted, ws :: Outcome(env, J0, J, metas, accepted, ws) ==> Elsewhere(ws, first, |J0|)
  }

  ghost predicate Elsewhere(ws: seq<Write>, first: nat, n: nat) {
    forall w :: w in ws ==> !(first <= w.bn < first + n)
  }

  /** Writing elsewhere leaves the journal on the disk as it is. */
  lemma JournalKept(disk: Disk, first: nat, n: nat, ws: seq<Write>)
    requires HasJournal(disk, first, n) && Elsewhere(ws, first, n)
    ensures HasJournal(ApplyWrites(disk, ws), first, n)
    ensures Stored(ApplyWrites(disk, ws), first, n) == Stored(disk, first, n)
  {
    OnlyTargets(disk, ws);
  }

  function UpTo(ws: seq<Write>, cut: Option<nat>): seq<Write> {
    if cut.None? then ws else ws[..Min(cut.value, |ws|)]
  }

  /** One attempt: load the journal and replay it, up to the end or to a number of writes. */
  method Attempt(env: Env, disk: Disk, first: nat, n: nat, cut: Option<nat>)
    returns (accepted: bool, ws: seq<Write>, disk': Disk, ghost J: Journal, ghost metas: seq<nat>)
    requires HasJournal(disk, first, n) && Shape(Stored(disk, first, n))
    ensures Outcome(env, Stored(disk, first, n), J, metas, accepted, ws)
    ensures disk' == ApplyWrites(disk, UpTo(ws, cut))
    ensures ApplyWrites(disk, ws) == if accepted then NaiveReplay(J, metas, Lo(J, metas), Hi(J, metas), disk) else disk
  {
    var j := Load(disk, first, n);
    hide Shape, Follows, LastWrites, AllReach, Acceptable, MetasOk, DistinctTargets, NaiveReplay;
    accepted, ws, J, metas := Replay(env, j, disk);
    disk' := WriteAll(disk, UpTo(ws, cut));
  }

  method WriteAll(disk: Disk, ws: seq<Write>) returns (disk': Disk)
    ensures disk' == ApplyWrites(disk, ws)
  {
    disk' := disk;
    for k := 0 to |ws|
      invariant disk' == ApplyWrites(disk, ws[..k])
    {
      disk' := disk'[ws[k].bn := ws[k].data];
      assert ws[..k + 1][..k] == ws[..k];
    }
    assert ws[..|ws|] == ws;
  }

  /** Attempts that are cut short after so many writes each, and then one that is not: the journal stays as it is, and
      the disk is in the end as one replay would leave it. */
  method Recover(env: Env, disk: Disk, first: nat, n: nat, cuts: seq<nat>)
    returns (accepted: bool, ws: seq<Write>, disk': Disk, ghost J: Journal, ghost metas: seq<nat>)
    requires HasJournal(disk, first, n) && Shape(Stored(disk, first, n))
    requires WritesElsewhere(env, Stored(disk, first, n), first)
    ensures Outcome(env, Stored(disk, first, n), J, metas, accepted, ws)
    ensures disk' == ApplyWrites(disk, ws)
    ensures disk' == if accepted then NaiveReplay(J, metas, Lo(J, metas), Hi(J, metas), disk) else disk
    ensures HasJournal(disk', first, n) && Stored(disk', first, n) == Stored(disk, first, n)
    decreases |cuts|
  {
    ghost var J0 := Stored(disk, first, n);
    hide Outcome, NaiveReplay, Shape;
    if cuts == [] {
      accepted, ws, disk', J, metas := Attempt(env, disk, first, n, None);
    } else {
      var disk1: Disk;
      accepted, ws, disk1, J, metas := Attempt(env, disk, first, n, Some(cuts[0]));
      var k := Min(cuts[0], |ws|);
      assert Elsewhere(ws[..k], first, n);
      JournalKept(disk, first, n, ws[..k]);
      ReplayAfterPartialReplay(disk, ws, k);
      var accepted', ws';
      ghost var J', metas';
      accepted', ws', disk', J', metas' := Recover(env, disk1, first, n, cuts[1..]);
      OneOutcome(env, J0, J, metas, accepted, ws, J', metas', accepted', ws');
    }
    JournalKept(disk, first, n, ws);
  }
}
