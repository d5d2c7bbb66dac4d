/** The bounded buffer of a pipe: a ring that carries a stream of bytes. */
module PipeRing {
  import opened Util

  type byte = bv8

  const BBUF_CAP := 256

  /** What a pipe is: the bytes in it, and which ends are closed. */
  datatype Pipe = Pipe(contents: seq<byte>, writeClosed: bool, readClosed: bool)

  /** `Blocked`: the caller sleeps until the pipe is ready for it. */
  datatype WriteResult = WriteBlocked | BrokenPipe | Wrote(n: nat)
  datatype ReadResult = ReadBlocked | Eof | Got(data: seq<byte>)

  /** Effect of a write: as much as fits, at once. */
  function WriteTo(p: Pipe, data: seq<byte>): (Pipe, WriteResult)
    requires |p.contents| <= BBUF_CAP
  {
    if |p.contents| == BBUF_CAP && data != [] && !p.readClosed then (p, WriteBlocked)
    else if p.readClosed then (p, BrokenPipe)
    else
      var n := Min(|data|, BBUF_CAP - |p.contents|);
      (p.(contents := p.contents + data[..n]), Wrote(n))
  }

  /** Effect of a read: as much as there is, up to what was asked for. */
  function ReadFrom(p: Pipe, sz: nat): (Pipe, ReadResult) {
    if p.contents == [] && !p.writeClosed && sz > 0 then (p, ReadBlocked)
    else if p.writeClosed && p.contents == [] then (p, Eof)
    else
      var n := Min(sz, |p.contents|);
      (p.(contents := p.contents[n..]), Got(p.contents[..n]))
  }

  /** What a write comes to: broken exactly if nobody can read, blocked exactly if there is something to write and no
      room at all, and otherwise as much is appended as there is room for. */
  lemma WriteOutcome(p: Pipe, data: seq<byte>)
    requires |p.contents| <= BBUF_CAP
    ensures var (p', r) := WriteTo(p, data);
            && (r == BrokenPipe <==> p.readClosed)
            && (r == WriteBlocked <==> !p.readClosed && data != [] && |p.contents| == 256)
            && (!r.Wrote? ==> p' == p)
            && (r.Wrote? ==> r.n <= |data| && p' == p.(contents := p.contents + data[..r.n]))
            && (r.Wrote? ==> if r.n < |data| then |p'.contents| == 256 else |p'.contents| <= 256)
  {
  }

  /** What a read comes to: the end exactly if the pipe is drained and nobody can write, blocked exactly if something is
      asked for of an empty pipe, and otherwise as much is taken off the front as was asked for. */
  lemma ReadOutcome(p: Pipe, sz: nat)
    ensures var (p', r) := ReadFrom(p, sz);
            && (r == Eof <==> p.contents == [] && p.writeClosed)
            && (r == ReadBlocked <==> p.contents == [] && !p.writeClosed && sz > 0)
            && (!r.Got? ==> p' == p)
            && (r.Got? ==> p.contents == r.data + p'.contents && p' == p.(contents := p'.contents))
            && (r.Got? ==> |r.data| == sz || (|r.data| < sz && p'.contents == []))
  {
    var n := Min(sz, |p.contents|);
    assert p.contents == p.contents[..n] + p.contents[n..];
  }

  /** `len` bytes of a ring from `pos` on. */
  function Around(b: seq<byte>, pos: nat, len: nat): (s: seq<byte>)
    requires |b| == BBUF_CAP
    ensures |s| == len
  {
    seq(len, i requires 0 <= i < len => b[(pos + i) % BBUF_CAP])
  }

  class Ring {
    var bbuf: array<byte>
    var pos: nat
    var len: nat
    var writeClosed: bool
    var readClosed: bool

    ghost predicate Valid()
      reads this
    {
      bbuf.Length == BBUF_CAP && pos < BBUF_CAP && len <= BBUF_CAP
    }

    ghost function Contents(): (s: seq<byte>)
      reads this, bbuf
      requires Valid()
      ensures |s| == len
    {
      Around(bbuf[..], pos, len)
    }

    ghost function State(): Pipe
      reads this, bbuf
      requires Valid()
    {
      Pipe(Contents(), writeClosed, readClosed)
    }

    constructor ()
      ensures Valid() && State() == Pipe([], false, false) && fresh(bbuf)
    {
      bbuf := new byte[BBUF_CAP](_ => 0);
      pos, len, writeClosed, readClosed := 0, 0, false, false;
    }

    /** Copy `data[from..from + n]` to the buffer at `index`; `memcpy`. */
    method CopyIn(index: nat, data: seq<byte>, from: nat, n: nat)
      requires bbuf.Length == BBUF_CAP && index + n <= BBUF_CAP && from + n <= |data|
      modifies bbuf
      ensures forall k :: 0 <= k < BBUF_CAP ==>
              bbuf[k] == if index <= k < index + n then data[from + (k - index)] else old(bbuf[k])
    {
      forall k | index <= k < index + n {
        bbuf[k] := data[from + (k - index)];
      }
    }

    /** `pipe_bbuf::write`. */
    method Write(data: seq<byte>) returns (r: WriteResult)
      requires Valid() && !writeClosed
      modifies this`len, bbuf
      ensures Valid() && (State(), r) == WriteTo(old(State()), data)
    {
      if len == BBUF_CAP && data != [] && !readClosed {
        return WriteBlocked;
      }
      if readClosed {
        return BrokenPipe;
      }
      ghost var was := Contents();
      var p := 0;
      assert was + data[..0] == was;
      while p < |data| && len < BBUF_CAP
        invariant Valid() && p <= |data| && len == |was| + p
        invariant Contents() == was + data[..p]
        decreases |data| - p
      {
        p := WriteChunk(data, p, was);
      }
      return Wrote(p);
    }

    /** One contiguous stretch of a write. */
    method WriteChunk(data: seq<byte>, p: nat, ghost was: seq<byte>) returns (p': nat)
      requires Valid() && p < |data| && len < BBUF_CAP && len == |was| + p && Contents() == was + data[..p]
      modifies this`len, bbuf
      ensures Valid() && p < p' <= |data| && len == |was| + p' && Contents() == was + data[..p']
    {
      ghost var before := Contents();
      var index := (pos + len) % BBUF_CAP;
      var n := Min(|data| - p, Min(BBUF_CAP - index, BBUF_CAP - len));
      CopyIn(index, data, p, n);
      len := len + n;
      p' := p + n;
      forall i | 0 <= i < len ensures Contents()[i] == (was + data[..p'])[i] {
        ChunkPlace(pos, len - n, n, i);
        if i < len - n { assert before[i] == (was + data[..p])[i]; }
      }
    }

    /** One contiguous stretch of a read. */
    method ReadChunk(sz: nat) returns (chunk: seq<byte>)
      requires Valid() && sz > 0 && len > 0
      modifies this`pos, this`len
      ensures Valid() && 0 < |chunk| <= sz && len == old(len) - |chunk|
      ensures old(Contents()) == chunk + Contents()
    {
      var n := Min(len, BBUF_CAP - pos);
      n := Min(sz, n);
      chunk := bbuf[pos..pos + n];
      Consume(bbuf[..], pos, len, n);
      hide Around;
      pos := (pos + n) % BBUF_CAP;
      len := len - n;
    }

    /** The loop of a read: chunks until enough bytes are taken or the ring is empty. */
    method ReadChunks(sz: nat) returns (out: seq<byte>)
      requires Valid()
      modifies this`pos, this`len
      ensures Valid() && |out| <= sz && out + Contents() == old(Contents()) && (|out| == sz || len == 0)
    {
      ghost var was := Contents();
      out := [];
      assert [] + was == was;
      hide Ring.Contents;
      while |out| < sz && len > 0
        invariant Valid() && |out| <= sz && out + Contents() == was
        decreases len
      {
        var chunk := ReadChunk(sz - |out|);
        assert out + (chunk + Contents()) == (out + chunk) + Contents();
        out := out + chunk;
      }
    }

    /** `pipe_bbuf::read`. */
    method Read(sz: nat) returns (r: ReadResult)
      requires Valid() && !readClosed
      modifies this`pos, this`len
      ensures Valid() && (State(), r) == ReadFrom(old(State()), sz)
    {
      if len == 0 && !writeClosed && sz > 0 {
        return ReadBlocked;
      }
      if writeClosed && len == 0 {
        return Eof;
      }
      ghost var was := Contents();
      var out := ReadChunks(sz);
      ReadAll(out, Contents(), was, sz);
      return Got(out);
    }

    method CloseWrite()
      requires Valid() && !writeClosed
      modifies this`writeClosed
      ensures Valid() && State() == old(State()).(writeClosed := true)
    {
      writeClosed := true;
    }

    method CloseRead()
      requires Valid() && !readClosed
      modifies this`readClosed
      ensures Valid() && State() == old(State()).(readClosed := true)
    {
      readClosed := true;
    }
  }

  /** Taking a contiguous stretch off the front of a ring. */
  lemma Consume(b: seq<byte>, pos: nat, len: nat, n: nat)
    requires |b| == BBUF_CAP && pos < BBUF_CAP && n <= len <= BBUF_CAP && pos + n <= BBUF_CAP
    ensures Around(b, pos, len) == b[pos..pos + n] + Around(b, (pos + n) % BBUF_CAP, len - n)
  {
    var before, after := Around(b, pos, len), Around(b, (pos + n) % BBUF_CAP, len - n);
    forall i | 0 <= i < len - n ensures after[i] == before[n + i] {
      Skip(pos, n, i);
    }
    forall i | 0 <= i < n ensures before[i] == b[pos..pos + n][i] {
      assert (pos + i) % BBUF_CAP == pos + i;
    }
    hide Around;
    Rejoin(before, b[pos..pos + n], after);
  }

  lemma Rejoin(s: seq<byte>, a: seq<byte>, b: seq<byte>)
    requires |s| == |a| + |b| && (forall i :: 0 <= i < |a| ==> s[i] == a[i]) && forall i :: 0 <= i < |b| ==>
             b[i] == s[|a| + i]
    ensures s == a + b
  {
  }

  lemma ReadAll(out: seq<byte>, rest: seq<byte>, was: seq<byte>, sz: nat)
    requires out + rest == was && |out| <= sz && (|out| == sz || rest == [])
    ensures out == was[..Min(sz, |was|)] && rest == was[Min(sz, |was|)..]
  {
    assert Min(sz, |was|) == |out|;
  }

  /** Places of old and new bytes once a stretch of `n` bytes was put behind `len` bytes. */
  lemma ChunkPlace(pos: nat, len: nat, n: nat, i: nat)
    requires pos < BBUF_CAP && len < BBUF_CAP && i < len + n
    requires (pos + len) % BBUF_CAP + n <= BBUF_CAP && len + n <= BBUF_CAP
    ensures var index := (pos + len) % BBUF_CAP;
            if i < len then !(index <= (pos + i) % BBUF_CAP < index + n) else (pos + i) % BBUF_CAP == index + (i - len)
  {
    var q := pos + i;
    assert q % BBUF_CAP == if q < BBUF_CAP then q else q - BBUF_CAP;
    var e := pos + len;
    assert e % BBUF_CAP == if e < BBUF_CAP then e else e - BBUF_CAP;
  }

  lemma Skip(pos: nat, n: nat, i: nat)
    requires pos < BBUF_CAP && pos + n <= BBUF_CAP && i < BBUF_CAP
    ensures ((pos + n) % BBUF_CAP + i) % BBUF_CAP == (pos + (n + i)) % BBUF_CAP
  {
  }

  // ----- Streams -----

  datatype Op = Write(data: seq<byte>) | Read(sz: nat) | CloseWriteEnd | CloseReadEnd

  /** A pipe with what was written to it and read from it so far. */
  datatype Stream = Stream(pipe: Pipe, written: seq<byte>, read: seq<byte>)

  ghost predicate Step(s: Stream, op: Op, s': Stream) {
    |s.pipe.contents| <= BBUF_CAP
    && match op
       case Write(data) =>
         var (p, r) := WriteTo(s.pipe, data);
         !s.pipe.writeClosed && s' ==
             Stream(p, s.written + (if r.Wrote? && r.n <= |data| then data[..r.n] else []), s.read)
       case Read(sz) =>
         var (p, r) := ReadFrom(s.pipe, sz);
         !s.pipe.readClosed && s' == Stream(p, s.written, s.read + (if r.Got? then r.data else []))
       case CloseWriteEnd => s' == s.(pipe := s.pipe.(writeClosed := true))
       case CloseReadEnd => s' == s.(pipe := s.pipe.(readClosed := true))
  }

  ghost predicate StreamOk(s: Stream) {
    s.written == s.read + s.pipe.contents && |s.pipe.contents| <= BBUF_CAP
  }

  /** Bytes are neither lost, nor duplicated, nor reordered: what was read, followed by what is in the ring, is what
      was written. */
  lemma StepKeepsStream(s: Stream, op: Op, s': Stream)
    requires StreamOk(s) && Step(s, op, s')
    ensures StreamOk(s')
  {
    match op
    case Write(data) => WriteKeepsStream(s, data, s');
    case Read(sz) => ReadKeepsStream(s, sz, s');
    case CloseWriteEnd =>
    case CloseReadEnd =>
  }

  lemma WriteKeepsStream(s: Stream, data: seq<byte>, s': Stream)
    requires StreamOk(s) && Step(s, Write(data), s')
    ensures StreamOk(s')
  {
    var n := Min(|data|, BBUF_CAP - |s.pipe.contents|);
    if WriteTo(s.pipe, data).1.Wrote? {
      assert s.written + data[..n] == s.read + (s.pipe.contents + data[..n]);
    } else {
      assert s.written + [] == s.written;
    }
  }

  lemma ReadKeepsStream(s: Stream, sz: nat, s': Stream)
    requires StreamOk(s) && Step(s, Read(sz), s')
    ensures StreamOk(s')
  {
    var n := Min(sz, |s.pipe.contents|);
    if ReadFrom(s.pipe, sz).1.Got? {
      assert s.pipe.contents == s.pipe.contents[..n] + s.pipe.contents[n..];
      assert s.read + s.pipe.contents == (s.read + s.pipe.contents[..n]) + s.pipe.contents[n..];
    } else {
      assert s.read + [] == s.read;
    }
  }

  lemma {:induction false} RunKeepsStream(run: seq<Stream>, ops: seq<Op>, i: nat)
    requires |run| == |ops| + 1 && i < |run| && run[0] == Stream(Pipe([], false, false), [], [])
    requires forall k :: 0 <= k < |ops| ==> Step(run[k], ops[k], run[k + 1])
    ensures run[i].written == run[i].read + run[i].pipe.contents && |run[i].pipe.contents| <= BBUF_CAP
  {
    if i > 0 {
      RunKeepsStream(run, ops, i - 1);
      assert Step(run[i - 1], ops[i - 1], run[i - 1 + 1]);
      StepKeepsStream(run[i - 1], ops[i - 1], run[i]);
    }
  }

  /** A read makes progress or reports the end of the stream, which then is all that was ever written. */
  lemma EndOfFile(s: Stream, sz: nat)
    requires StreamOk(s) && sz > 0
    ensures ReadFrom(s.pipe, sz).1 == Eof <==> s.pipe.writeClosed && s.read == s.written
    ensures ReadFrom(s.pipe, sz).1.Got? ==> ReadFrom(s.pipe, sz).1.data != []
  {
  }

  method Perform(ring: Ring, op: Op, written: seq<byte>, read: seq<byte>)
    returns (written': seq<byte>, read': seq<byte>)
    requires ring.Valid() && StreamOk(Stream(ring.State(), written, read))
    modifies ring, ring.bbuf
    ensures ring.Valid() && ring.bbuf == old(ring.bbuf) && StreamOk(Stream(ring.State(), written', read'))
  {
    ghost var s := Stream(ring.State(), written, read);
    written', read' := written, read;
    match op {
      case Write(data) =>
        if !ring.writeClosed {
          var r := ring.Write(data);
          if r.Wrote? && r.n <= |data| {
            written' := written + data[..r.n];
          }
          WriteKeepsStream(s, data, Stream(ring.State(), written', read'));
        }
      case Read(sz) =>
        if !ring.readClosed {
          var r := ring.Read(sz);
          if r.Got? {
            read' := read + r.data;
          }
          ReadKeepsStream(s, sz, Stream(ring.State(), written', read'));
        }
      case CloseWriteEnd =>
        if !ring.writeClosed {
          ring.CloseWrite();
        }
      case CloseReadEnd =>
        if !ring.readClosed {
          ring.CloseRead();
        }
    }
  }

  /** Any operations on a new ring; those on an end that is closed do nothing. */
  method Run(ops: seq<Op>) returns (ring: Ring, written: seq<byte>, read: seq<byte>)
    ensures ring.Valid() && written == read + ring.Contents()
  {
    ring := new Ring();
    written, read := [], [];
    for i := 0 to |ops|
      invariant ring.Valid() && fresh(ring) && fresh(ring.bbuf) && StreamOk(Stream(ring.State(), written, read))
    {
      hide Ring.Contents;
      written, read := Perform(ring, ops[i], written, read);
    }
  }
}
