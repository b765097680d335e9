/** The drain loop of ringbuffer_writer.c. The other thread appears as a list of
    moments: what it commits before each probe, what the exit condition then
    answers, and what it commits in the two gaps of the final drain. */
module RingWriter {
  import opened CTypes
  import opened RingArith
  import opened RingBuffer

  datatype Moment = Moment(
    beforeProbe: Block,
    exit: bool,
    beforeRemaining: Block,
    beforeDrain: Block)

  /** When nothing more is scheduled, nothing arrives and the exit flag is set. */
  const LAST: Moment := Moment([], true, [], [])

  function At(env: seq<Moment>, k: nat): Moment {
    if k < |env| then env[k] else LAST
  }

  /** What the ring takes of a block when it holds fill bytes: all or nothing. */
  function Accepted(fill: nat, capacity: nat, data: Block): seq<byte> {
    if fill + |data| <= capacity then data else []
  }

  /** What passes through the ring during a run: the whole stream in order, how
      much of it was left at the last failed probe, and the two last blocks, which
      come before the remaining bytes are counted and before the last probe. */
  datatype Traffic = Traffic(stream: seq<byte>, left: nat, gap: seq<byte>, during: seq<byte>)

  function TrafficOf(stream: seq<byte>, fill: nat, capacity: nat, len: nat, env: seq<Moment>, k: nat): (t: Traffic)
    requires fill <= capacity && fill <= |stream| && 0 < len && k <= |env|
    ensures t.left < len && t.left + |t.gap| + |t.during| <= |t.stream|
    ensures t.during == [] || t.left + |t.gap| < len
    decreases |env| - k, fill
  {
    var now := At(env, k);
    var more := Accepted(fill, capacity, now.beforeProbe);
    var f := fill + |more|;
    if f >= len then
      TrafficOf(stream + more, f - len, capacity, len, env, if k < |env| then k + 1 else k)
    else if !now.exit then
      TrafficOf(stream + more, f, capacity, len, env, k + 1)
    else
      var gap := Accepted(f, capacity, now.beforeRemaining);
      var during := DuringDrain(f + |gap|, capacity, len, now);
      Traffic(stream + more + (gap + during), f, gap, during)
  }

  /** The three ways round the loop. */
  lemma TrafficStep(stream: seq<byte>, fill: nat, capacity: nat, len: nat, env: seq<Moment>, k: nat)
    requires fill <= capacity && fill <= |stream| && 0 < len && k <= |env|
    ensures var now := At(env, k); var more := Accepted(fill, capacity, now.beforeProbe); var f := fill + |more|;
      TrafficOf(stream, fill, capacity, len, env, k) ==
      if f >= len then
        TrafficOf(stream + more, f - len, capacity, len, env, if k < |env| then k + 1 else k)
      else if !now.exit then
        TrafficOf(stream + more, f, capacity, len, env, k + 1)
      else
        var gap := Accepted(f, capacity, now.beforeRemaining);
        Traffic(stream + more + (gap + DuringDrain(f + |gap|, capacity, len, now)),
                f, gap, DuringDrain(f + |gap|, capacity, len, now))
  {
  }

  /** The last probe happens only if some, but less than a block, is left. */
  function DuringDrain(fill: nat, capacity: nat, len: nat, now: Moment): seq<byte> {
    if 0 < fill < len then Accepted(fill, capacity, now.beforeDrain) else []
  }

  lemma NothingAfterLast(env: seq<Moment>, k: nat, fill: nat, capacity: nat)
    ensures k >= |env| ==> At(env, k) == LAST && Accepted(fill, capacity, LAST.beforeProbe) == []
  {
  }

  /** A commit of the other side, dropped when it does not fit. */
  method Arrive(rb: Ring, data: Block) returns (accepted: seq<byte>)
    requires rb.Valid()
    modifies rb`tail, rb.buffer
    ensures rb.Valid()
    ensures accepted == Accepted(old(|rb.Contents()|), rb.capacity, data)
    ensures rb.Contents() == old(rb.Contents()) + accepted
  {
    var r := rb.Put(data);
    accepted := if r == 0 then data else [];
  }

  /** One fwrite of n bytes from a read grant, followed by rb_read_finished. */
  method WriteOut(rb: Ring, n: size_t) returns (written: seq<byte>)
    requires rb.Valid() && n <= |rb.Contents()|
    modifies rb
    ensures rb.Valid()
    ensures |written| == n && written + rb.Contents() == old(rb.Contents())
  {
    ghost var q := rb.Contents();
    var buf := rb.ReadPtr(n);
    written := View(rb.buffer[..], rb.capacity, buf.value, n);
    var r := rb.ReadFinished(n);
    assert written + q[n..] == q;
  }

  /** The branch taken when the exit condition holds after a failed probe. Whole
      blocks that became available in the gap are not drained. */
  method FinalDrain(rb: Ring, len: size_t, now: Moment)
    returns (written: seq<byte>, ghost gap: seq<byte>, ghost during: seq<byte>)
    requires rb.Valid() && |rb.Contents()| < len
    modifies rb, rb.buffer
    ensures rb.Valid()
    ensures gap == Accepted(old(|rb.Contents()|), rb.capacity, now.beforeRemaining)
    ensures during == DuringDrain(old(|rb.Contents()|) + |gap|, rb.capacity, len, now)
    ensures written + rb.Contents() == old(rb.Contents()) + (gap + during)
    ensures rb.Contents() == if |old(rb.Contents()) + gap| >= len then old(rb.Contents()) + gap else during
  {
    written, during := [], [];
    gap := Arrive(rb, now.beforeRemaining);
    var remaining := Sub(rb.tail, rb.head);
    if remaining > 0 && remaining < len {
      ghost var q := rb.Contents();
      during := Arrive(rb, now.beforeDrain);
      Regroup(old(rb.Contents()), gap, during);
      assert (q + during)[remaining..] == during;
      written := WriteOut(rb, remaining);
      assert rb.Contents() == (q + during)[remaining..];
    }
  }

  /** File and ring together hold the whole stream in order. */
  ghost predicate Covered(stream: seq<byte>, file: seq<byte>, q: seq<byte>): (covered: bool)
    ensures covered ==> |file| + |q| == |stream|
  {
    file + q == stream
  }

  lemma NothingWritten(stream: seq<byte>)
    ensures Covered(stream, [], stream)
  {
    assert [] + stream == stream;
  }

  lemma StreamGrows(file: seq<byte>, q: seq<byte>, more: seq<byte>, stream: seq<byte>)
    requires Covered(stream, file, q)
    ensures Covered(stream + more, file, q + more)
  {
    Regroup(file, q, more);
  }

  lemma FileGrows(file: seq<byte>, written: seq<byte>, rest: seq<byte>, q: seq<byte>, stream: seq<byte>)
    requires written + rest == q && Covered(stream, file, q)
    ensures Covered(stream, file + written, rest)
  {
    Regroup(file, written, rest);
  }

  /** The end of the run, after the final drain has turned q1 into rest. */
  lemma DrainEnds(t: Traffic, len: nat, file: seq<byte>, written: seq<byte>, rest: seq<byte>, q1: seq<byte>,
      stream: seq<byte>)
    requires Covered(stream, file, q1) && |q1| == t.left < len && t.stream == stream + (t.gap + t.during)
    requires t.during == [] || t.left + |t.gap| < len
    requires written + rest == q1 + (t.gap + t.during)
    requires rest == if |q1 + t.gap| >= len then q1 + t.gap else t.during
    ensures Drained(t, len, file + written, rest)
    ensures rest == [] <==> t.left + |t.gap| < len && t.during == []
    ensures rest == [] ==> file + written == t.stream
  {
    StreamGrows(file, q1, t.gap + t.during, stream);
    FileGrows(file, written, rest, q1 + (t.gap + t.during), t.stream);
  }

  /** What rb_writer_run makes of the traffic t: file and ring together hold the
      whole stream in order, and the ring holds what was there at the count of the
      remaining bytes if that was a block or more, and otherwise only what arrived
      after that count. */
  ghost predicate Drained(t: Traffic, len: nat, file: seq<byte>, q: seq<byte>) {
    && Covered(t.stream, file, q)
    && |q| == (if t.left + |t.gap| >= len then t.left + |t.gap| else |t.during|)
  }

  /** rb_writer_run with a sink that writes in full. Nothing is left in the ring
      exactly when the gap did not complete a block and nothing arrived during the
      drain. */
  method RbWriterRun(rb: Ring, len: size_t, env: seq<Moment>)
    returns (file: seq<byte>, total: nat, ghost t: Traffic)
    requires rb.Valid() && 0 < len
    modifies rb, rb.buffer
    ensures rb.Valid()
    ensures t == TrafficOf(old(rb.Contents()), old(|rb.Contents()|), rb.capacity, len, env, 0)
    ensures total == |file|
    ensures Drained(t, len, file, rb.Contents())
    ensures rb.Contents() == [] <==> t.left + |t.gap| < len && t.during == []
    ensures rb.Contents() == [] ==> file == t.stream
  {
    hide Ring.Contents, Ring.Free, View, Cell, Splice, Lag, ValidCapacity;
    hide TrafficOf, Accepted, DuringDrain, At, Covered, Drained;
    file, total := [], 0;
    ghost var stream := rb.Contents();
    NothingWritten(stream);
    t := TrafficOf(stream, |stream|, rb.capacity, len, env, 0);
    var k := 0;
    while true
      invariant rb.Valid() && 0 <= k <= |env|
      invariant total == |file|
      invariant Covered(stream, file, rb.Contents())
      invariant t == TrafficOf(stream, |rb.Contents()|, rb.capacity, len, env, k)
      decreases |env| - k, |rb.Contents()|
    {
      var now := At(env, k);
      NothingAfterLast(env, k, |rb.Contents()|, rb.capacity);
      ghost var c0 := rb.Contents();
      TrafficStep(stream, |c0|, rb.capacity, len, env, k);
      var more := Arrive(rb, now.beforeProbe);
      StreamGrows(file, c0, more, stream);
      stream := stream + more;
      ghost var c1 := rb.Contents();
      var buf := rb.ReadPtr(len);
      if buf.None? {
        if now.exit {
          var written;
          ghost var gap, during;
          written, gap, during := FinalDrain(rb, len, now);
          DrainEnds(t, len, file, written, rb.Contents(), c1, stream);
          file := file + written;
          total := total + |written|;
          break;
        }
        k := k + 1;
        continue;
      }
      var written := WriteOut(rb, len);
      FileGrows(file, written, rb.Contents(), c1, stream);
      file := file + written;
      total := total + |written|;
      k := if k < |env| then k + 1 else k;
    }
  }

  /** If the other side has stopped whenever the exit condition holds, then the
      drain leaves nothing behind, whatever came before. */
  lemma {:induction false} StoppedPeerLosesNothing(
      stream: seq<byte>, fill: nat, capacity: nat, len: nat, env: seq<Moment>, k: nat)
    requires fill <= capacity && fill <= |stream| && 0 < len && k <= |env|
    requires forall m :: m in env && m.exit ==> m.beforeRemaining == [] && m.beforeDrain == []
    ensures var t := TrafficOf(stream, fill, capacity, len, env, k); t.gap == [] && t.during == []
    decreases |env| - k, fill
  {
    var now := At(env, k);
    var more := Accepted(fill, capacity, now.beforeProbe);
    var f := fill + |more|;
    if f >= len {
      StoppedPeerLosesNothing(stream + more, f - len, capacity, len, env, if k < |env| then k + 1 else k);
    } else if !now.exit {
      StoppedPeerLosesNothing(stream + more, f, capacity, len, env, k + 1);
    } else {
      assert now == LAST || now in env;
    }
  }

  /** A block that arrives between the failed probe and the count of the remaining
      bytes is left behind, although the exit condition was checked before it. */
  method BlockLeftBehind(rb: Ring, len: size_t, block: Block) returns (file: seq<byte>)
    requires rb.Valid() && rb.Contents() == [] && 0 < len <= |block| <= rb.capacity
    modifies rb, rb.buffer
    ensures rb.Valid() && file == [] && rb.Contents() == block
  {
    var total;
    ghost var t;
    var moment := Moment([], true, block, []);
    file, total, t := RbWriterRun(rb, len, [moment]);
    assert At([moment], 0) == moment;
    assert t == Traffic(block, 0, block, []);
    assert file == [] && file + rb.Contents() == block;
  }
}
