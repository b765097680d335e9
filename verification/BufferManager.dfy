/** One buffer of buffer_manager.c: begin and end of writes and reads with their
    counters, the retry loops, and the observer of RF writes. A peer that acts
    while a side waits appears as the amounts it transfers during each wait. */
module BufferManager {
  import opened CTypes
  import opened RingArith
  import opened RingBuffer

  /** A call of the RF write observer. */
  datatype Call = Call(position: nat, bytes: nat)

  /** The calls cover [0, end) in order, without gap or overlap. */
  predicate Tiles(calls: seq<Call>, end: nat) {
    if calls == [] then end == 0
    else
      var last := calls[|calls| - 1];
      last.position + last.bytes == end && Tiles(calls[..|calls| - 1], last.position)
  }

  /** Every byte position below the end belongs to exactly one call. */
  lemma {:induction false} TilesCoverOnce(calls: seq<Call>, end: nat, p: nat)
    requires Tiles(calls, end) && p < end
    ensures exists i :: 0 <= i < |calls| && calls[i].position <= p < calls[i].position + calls[i].bytes
    ensures forall i, j :: 0 <= i < j < |calls| ==> calls[i].position + calls[i].bytes <= calls[j].position
    decreases |calls|
  {
    var n := |calls| - 1;
    var last, before := calls[n], calls[..n];
    TilesInOrder(calls, end);
    if p < last.position {
      TilesCoverOnce(before, last.position, p);
      var i :| 0 <= i < |before| && before[i].position <= p < before[i].position + before[i].bytes;
      assert calls[i] == before[i];
    }
  }

  lemma {:induction false} TilesInOrder(calls: seq<Call>, end: nat)
    requires Tiles(calls, end)
    ensures forall i :: 0 <= i < |calls| ==> calls[i].position + calls[i].bytes <= end
    ensures forall i, j :: 0 <= i < j < |calls| ==> calls[i].position + calls[i].bytes <= calls[j].position
    decreases |calls|
  {
    if calls != [] {
      var n := |calls| - 1;
      var last, before := calls[n], calls[..n];
      TilesInOrder(before, last.position);
      forall i, j | 0 <= i < j < |calls|
        ensures calls[i].position + calls[i].bytes <= calls[j].position
      {
        assert calls[i] == before[i];
        if j < n {
          assert calls[j] == before[j];
        }
      }
      forall i | 0 <= i < |calls| ensures calls[i].position + calls[i].bytes <= end {
        if i < n {
          assert calls[i] == before[i];
        }
      }
    }
  }

  function Min(a: nat, b: nat): nat {
    if a < b then a else b
  }

  /** The number of waits after which a request first fits, when wait number i
      takes peer[i] bytes out of the ring; None when even the last wait allowed is
      not enough. */
  function FirstFit(fill: nat, capacity: nat, bytes: nat, peer: seq<size_t>, waits: nat,
      limit: nat): (r: Option<nat>)
    requires waits <= limit <= |peer|
    ensures r.Some? ==> waits <= r.value <= limit
    decreases limit - waits
  {
    if fill + bytes <= capacity then Some(waits)
    else if waits == limit then None
    else FirstFit(fill - Min(peer[waits], fill), capacity, bytes, peer, waits + 1, limit)
  }

  /** The fill level after the first n waits. */
  function FillAfter(fill: nat, peer: seq<size_t>, n: nat): nat
    requires n <= |peer|
  {
    if n == 0 then fill
    else
      var before := FillAfter(fill, peer, n - 1);
      before - Min(peer[n - 1], before)
  }

  lemma FirstFitStart(fill: nat, peer: seq<size_t>)
    ensures FillAfter(fill, peer, 0) == fill
  {
  }

  /** One probe of the wait loop. */
  lemma FirstFitStep(start: nat, capacity: nat, bytes: nat, peer: seq<size_t>, n: nat, limit: nat)
    requires n <= limit <= |peer|
    ensures var fill := FillAfter(start, peer, n);
      && FirstFit(fill, capacity, bytes, peer, n, limit) == (
           if fill + bytes <= capacity then Some(n)
           else if n == limit then None
           else FirstFit(FillAfter(start, peer, n + 1), capacity, bytes, peer, n + 1, limit))
      && (n < limit ==> FillAfter(start, peer, n + 1) == fill - Min(peer[n], fill))
  {
  }

  lemma {:induction false} FirstFitExact(start: nat, capacity: nat, bytes: nat, peer: seq<size_t>, waits: nat,
      limit: nat)
    requires waits <= limit <= |peer|
    requires forall i :: 0 <= i < waits ==> FillAfter(start, peer, i) + bytes > capacity
    ensures match FirstFit(FillAfter(start, peer, waits), capacity, bytes, peer, waits, limit)
      case Some(k) =>
        k <= limit && FillAfter(start, peer, k) + bytes <= capacity
        && forall i :: 0 <= i < k ==> FillAfter(start, peer, i) + bytes > capacity
      case None => forall i :: 0 <= i <= limit ==> FillAfter(start, peer, i) + bytes > capacity
    decreases limit - waits
  {
    if FillAfter(start, peer, waits) + bytes > capacity && waits < limit {
      FirstFitExact(start, capacity, bytes, peer, waits + 1, limit);
    }
  }

  /** The wait that exhausts a positive timeout, in steps of at most 20 ms. */
  function LastWait(timeoutMs: nat): (n: nat)
    requires 0 < timeoutMs
    ensures n >= 1
  {
    if timeoutMs <= 20 then 1 else (timeoutMs + 19) / 20
  }

  /** The wait after which the steps of 20 ms first reach the timeout. */
  lemma LastWaitExact(timeoutMs: nat)
    requires 0 < timeoutMs
    ensures 20 * (LastWait(timeoutMs) - 1) < timeoutMs <= 20 * LastWait(timeoutMs)
  {
  }

  /** The waits after which a probe counts: all but the one that exhausts a positive
      timeout. */
  function UsefulWaits(timeoutMs: int, arrive: seq<Block>): (n: nat)
    requires timeoutMs > 0 ==> |arrive| >= LastWait(timeoutMs)
    ensures n <= |arrive|
  {
    if timeoutMs > 0 then LastWait(timeoutMs) - 1 else |arrive|
  }

  /** The queue after the first n waits, when block arrive[i] is offered during wait
      i and dropped if it does not fit. */
  function Arrived(q: seq<byte>, capacity: nat, arrive: seq<Block>, n: nat): (r: seq<byte>)
    requires n <= |arrive|
    ensures q <= r
  {
    if n == 0 then q else Offer(Arrived(q, capacity, arrive, n - 1), capacity, arrive[n - 1])
  }

  function Offer(q: seq<byte>, capacity: nat, data: Block): seq<byte> {
    if |q| + |data| <= capacity then q + data else q
  }

  /** The number of waits after which a read first finds enough data; None when
      even the last wait whose probe counts does not bring enough. */
  function FirstReady(q: seq<byte>, capacity: nat, bytes: nat, arrive: seq<Block>, waits: nat,
      limit: nat): (r: Option<nat>)
    requires waits <= limit <= |arrive|
    ensures r.Some? ==> waits <= r.value <= limit
    decreases limit - waits
  {
    if bytes <= |q| then Some(waits)
    else if waits == limit then None
    else FirstReady(Offer(q, capacity, arrive[waits]), capacity, bytes, arrive, waits + 1, limit)
  }

  lemma {:induction false} FirstReadyExact(start: seq<byte>, capacity: nat, bytes: nat, arrive: seq<Block>,
      waits: nat, limit: nat)
    requires waits <= limit <= |arrive|
    requires forall i :: 0 <= i < waits ==> |Arrived(start, capacity, arrive, i)| < bytes
    ensures match FirstReady(Arrived(start, capacity, arrive, waits), capacity, bytes, arrive, waits, limit)
      case Some(k) =>
        k <= limit && bytes <= |Arrived(start, capacity, arrive, k)|
        && forall i :: 0 <= i < k ==> |Arrived(start, capacity, arrive, i)| < bytes
      case None => forall i :: 0 <= i <= limit ==> |Arrived(start, capacity, arrive, i)| < bytes
    decreases limit - waits
  {
    if |Arrived(start, capacity, arrive, waits)| < bytes && waits < limit {
      FirstReadyExact(start, capacity, bytes, arrive, waits + 1, limit);
    }
  }

  lemma {:induction false} ArrivedGrows(q: seq<byte>, capacity: nat, arrive: seq<Block>, i: nat, n: nat)
    requires i <= n <= |arrive|
    ensures Arrived(q, capacity, arrive, i) <= Arrived(q, capacity, arrive, n)
    decreases n - i
  {
    if i < n {
      ArrivedGrows(q, capacity, arrive, i, n - 1);
    }
  }

  lemma {:induction false} ArrivedFits(q: seq<byte>, capacity: nat, arrive: seq<Block>, n: nat)
    requires n <= |arrive| && |q| <= capacity
    ensures |Arrived(q, capacity, arrive, n)| <= capacity
    decreases n
  {
    if n > 0 {
      ArrivedFits(q, capacity, arrive, n - 1);
    }
  }

  lemma {:induction false} NothingArrived(q: seq<byte>, capacity: nat, arrive: seq<Block>, n: nat)
    requires n <= |arrive| && forall i :: 0 <= i < n ==> arrive[i] == []
    ensures Arrived(q, capacity, arrive, n) == q
    decreases n
  {
    if n > 0 {
      NothingArrived(q, capacity, arrive, n - 1);
    }
  }

  /** A read fails with enough data in the ring exactly when the data became enough
      during the wait that exhausted the timeout. */
  lemma LastProbeThrownAway(q: seq<byte>, capacity: nat, bytes: nat, arrive: seq<Block>, timeoutMs: nat)
    requires 0 < timeoutMs && LastWait(timeoutMs) <= |arrive|
    ensures var n := LastWait(timeoutMs);
      && FirstReady(q, capacity, bytes, arrive, 0, UsefulWaits(timeoutMs, arrive)) == None
      && bytes <= |Arrived(q, capacity, arrive, n)|
      <==> |Arrived(q, capacity, arrive, n - 1)| < bytes <= |Arrived(q, capacity, arrive, n)|
  {
    var n := LastWait(timeoutMs);
    FirstReadyExact(q, capacity, bytes, arrive, 0, n - 1);
    match FirstReady(q, capacity, bytes, arrive, 0, n - 1)
    case Some(k) => ArrivedGrows(q, capacity, arrive, k, n - 1);
    case None =>
  }

  /** The data comes too late by one probe: nothing until the last wait, then all. */
  lemma ArrivesTooLate(q: seq<byte>, capacity: size_t, bytes: nat, timeoutMs: nat) returns (arrive: seq<Block>)
    requires 0 < timeoutMs && |q| < bytes <= capacity
    ensures |arrive| == LastWait(timeoutMs) && bytes <= |Arrived(q, capacity, arrive, LastWait(timeoutMs))|
    ensures FirstReady(q, capacity, bytes, arrive, 0, UsefulWaits(timeoutMs, arrive)).None?
  {
    var n := LastWait(timeoutMs);
    var missing: Block := seq(bytes - |q|, _ => 0);
    arrive := seq(n - 1, _ => []) + [missing];
    NothingArrived(q, capacity, arrive, n - 1);
    LastProbeThrownAway(q, capacity, bytes, arrive, timeoutMs);
  }

  /** Exact condition. A read with a timeout, however long, is sure to return data that
      arrives within the timeout if and only if the data is there at the call or the
      request exceeds the ring. */
  lemma TimedReadExact(q: seq<byte>, capacity: size_t, bytes: nat, timeoutMs: nat)
    requires 0 < timeoutMs && |q| <= capacity
    ensures (bytes <= |q| || bytes > capacity) <==>
      forall arrive |
        |arrive| >= LastWait(timeoutMs) && bytes <= |Arrived(q, capacity, arrive, LastWait(timeoutMs))| ::
        FirstReady(q, capacity, bytes, arrive, 0, UsefulWaits(timeoutMs, arrive)).Some?
  {
    if |q| < bytes <= capacity {
      var arrive := ArrivesTooLate(q, capacity, bytes, timeoutMs);
    } else {
      forall arrive: seq<Block> | |arrive| >= LastWait(timeoutMs)
        ensures |Arrived(q, capacity, arrive, LastWait(timeoutMs))| <= capacity
      {
        ArrivedFits(q, capacity, arrive, LastWait(timeoutMs));
      }
    }
  }

  /** q with some bytes taken from its front. */
  predicate IsSuffix(q: seq<byte>, of: seq<byte>) {
    |q| <= |of| && q == of[|of| - |q|..]
  }

  lemma StillSuffix(q: seq<byte>, of: seq<byte>, n: nat)
    requires IsSuffix(q, of)
    ensures IsSuffix(q[Min(n, |q|)..], of) && |q[Min(n, |q|)..]| == |q| - Min(n, |q|)
  {
  }

  lemma WholeIsSuffix(q: seq<byte>)
    ensures IsSuffix(q, q)
  {
  }

  class Buffer {
    const ring: Ring
    const observed: bool
    var bytesWritten: nat
    var bytesRead: nat
    var writeWaits: nat
    var writeDrops: nat
    var readWaits: nat
    var readTimeouts: nat
    var calls: seq<Call>

    ghost predicate Valid()
      reads this`bytesWritten, this`calls, ring, ring.buffer
    {
      ring.Valid() && if observed then Tiles(calls, bytesWritten) else calls == []
    }

    /** The counters agree with the ring. */
    ghost predicate Balanced()
      requires Valid()
      reads this`bytesWritten, this`bytesRead, this`calls, ring, ring.buffer
    {
      bytesWritten - bytesRead == |ring.Contents()|
    }

    constructor (capacity: size_t, observed: bool)
      requires ValidCapacity(capacity)
      ensures Valid() && fresh(ring) && fresh(ring.buffer) && this.observed == observed
      ensures ring.Contents() == [] && Balanced() && bytesWritten == 0
    {
      ring := new Ring(capacity);
      this.observed := observed;
      bytesWritten, bytesRead, writeWaits, writeDrops, readWaits, readTimeouts := 0, 0, 0, 0, 0, 0;
      calls := [];
    }

    /** The peer ends reads of n bytes in all while the producer waits. */
    method PeerReads(n: size_t)
      requires Valid()
      modifies this`bytesRead, ring
      ensures Valid() && (old(Balanced()) ==> Balanced())
      ensures ring.Contents() == old(ring.Contents())[Min(n, old(|ring.Contents()|))..]
    {
      var fill := Sub(ring.tail, ring.head);
      ReadEnd(if n < fill then n else fill);
    }

    /** The peer commits data while the consumer waits. */
    method PeerWrites(data: Block)
      requires Valid()
      modifies this`bytesWritten, this`calls, ring, ring.buffer
      ensures Valid() && (old(Balanced()) ==> Balanced())
      ensures ring.Contents() == Offer(old(ring.Contents()), ring.capacity, data)
    {
      var ptr := ring.WritePtr(|data|);
      if ptr.Some? {
        ring.Copy(ptr.value, data);
        WriteEnd(|data|);
      }
    }

    /** The wait loop of bufmgr_write_begin, entered after a failed probe. */
    method WaitForRoom(bytes: size_t, maxWaitAttempts: int, peer: seq<size_t>) returns (ptr: Option<size_t>)
      requires Valid() && bytes > ring.Free()
      requires |peer| >= maxWaitAttempts
      modifies this`bytesRead, this`writeWaits, this`writeDrops, ring
      ensures Valid() && (old(Balanced()) ==> Balanced())
      ensures IsSuffix(ring.Contents(), old(ring.Contents()))
      ensures ptr == if bytes <= ring.Free() then Some(ring.tail) else None
      ensures var limit := Max0(maxWaitAttempts);
        match FirstFit(old(|ring.Contents()|), ring.capacity, bytes, peer, 0, limit)
        case Some(waits) =>
          |ring.Contents()| == FillAfter(old(|ring.Contents()|), peer, waits) && ptr.Some?
          && writeDrops == old(writeDrops) && writeWaits == old(writeWaits) + waits
        case None =>
          |ring.Contents()| == FillAfter(old(|ring.Contents()|), peer, limit) && ptr.None?
          && writeDrops == old(writeDrops) + 1 && writeWaits == old(writeWaits) + limit + 1
    {
      hide View, Tiles, Ring.Contents, Balanced, FirstFit, FillAfter, IsSuffix, Min;
      ghost var q0, limit := ring.Contents(), Max0(maxWaitAttempts);
      FirstFitStart(|q0|, peer);
      WholeIsSuffix(q0);
      var attempts := 0;
      ptr := None;
      while ptr == None
        invariant Valid() && (old(Balanced()) ==> Balanced())
        invariant 0 <= attempts <= limit
        invariant IsSuffix(ring.Contents(), q0) && |ring.Contents()| == FillAfter(|q0|, peer, attempts)
        invariant writeWaits == old(writeWaits) + attempts && writeDrops == old(writeDrops)
        invariant ptr == if bytes <= ring.Free() then Some(ring.tail) else None
        invariant FirstFit(|q0|, ring.capacity, bytes, peer, 0, limit)
          == FirstFit(|ring.Contents()|, ring.capacity, bytes, peer, attempts, limit)
        decreases maxWaitAttempts - attempts
      {
        FirstFitStep(|q0|, ring.capacity, bytes, peer, attempts, limit);
        attempts := attempts + 1;
        writeWaits := writeWaits + 1;
        if attempts > maxWaitAttempts {
          writeDrops := writeDrops + 1;
          return;
        }
        StillSuffix(ring.Contents(), q0, peer[attempts - 1]);
        PeerReads(peer[attempts - 1]);
        ptr := ring.WritePtr(bytes);
      }
      FirstFitStep(|q0|, ring.capacity, bytes, peer, attempts, limit);
    }

    /** bufmgr_write_begin. A refusal counts one drop; unless the policy forbids
        waiting it comes after one more counted wait than attempts allowed. */
    method WriteBegin(bytes: size_t, maxWaitAttempts: int, peer: seq<size_t>) returns (ptr: Option<size_t>)
      requires Valid()
      requires |peer| >= maxWaitAttempts
      modifies this`bytesRead, this`writeWaits, this`writeDrops, ring
      ensures Valid() && (old(Balanced()) ==> Balanced())
      ensures IsSuffix(ring.Contents(), old(ring.Contents()))
      ensures ptr == if bytes <= ring.Free() then Some(ring.tail) else None
      ensures var limit := Max0(maxWaitAttempts);
        match FirstFit(old(|ring.Contents()|), ring.capacity, bytes, peer, 0, limit)
        case Some(waits) =>
          |ring.Contents()| == FillAfter(old(|ring.Contents()|), peer, waits) && ptr.Some?
          && writeDrops == old(writeDrops) && writeWaits == old(writeWaits) + waits
        case None =>
          |ring.Contents()| == FillAfter(old(|ring.Contents()|), peer, limit) && ptr.None?
          && writeDrops == old(writeDrops) + 1
          && writeWaits == old(writeWaits) + if maxWaitAttempts == 0 then 0 else limit + 1
    {
      hide View, Tiles, Ring.Contents, FirstFit, FillAfter, IsSuffix;
      WholeIsSuffix(ring.Contents());
      ptr := ring.WritePtr(bytes);
      FirstFitStart(|ring.Contents()|, peer);
      FirstFitStep(|ring.Contents()|, ring.capacity, bytes, peer, 0, Max0(maxWaitAttempts));
      if ptr.Some? {
        return;
      }
      if maxWaitAttempts == 0 {
        writeDrops := writeDrops + 1;
        return;
      }
      ptr := WaitForRoom(bytes, maxWaitAttempts, peer);
    }

    /** bufmgr_write_end: the observer hears of the bytes first, and they are
        counted whether the ring takes them or not. */
    method WriteEnd(bytes: size_t)
      requires Valid()
      modifies this`bytesWritten, this`calls, ring`tail
      ensures Valid()
      ensures ring.Contents() == old(ring.Contents())
        + if bytes <= old(ring.Free()) then View(ring.buffer[..], ring.capacity, old(ring.tail), bytes) else []
      ensures bytesWritten == old(bytesWritten) + bytes
      ensures calls == if observed then old(calls) + [Call(old(bytesWritten), bytes)] else old(calls)
      ensures old(Balanced()) ==> (Balanced() <==> bytes <= old(ring.Free()))
    {
      if observed {
        calls := calls + [Call(bytesWritten, bytes)];
        assert calls[..|calls| - 1] == old(calls);
      }
      var r := ring.WriteFinished(bytes);
      bytesWritten := bytesWritten + bytes;
    }

    /** bufmgr_read_begin. The probe made after the wait that exhausts the timeout is
        thrown away even when it succeeded. With a negative timeout the call returns
        only once enough data is there, so that has to happen at some time. */
    method ReadBegin(bytes: size_t, timeoutMs: int, arrive: seq<Block>) returns (ptr: Option<size_t>)
      requires Valid()
      requires timeoutMs > 0 ==> |arrive| >= LastWait(timeoutMs)
      requires timeoutMs < 0 ==> FirstReady(ring.Contents(), ring.capacity, bytes, arrive, 0, |arrive|).Some?
      modifies this`bytesWritten, this`calls, this`readWaits, this`readTimeouts, ring, ring.buffer
      ensures Valid() && (old(Balanced()) ==> Balanced())
      ensures old(ring.Contents()) <= ring.Contents()
      ensures ptr.Some? ==> ptr == Some(ring.head) && bytes <= |ring.Contents()|
      ensures timeoutMs == 0 ==> (ptr.Some? <==> bytes <= |old(ring.Contents())|)
      ensures timeoutMs == 0 ==> readWaits == old(readWaits) && readTimeouts == old(readTimeouts)
      ensures timeoutMs == 0 ==> ring.Contents() == old(ring.Contents())
      ensures timeoutMs != 0 ==>
        match FirstReady(old(ring.Contents()), ring.capacity, bytes, arrive, 0, UsefulWaits(timeoutMs, arrive))
        case Some(waits) =>
          ptr.Some? && readWaits == old(readWaits) + waits && readTimeouts == old(readTimeouts)
          && ring.Contents() == Arrived(old(ring.Contents()), ring.capacity, arrive, waits)
        case None =>
          ptr == None && readWaits == old(readWaits) + LastWait(timeoutMs) && readTimeouts == old(readTimeouts) + 1
          && ring.Contents() == Arrived(old(ring.Contents()), ring.capacity, arrive, LastWait(timeoutMs))
    {
      hide View, Tiles, Ring.Contents, Balanced, Offer;
      ptr := ring.ReadPtr(bytes);
      if ptr.Some? {
        return;
      }
      if timeoutMs == 0 {
        return;
      }
      var elapsed, waitChunk := 0, 20;
      if timeoutMs > 0 && timeoutMs < waitChunk {
        waitChunk := timeoutMs;
      }
      var n := 0;
      ghost var limit, q0 := UsefulWaits(timeoutMs, arrive), ring.Contents();
      while ptr == None
        invariant Valid() && (old(Balanced()) ==> Balanced())
        invariant 0 <= n <= limit
        invariant timeoutMs > 0 ==> elapsed == 20 * n && waitChunk == Min(20, timeoutMs)
        invariant ring.Contents() == Arrived(q0, ring.capacity, arrive, n)
        invariant readWaits == old(readWaits) + n && readTimeouts == old(readTimeouts)
        invariant ptr == if bytes <= |ring.Contents()| then Some(ring.head) else None
        invariant FirstReady(q0, ring.capacity, bytes, arrive, 0, limit)
          == FirstReady(ring.Contents(), ring.capacity, bytes, arrive, n, limit)
        decreases limit - n
      {
        readWaits := readWaits + 1;
        PeerWrites(arrive[n]);
        assert ring.Contents() == Arrived(q0, ring.capacity, arrive, n + 1);
        ptr := ring.ReadPtr(bytes);
        if timeoutMs > 0 {
          elapsed := elapsed + waitChunk;
          if elapsed >= timeoutMs {
            readTimeouts := readTimeouts + 1;
            return None;
          }
        }
        n := n + 1;
      }
    }

    /** bufmgr_read_end: the bytes are counted whether the ring gives them or not. */
    method ReadEnd(bytes: size_t)
      requires Valid()
      modifies this`bytesRead, ring`head, ring`tail
      ensures Valid() && bytesRead == old(bytesRead) + bytes
      ensures ring.Contents()
        == if bytes <= old(|ring.Contents()|) then old(ring.Contents())[bytes..] else old(ring.Contents())
      ensures old(Balanced()) ==> (Balanced() <==> bytes <= old(|ring.Contents()|))
    {
      var r := ring.ReadFinished(bytes);
      bytesRead := bytesRead + bytes;
    }

    method Reset()
      requires Valid()
      modifies this, ring
      ensures Valid() && Balanced() && ring.Contents() == []
      ensures bytesWritten == bytesRead == writeWaits == writeDrops == readWaits == readTimeouts == 0
      ensures calls == []
    {
      ring.head := 0;
      ring.tail := 0;
      bytesWritten, bytesRead, writeWaits, writeDrops, readWaits, readTimeouts := 0, 0, 0, 0, 0, 0;
      calls := [];
    }

    method FillLevel() returns (fill: size_t)
      requires Valid()
      ensures fill == |ring.Contents()|
      ensures Balanced() ==> fill == bytesWritten - bytesRead
    {
      fill := Sub(ring.tail, ring.head);
    }
  }

  function Max0(n: int): nat {
    if n < 0 then 0 else n
  }
}
