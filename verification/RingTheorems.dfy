/** Theorems about whole runs of the ring machine whose head loads are safe:
    first-in first-out delivery and isolation of grants. */
module RingTheorems {
  import opened CTypes
  import opened RingArith
  import opened RingMachine
  import opened RingInvariant

  ghost predicate SafeSchedule(s: State, acts: seq<Action>)
    requires Valid(s, acts)
    decreases |acts|
  {
    acts == [] || (SafeStep(s, acts[0]) && SafeSchedule(Apply(s, acts[0]), acts[1..]))
  }

  lemma {:induction false} RunKeepsInv(s: State, acts: seq<Action>)
    requires Inv(s) && Valid(s, acts) && SafeSchedule(s, acts)
    ensures Inv(Run(s, acts))
    decreases |acts|
  {
    if acts != [] {
      StepKeepsInv(s, acts[0]);
      RunKeepsInv(Apply(s, acts[0]), acts[1..]);
    }
  }

  /** Both bases are whole laps, so virtual index and stream position agree
      modulo the capacity. */
  ghost predicate WholeLaps(r: Ring) {
    r.headBase % r.capacity == 0 && r.tailBase % r.capacity == 0
  }

  lemma MulSuccessor(c: nat, a: int, k: nat)
    ensures c * (a + 1 + k) >= c * a + c
  {
    assert c * k >= 0;
    assert c * (a + 1 + k) == c * a + c + c * k;
  }

  lemma MulOrder(c: nat, a: int, b: int)
    ensures a < b ==> c * a + c <= c * b
    ensures b < a ==> c * b + c <= c * a
  {
    if a < b {
      MulSuccessor(c, a, b - a - 1);
    } else if b < a {
      MulSuccessor(c, b, a - b - 1);
    }
  }

  /** Quotient and remainder of a sum are determined by their bounds. */
  lemma ModOfSum(q: int, x: nat, v: nat, capacity: nat)
    requires x < capacity && v == capacity * q + x
    ensures v % capacity == x
  {
    MulOrder(capacity, q, v / capacity);
    assert v == capacity * (v / capacity) + v % capacity;
  }

  lemma LapAdded(base: nat, capacity: nat)
    requires 0 < capacity && base % capacity == 0
    ensures (base + capacity) % capacity == 0
  {
    var q := base / capacity;
    assert base == capacity * q + base % capacity;
    assert capacity * (q + 1) == capacity * q + capacity;
    ModOfSum(q + 1, 0, base + capacity, capacity);
  }

  /** The cell of a virtual index is the stream position modulo the capacity. */
  lemma CellIsPosition(base: nat, x: nat, capacity: size_t)
    requires 0 < capacity && base % capacity == 0 && x < 2 * capacity
    ensures (base + x) % capacity == Cell(capacity, x)
  {
    var q := base / capacity;
    assert base == capacity * q + base % capacity;
    if x < capacity {
      ModOfSum(q, x, base + x, capacity);
    } else {
      assert capacity * (q + 1) == capacity * q + capacity;
      ModOfSum(q + 1, x - capacity, base + x, capacity);
    }
  }

  lemma WrapKeepsLaps(r: Ring)
    requires WholeLaps(r)
    ensures WholeLaps(WrapHead(r)) && WholeLaps(WrapTail(r))
  {
    LapAdded(r.headBase, r.capacity);
    LapAdded(r.tailBase, r.capacity);
  }

  lemma SameBasesKeepLaps(r: Ring, r': Ring)
    requires WholeLaps(r) && r'.capacity == r.capacity && r'.headBase == r.headBase && r'.tailBase == r.tailBase
    ensures WholeLaps(r')
  {
  }

  lemma StepKeepsLaps(s: State, a: Action)
    requires Enabled(s, a) && WholeLaps(s.r)
    ensures WholeLaps(Apply(s, a).r) && Apply(s, a).r.capacity == s.r.capacity
  {
    hide View, Cell, WriteAccepts, ReadAccepts, WholeLaps;
    if a.CWrapHead? || a.CWrapTail? {
      WrapKeepsLaps(s.r);
    } else {
      assert Apply(s, a).r.headBase == s.r.headBase && Apply(s, a).r.tailBase == s.r.tailBase;
      SameBasesKeepLaps(s.r, Apply(s, a).r);
    }
  }

  lemma {:induction false} RunKeepsLaps(s: State, acts: seq<Action>)
    requires Valid(s, acts) && WholeLaps(s.r)
    ensures WholeLaps(Run(s, acts).r) && Run(s, acts).r.capacity == s.r.capacity
    decreases |acts|
  {
    if acts != [] {
      StepKeepsLaps(s, acts[0]);
      RunKeepsLaps(Apply(s, acts[0]), acts[1..]);
    }
  }

  /** Byte p of the committed stream is stored in cell p modulo the capacity as
      long as it is unread. */
  ghost predicate UnreadIntact(r: Ring) {
    forall p :: |r.got| <= p < |r.sent| ==> r.mem[StreamCell(r.capacity, p)] == r.sent[p]
  }

  /** The cell of the i-th byte of a granted region. */
  function GrantCell(capacity: size_t, ptr: nat, i: nat): nat
    requires ptr + i < 2 * capacity
  {
    Cell(capacity, ptr + i)
  }

  /** A granted write region starts at the true write position, lies within the
      two mappings and shares no cell with an unread byte. */
  ghost predicate GrantIsolated(s: State) {
    s.producer.PGranted? ==>
      var ptr, n := s.producer.ptr, |s.producer.data|;
      && ptr + n <= 2 * s.r.capacity
      && (forall i :: 0 <= i < n ==> GrantCell(s.r.capacity, ptr, i) == (|s.r.sent| + i) % s.r.capacity)
      && (forall i, p :: 0 <= i < n && |s.r.got| <= p < |s.r.sent| ==>
            GrantCell(s.r.capacity, ptr, i) != StreamCell(s.r.capacity, p))
  }

  /** The cell of stream position p. */
  function StreamCell(capacity: size_t, p: nat): nat
    requires 0 < capacity
  {
    p % capacity
  }

  /** A granted read region shows the oldest unread committed bytes. */
  ghost predicate ReadExposesCommitted(s: State) {
    s.consumer.CGranted? ==>
      var ptr, n := s.consumer.ptr, s.consumer.size;
      && n <= Fill(s.r)
      && ptr + n <= 2 * s.r.capacity
      && View(s.r.mem, s.r.capacity, ptr, n) == s.r.sent[|s.r.got|..|s.r.got| + n]
  }

  lemma UnreadPosition(r: Ring, c: Consumer, p: nat)
    requires Positions(r, c) && Data(r) && WholeLaps(r) && |r.got| <= p < |r.sent|
    ensures r.mem[p % r.capacity] == r.sent[p]
    ensures p % r.capacity == Cell(r.capacity, p - r.tailBase)
  {
    assert r.mem[Cell(r.capacity, p - r.tailBase)] == r.sent[p];
    CellIsPosition(r.tailBase, p - r.tailBase, r.capacity);
  }

  lemma UnreadStaysIntact(r: Ring, c: Consumer)
    requires Positions(r, c) && Data(r) && WholeLaps(r)
    ensures UnreadIntact(r)
  {
    forall p | |r.got| <= p < |r.sent|
      ensures r.mem[StreamCell(r.capacity, p)] == r.sent[p]
    {
      UnreadPosition(r, c, p);
    }
  }

  lemma GrantPosition(r: Ring, c: Consumer, data: Block, ptr: size_t, stored: nat, i: nat)
    requires Positions(r, c) && WholeLaps(r) && Stored(r, data, ptr, stored) && i < |data|
    ensures GrantCell(r.capacity, ptr, i) == (|r.sent| + i) % r.capacity
    ensures GrantCell(r.capacity, ptr, i) == Cell(r.capacity, r.tail + i)
  {
    CellIsPosition(r.tailBase, r.tail + i, r.capacity);
  }

  lemma GrantApart(r: Ring, c: Consumer, data: Block, ptr: size_t, stored: nat, i: nat, p: nat)
    requires Positions(r, c) && Data(r) && WholeLaps(r) && Stored(r, data, ptr, stored)
    requires Fits(r, |data|) && i < |data| && |r.got| <= p < |r.sent|
    ensures GrantCell(r.capacity, ptr, i) != StreamCell(r.capacity, p)
  {
    GrantPosition(r, c, data, ptr, stored, i);
    UnreadPosition(r, c, p);
  }

  lemma GrantStaysIsolated(s: State)
    requires Inv(s) && WholeLaps(s.r) && s.producer.PGranted?
    ensures GrantIsolated(s)
  {
    var r, data, ptr, k := s.r, s.producer.data, s.producer.ptr, s.producer.stored;
    forall i | 0 <= i < |data|
      ensures GrantCell(r.capacity, ptr, i) == (|r.sent| + i) % r.capacity
    {
      GrantPosition(r, s.consumer, data, ptr, k, i);
    }
    forall i, p | 0 <= i < |data| && |r.got| <= p < |r.sent|
      ensures GrantCell(r.capacity, ptr, i) != StreamCell(r.capacity, p)
    {
      GrantApart(r, s.consumer, data, ptr, k, i, p);
    }
  }

  lemma ReadStaysCommitted(s: State)
    requires Inv(s)
    ensures ReadExposesCommitted(s)
  {
    if s.consumer.CGranted? {
      ReadViewIsCommitted(s.r, s.consumer, s.consumer.size);
    }
  }

  /** Main theorem. In every interleaving whose head loads are safe, the consumer
      has received a prefix of what was committed, every unread byte is intact,
      write grants are isolated from unread bytes and read grants expose only
      committed ones. */
  lemma RunIsFifo(capacity: size_t, mem: seq<byte>, acts: seq<Action>)
    requires ValidCapacity(capacity) && |mem| == capacity
    requires Valid(Init(capacity, mem), acts) && SafeSchedule(Init(capacity, mem), acts)
    ensures var s := Run(Init(capacity, mem), acts);
      && s.r.got <= s.r.sent
      && |s.r.sent| <= |s.r.got| + capacity
      && UnreadIntact(s.r)
      && GrantIsolated(s)
      && ReadExposesCommitted(s)
  {
    var s0 := Init(capacity, mem);
    InitInv(capacity, mem);
    RunKeepsInv(s0, acts);
    RunKeepsLaps(s0, acts);
    var s := Run(s0, acts);
    UnreadStaysIntact(s.r, s.consumer);
    if s.producer.PGranted? {
      GrantStaysIsolated(s);
    }
    ReadStaysCommitted(s);
  }
}
