/** Schedules from an empty ring of any capacity which show that the hypothesis on
    head loads is needed and that a granted write can be lost. */
module RingSchedules {
  import opened CTypes
  import opened RingArith
  import opened RingMachine
  import opened RingInvariant
  import opened RingConsumerRuns
  import opened RingGrants

  /** By a schedule whose consumer releases exactly what it was granted. */
  ghost predicate Reaches(s: State, t: State) {
    exists acts :: Valid(s, acts) && Orderly(s, acts) && Run(s, acts) == t
  }

  lemma ReachesRun(s: State, t: State, more: seq<Action>)
    requires Reaches(s, t) && Valid(t, more) && Orderly(t, more)
    ensures Reaches(s, Run(t, more))
  {
    var acts :| Valid(s, acts) && Orderly(s, acts) && Run(s, acts) == t;
    OrderlyConcat(s, acts, more);
  }

  lemma ReachesStep(s: State, t: State, a: Action)
    requires Reaches(s, t) && OrderlyStep(t, a)
    ensures Reaches(s, Apply(t, a))
  {
    OrderlyCons(t, a, []);
    ReachesRun(s, t, [a]);
  }

  /** The ring after the bytes of data from k on have been copied to ptr. */
  function Copied(r: Ring, data: Block, ptr: nat, k: nat): (r': Ring)
    requires k <= |data| && ptr + |data| <= 2 * r.capacity
    ensures r' == r.(mem := r'.mem)
    decreases |data| - k
  {
    if k == |data| then r else Copied(StoreByte(r, ptr + k, data[k]), data, ptr, k + 1)
  }

  lemma {:induction false} LastByteCopied(r: Ring, data: Block, ptr: nat, k: nat)
    requires k < |data| && ptr + |data| <= 2 * r.capacity
    ensures Copied(r, data, ptr, k).mem[Cell(r.capacity, ptr + |data| - 1)] == data[|data| - 1]
    decreases |data| - k
  {
    var r1 := StoreByte(r, ptr + k, data[k]);
    if k + 1 < |data| {
      LastByteCopied(r1, data, ptr, k + 1);
    } else {
      assert Copied(r, data, ptr, k) == Copied(r1, data, ptr, k + 1) == r1;
    }
  }

  lemma {:induction false} ReachesCopied(s: State, t: State)
    requires Reaches(s, t) && t.producer.PGranted? && t.producer.stored <= |t.producer.data|
    requires t.producer.ptr + |t.producer.data| <= 2 * t.r.capacity
    ensures var p := t.producer;
      Reaches(s, t.(r := Copied(t.r, p.data, p.ptr, p.stored), producer := PGranted(p.data, p.ptr, |p.data|)))
    decreases |t.producer.data| - t.producer.stored
  {
    hide Reaches;
    if t.producer.stored < |t.producer.data| {
      ReachesStep(s, t, PStore);
      ReachesCopied(s, Apply(t, PStore));
    } else {
      assert t == t.(r := t.r, producer := t.producer);
    }
  }

  /** An undisturbed probe that succeeds. */
  lemma ReachesGrant(s: State, t: State, data: Block)
    requires Reaches(s, t) && t.producer.PIdle? && WriteAccepts(t.r.capacity, t.r.head, t.r.tail, |data|)
    ensures Reaches(s, t.(producer := PGranted(data, t.r.tail, 0)))
  {
    hide Reaches, WriteAccepts;
    ReachesStep(s, t, PBegin(data));
    ReachesStep(s, t.(producer := PHead(data, t.r.head, t.r.headBase)), PLoadTail);
  }

  /** The ring after an undisturbed write. */
  function Written(r: Ring, data: Block): Ring
    requires r.tail + |data| <= 2 * r.capacity
  {
    Publish(Copied(r, data, r.tail, 0), data)
  }

  /** A finish whose two loads see what the probe saw. */
  lemma ReachesCommit(s: State, t: State)
    requires Reaches(s, t) && t.producer.PGranted? && t.producer.stored == |t.producer.data|
    requires WriteAccepts(t.r.capacity, t.r.head, t.r.tail, |t.producer.data|)
    ensures Reaches(s, t.(r := Publish(t.r, t.producer.data), dataFlag := true, producer := PIdle))
  {
    hide Reaches, WriteAccepts;
    var p := t.producer;
    ReachesStep(s, t, PFinHead);
    var t1 := t.(producer := PFinish(p.data, p.ptr, t.r.head, t.r.headBase));
    ReachesStep(s, t1, PFinTail);
    var t2 := t.(producer := PCommit(p.data, p.ptr));
    assert Apply(t1, PFinTail) == t2;
    ReachesStep(s, t2, PPublish);
    ReachesStep(s, t2.(r := Publish(t.r, p.data), producer := PEnd(p.data, false)), PSignal);
  }

  /** An undisturbed write. */
  lemma ReachesWrite(s: State, t: State, data: Block)
    requires Reaches(s, t) && t.producer.PIdle? && WriteAccepts(t.r.capacity, t.r.head, t.r.tail, |data|)
    ensures t.r.tail + |data| <= 2 * t.r.capacity
    ensures Reaches(s, t.(r := Written(t.r, data), dataFlag := true))
  {
    hide Reaches;
    ReachesGrant(s, t, data);
    var t1 := t.(producer := PGranted(data, t.r.tail, 0));
    ReachesCopied(s, t1);
    hide WriteAccepts;
    var t2 := t.(r := Copied(t.r, data, t.r.tail, 0), producer := PGranted(data, t.r.tail, |data|));
    ReachesCommit(s, t2);
    assert t2.(r := Publish(t2.r, data), dataFlag := true, producer := PIdle)
        == t.(r := Written(t.r, data), dataFlag := true);
  }

  /** An undisturbed read that does not reach the end of the first mapping. */
  lemma ReachesTake(s: State, t: State, n: size_t)
    requires Reaches(s, t) && Positions(t.r, CIdle) && t.consumer.CIdle?
    requires n <= Fill(t.r) && t.r.head + n < t.r.capacity
    ensures Reaches(s, t.(r := Advance(t.r, n), spaceFlag := true))
  {
    TakeRuns(t, n);
    ReachesRun(s, t, Take(n));
    ReachesStep(s, Run(t, Take(n)), CSignal);
  }

  /** An undisturbed read up to exactly the end of the first mapping. */
  lemma ReachesWrappingRead(s: State, t: State, n: size_t)
    requires Reaches(s, t) && Positions(t.r, CIdle) && t.consumer.CIdle?
    requires n <= Fill(t.r) && t.r.head + n == t.r.capacity
    ensures Reaches(s, t.(r := WrapTail(WrapHead(Advance(t.r, n))), spaceFlag := true))
  {
    WrappingReadRuns(t, n);
    ReachesRun(s, t, WrappingRead(n));
    ReachesStep(s, Run(t, WrappingRead(n)), CSignal);
  }

  /** The same read stopped before the first subtraction. */
  lemma ReachesWrapTest(s: State, t: State, n: size_t)
    requires Reaches(s, t) && Positions(t.r, CIdle) && t.consumer.CIdle?
    requires n <= Fill(t.r) && t.r.head + n == t.r.capacity
    ensures Reaches(s, t.(r := Advance(t.r, n), consumer := CSubHead))
  {
    hide Positions, Valid, Orderly, Run;
    TakeRuns(t, n);
    AdvanceReachesEnd(t.r, n);
    ReachesRun(s, t, Take(n));
  }

  /** A block of n times the byte b. */
  function Repeat(b: byte, n: size_t): (d: Block)
    ensures |d| == n && (n > 0 ==> d[n - 1] == b)
  {
    seq(n, _ => b)
  }

  /** Both sides at rest on an empty ring. */
  ghost predicate Initial(s: State) {
    exists capacity: size_t, mem | ValidCapacity(capacity) && |mem| == capacity :: s == Init(capacity, mem)
  }

  /** The ring filled by one block. */
  lemma FilledIsReachable(s: State) returns (t: State)
    requires Initial(s)
    ensures Reaches(s, t) && t.producer.PIdle? && t.consumer.CIdle? && Positions(t.r, CIdle)
    ensures t.r.capacity == s.r.capacity && t.r.head == 0 && t.r.tail == s.r.capacity
    ensures t.r.headBase == t.r.tailBase == 0 && t.r.got == []
  {
    assert Valid(s, []) && Orderly(s, []) && Run(s, []) == s;
    ReachesWrite(s, s, Repeat(0, s.r.capacity));
    t := s.(r := Written(s.r, Repeat(0, s.r.capacity)), dataFlag := true);
  }

  /** The ring after one byte more was read and one more written: full again, with
      the last byte in cell 0. */
  lemma FullRingIsReachable(s: State) returns (t: State)
    requires Initial(s) && 2 <= s.r.capacity
    ensures Reaches(s, t) && t.producer.PIdle? && t.consumer.CIdle? && Positions(t.r, CIdle)
    ensures t.r.capacity == s.r.capacity && t.r.head == 1 && t.r.tail == s.r.capacity + 1
    ensures t.r.headBase == t.r.tailBase == 0 && t.r.sent[s.r.capacity] == 1
  {
    hide Reaches, Valid, Orderly, Run;
    var t1 := FilledIsReachable(s);
    ReachesTake(s, t1, 1);
    var t2 := t1.(r := Advance(t1.r, 1), spaceFlag := true);
    ReachesWrite(s, t2, [1]);
    t := t2.(r := Written(t2.r, [1]), dataFlag := true);
  }

  /** A request of the whole capacity whose head load saw that full ring is
      granted although one byte is still unread. */
  lemma OvergrantIsReachable(s: State) returns (t: State)
    requires Initial(s) && 2 <= s.r.capacity
    ensures Reaches(s, t) && !GrantFits(t)
    ensures t.producer == PGranted(Repeat(2, s.r.capacity), 1, 0) && t.consumer.CIdle? && Positions(t.r, CIdle)
    ensures t.r.capacity == s.r.capacity && t.r.head == 0 && t.r.tail == 1 && t.r.headBase == s.r.capacity
    ensures t.r.sent[s.r.capacity] == 1
  {
    hide Reaches, Valid, Orderly, Run;
    var n := s.r.capacity;
    var t0 := FullRingIsReachable(s);
    ReachesStep(s, t0, PBegin(Repeat(2, n)));
    var t1 := t0.(producer := PHead(Repeat(2, n), 1, 0));
    ReachesWrappingRead(s, t1, n - 1);
    var t2 := t1.(r := WrapTail(WrapHead(Advance(t1.r, n - 1))), spaceFlag := true);
    ReachesStep(s, t2, PLoadTail);
    t := t2.(producer := PGranted(Repeat(2, n), 1, 0));
  }

  /** The hypothesis on head loads cannot be dropped: on an empty ring of any
      capacity from 2 up there is a schedule after which the consumer has received
      a byte that was never committed. */
  lemma FullHeadLoadCorrupts(s: State)
    requires Initial(s) && 2 <= s.r.capacity
    ensures exists t :: Reaches(s, t) && !(t.r.got <= t.r.sent)
  {
    hide Reaches, Valid, Orderly, Run;
    var n := s.r.capacity;
    var t := OvergrantIsReachable(s);
    ReachesCopied(s, t);
    var r := Copied(t.r, Repeat(2, n), 1, 0);
    LastByteCopied(t.r, Repeat(2, n), 1, 0);
    var t1 := t.(r := r, producer := PGranted(Repeat(2, n), 1, n));
    ReachesTake(s, t1, 1);
    var t2 := t1.(r := Advance(r, 1), spaceFlag := true);
    assert t2.r.got[n] == 2 && t2.r.sent[n] == 1;
  }

  /** A granted write of one byte is about to be finished when the consumer stands
      between the two subtractions of a read that emptied the ring. */
  lemma HalfWrappedIsReachable(s: State) returns (t: State)
    requires Initial(s)
    ensures Reaches(s, t) && t.producer == PGranted([1], s.r.capacity, 1) && t.consumer.CSubTail?
    ensures t.r.capacity == s.r.capacity && t.r.head == 0 && t.r.tail == s.r.capacity && Fill(t.r) == 0
  {
    hide Reaches, Valid, Orderly, Run;
    var n := s.r.capacity;
    var t0 := FilledIsReachable(s);
    ReachesWrapTest(s, t0, n);
    var t1 := t0.(r := Advance(t0.r, n), consumer := CSubHead);
    ReachesGrant(s, t1, [1]);
    var t2 := t1.(producer := PGranted([1], n, 0));
    ReachesCopied(s, t2);
    var t3 := t1.(r := Copied(t1.r, [1], n, 0), producer := PGranted([1], n, 1));
    ReachesStep(s, t3, CWrapHead);
    t := t3.(r := WrapHead(t3.r), consumer := CSubTail);
  }

  /** rb_write_finished can refuse a write that was granted, although the ring is
      empty and nothing happens between its two loads: the block is lost, and
      bufmgr_write_end ignores the refusal. */
  lemma GrantedWriteCanBeRefused(s: State)
    requires Initial(s)
    ensures exists t :: Reaches(s, t) && t.producer == PEnd([1], true) && Fill(t.r) == 0
  {
    hide Reaches, Valid, Orderly, Run;
    var t := HalfWrappedIsReachable(s);
    ReachesStep(s, t, PFinHead);
    var t1 := t.(producer := PFinish([1], t.r.tail, t.r.head, t.r.headBase));
    ReachesStep(s, t1, PFinTail);
    assert Apply(t1, PFinTail) == t.(producer := PEnd([1], true));
  }
}
