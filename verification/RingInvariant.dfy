/** What every step of the ring machine keeps, provided the producer's head loads
    are safe ones. */
module RingInvariant {
  import opened CTypes
  import opened RingArith
  import opened RingMachine

  /** Committed and not yet consumed bytes. */
  ghost function Fill(r: Ring): int {
    |r.sent| - |r.got|
  }

  /** Between head += size and the signal of rb_read_finished. */
  predicate Releasing(c: Consumer) {
    c.CTest? || c.CSubHead? || c.CSubTail? || c.CEnd?
  }

  /** Only between the two subtractions do head and tail disagree by one lap. */
  ghost predicate Positions(r: Ring, c: Consumer) {
    && r.head + r.headBase == |r.got|
    && r.tail + r.tailBase == |r.sent|
    && 0 <= Fill(r) <= r.capacity
    && r.tail <= 2 * r.capacity
    && r.headBase == (if c.CSubTail? then r.tailBase + r.capacity else r.tailBase)
    && (if c.CTest? then r.head < 2 * r.capacity
        else if c.CSubHead? then r.capacity <= r.head < 2 * r.capacity
        else r.head < r.capacity)
  }

  /** Every committed, unconsumed byte is still in the buffer, and what has been
      consumed is exactly what was committed first. */
  ghost predicate Data(r: Ring) {
    && r.got <= r.sent
    && (forall p :: |r.got| <= p < |r.sent| ==>
          0 <= p - r.tailBase < 2 * r.capacity && r.mem[Cell(r.capacity, p - r.tailBase)] == r.sent[p])
  }

  ghost predicate ConsumerOk(r: Ring, c: Consumer) {
    match c
    case CHead(_, h) => h == r.head
    case CGranted(size, ptr) => ptr == r.head && size <= Fill(r)
    case CFinish(_, t) => r.head <= t <= r.tail
    case CAdd(size) => size <= Fill(r)
    case _ => true
  }

  /** What a head value loaded earlier still tells about the present. */
  ghost predicate Window(r: Ring, h: size_t, base: nat) {
    && h < 2 * r.capacity
    && h + base <= |r.got|
    && |r.sent| <= h + base + r.capacity
    && (r.headBase == base || r.headBase == base + r.capacity || r.headBase == base + 2 * r.capacity)
    && (r.tailBase < base ==> r.headBase == base && h == r.head)
  }

  /** The bytes of the grant that the producer has already stored. */
  ghost predicate Stored(r: Ring, data: Block, ptr: size_t, stored: nat) {
    && ptr < 2 * r.capacity
    && ptr + |data| <= 2 * r.capacity
    && (ptr == r.tail || ptr == r.tail + r.capacity)
    && stored <= |data|
    && (forall i :: 0 <= i < stored ==> r.mem[Cell(r.capacity, ptr + i)] == data[i])
  }

  /** The block fits into the free part of the ring. */
  ghost predicate Fits(r: Ring, size: size_t) {
    Fill(r) + size <= r.capacity
  }

  function Max(a: int, b: int): int {
    if a < b then b else a
  }

  /** The bytes that the consumer is bound to release before it looks at the ring
      again. */
  function Pending(c: Consumer, head: size_t): nat {
    match c
    case CAdd(size) => size
    case CFinish(size, t) => if size <= Sub(t, head) then size else 0
    case _ => 0
  }

  /** A head load after which every grant is safe: the ring is not full, or the
      request is no larger than the rest of the first mapping or than what the
      consumer is bound to release, or it exceeds the capacity. */
  ghost predicate SafeLoad(s: State, size: size_t) {
    || Fill(s.r) < s.r.capacity
    || size <= Max(Pending(s.consumer, s.r.head), s.r.capacity - s.r.head)
    || size > s.r.capacity
  }

  /** What a safe load of head still tells about the present. */
  ghost predicate SafeWindow(r: Ring, c: Consumer, h: size_t, base: nat, size: size_t) {
    || |r.sent| < h + base + r.capacity
    || h + size <= r.capacity
    || size > r.capacity
    || h + base + size <= |r.got|
    || (h == r.head && base == r.headBase && size <= Pending(c, r.head))
  }

  ghost predicate ProducerOk(r: Ring, c: Consumer, p: Producer) {
    match p
    case PHead(data, h, base) => Window(r, h, base) && SafeWindow(r, c, h, base, |data|)
    case PGranted(data, ptr, stored) => Fits(r, |data|) && Stored(r, data, ptr, stored)
    case PFinish(data, ptr, h, base) =>
      Fits(r, |data|) && Stored(r, data, ptr, |data|) && Window(r, h, base)
      && |r.sent| + |data| <= h + base + r.capacity
    case PCommit(data, ptr) => Fits(r, |data|) && Stored(r, data, ptr, |data|)
    case _ => true
  }

  /** Whatever the producer does: the consumer reads only committed bytes. */
  ghost predicate ConsumerSide(s: State) {
    Positions(s.r, s.consumer) && Data(s.r) && ConsumerOk(s.r, s.consumer)
  }

  /** Memory safety: both sides own what they think they own. */
  ghost predicate Inv(s: State) {
    ConsumerSide(s) && ProducerOk(s.r, s.consumer, s.producer)
  }

  /** The hypothesis on a schedule, at each head load of rb_write_ptr. */
  ghost predicate SafeStep(s: State, a: Action) {
    match a
    case PBegin(data) => SafeLoad(s, |data|)
    case PReload => s.producer.PRetry? ==> SafeLoad(s, |s.producer.data|)
    case _ => true
  }

  lemma InitInv(capacity: size_t, mem: seq<byte>)
    requires ValidCapacity(capacity) && |mem| == capacity
    ensures Inv(Init(capacity, mem))
  {
  }

  /** The heart of the matter: a tail load that accepts grants only free bytes,
      whatever the consumer did since the head load. */
  lemma GrantIsFree(r: Ring, c: Consumer, h: size_t, base: nat, size: size_t)
    requires Positions(r, c) && Window(r, h, base) && SafeWindow(r, c, h, base, size)
    requires WriteAccepts(r.capacity, h, r.tail, size)
    ensures Fits(r, size)
    ensures r.tail < 2 * r.capacity && r.tail + size <= 2 * r.capacity
  {
  }

  /** A byte stored into the grant lands in no unread cell. */
  lemma StoreApart(r: Ring, c: Consumer, data: Block, ptr: size_t, k: nat, p: nat)
    requires Positions(r, c) && Fits(r, |data|) && Stored(r, data, ptr, k) && k < |data|
    requires |r.got| <= p < |r.sent| && 0 <= p - r.tailBase < 2 * r.capacity
    ensures Cell(r.capacity, ptr + k) != Cell(r.capacity, p - r.tailBase)
  {
  }

  lemma PositionsIgnoreMemory(r: Ring, r': Ring, c: Consumer)
    requires Positions(r, c) && r' == r.(mem := r'.mem)
    ensures Positions(r', c)
  {
  }

  lemma StoreKeepsRing(r: Ring, c: Consumer, data: Block, ptr: size_t, k: nat)
    requires Positions(r, c) && Data(r) && Fits(r, |data|) && Stored(r, data, ptr, k) && k < |data|
    ensures |data| <= r.capacity
    ensures Positions(StoreByte(r, ptr + k, data[k]), c) && Data(StoreByte(r, ptr + k, data[k]))
  {
    assert |data| <= r.capacity && ptr + k < 2 * r.capacity;
    hide Positions, Stored, Fits, Cell;
    var r' := StoreByte(r, ptr + k, data[k]);
    PositionsIgnoreMemory(r, r', c);
    forall p | |r.got| <= p < |r.sent|
      ensures 0 <= p - r.tailBase < 2 * r.capacity && r'.mem[Cell(r.capacity, p - r.tailBase)] == r.sent[p]
    {
      assert r.mem[Cell(r.capacity, p - r.tailBase)] == r.sent[p];
      StoreApart(r, c, data, ptr, k, p);
    }
  }

  lemma StoreKeepsStored(r: Ring, data: Block, ptr: size_t, k: nat)
    requires |data| <= r.capacity && Stored(r, data, ptr, k) && k < |data|
    ensures Stored(StoreByte(r, ptr + k, data[k]), data, ptr, k + 1)
  {
  }

  /** Byte i of the block lies behind tail, whichever mapping the grant is in. */
  lemma CommittedByte(r: Ring, c: Consumer, data: Block, ptr: size_t, i: nat)
    requires Positions(r, c) && Fits(r, |data|) && Stored(r, data, ptr, |data|) && i < |data|
    ensures r.tail + i < 2 * r.capacity && r.mem[Cell(r.capacity, r.tail + i)] == data[i]
  {
    assert r.mem[Cell(r.capacity, ptr + i)] == data[i];
  }

  lemma PublishKeeps(r: Ring, c: Consumer, data: Block, ptr: size_t)
    requires Positions(r, c) && Data(r) && Fits(r, |data|) && Stored(r, data, ptr, |data|)
    ensures Positions(Publish(r, data), c) && Data(Publish(r, data))
  {
    assert Positions(Publish(r, data), c) && Publish(r, data).mem == r.mem;
    hide Positions, Stored, Fits, Cell;
    var r' := Publish(r, data);
    forall p | |r.got| <= p < |r'.sent|
      ensures 0 <= p - r.tailBase < 2 * r.capacity && r.mem[Cell(r.capacity, p - r.tailBase)] == r'.sent[p]
    {
      if p >= |r.sent| {
        TailPosition(r, c);
        CommittedByte(r, c, data, ptr, p - |r.sent|);
      }
    }
  }

  lemma TailPosition(r: Ring, c: Consumer)
    requires Positions(r, c)
    ensures r.tail == |r.sent| - r.tailBase
  {
  }

  /** The bytes behind the read pointer are the oldest unread ones. */
  lemma ReadViewIsCommitted(r: Ring, c: Consumer, size: size_t)
    requires Positions(r, c) && Data(r) && r.headBase == r.tailBase && r.head < r.capacity && size <= Fill(r)
    ensures View(r.mem, r.capacity, r.head, size) == r.sent[|r.got|..|r.got| + size]
  {
    var v, w := View(r.mem, r.capacity, r.head, size), r.sent[|r.got|..|r.got| + size];
    forall i | 0 <= i < size ensures v[i] == w[i] {
      assert r.mem[Cell(r.capacity, |r.got| + i - r.tailBase)] == r.sent[|r.got| + i];
    }
  }

  lemma AdvanceKeeps(r: Ring, size: size_t)
    requires Positions(r, CAdd(size)) && Data(r) && size <= Fill(r)
    ensures Positions(Advance(r, size), CTest) && Data(Advance(r, size))
  {
    ReadViewIsCommitted(r, CAdd(size), size);
    var r' := Advance(r, size);
    assert r.got + r.sent[|r.got|..|r.got| + size] == r.sent[..|r.got| + size];
  }

  lemma WrapTailKeeps(r: Ring)
    requires Positions(r, CSubTail) && Data(r)
    ensures Positions(WrapTail(r), CEnd) && Data(WrapTail(r))
  {
    forall p | |r.got| <= p < |r.sent|
      ensures 0 <= p - r.tailBase - r.capacity < 2 * r.capacity
      ensures r.mem[Cell(r.capacity, p - r.tailBase - r.capacity)] == r.sent[p]
    {
      assert r.mem[Cell(r.capacity, p - r.tailBase)] == r.sent[p];
    }
  }

  lemma ProducerOkAfterAdvance(r: Ring, size: size_t, p: Producer)
    requires Positions(r, CAdd(size)) && size <= Fill(r) && ProducerOk(r, CAdd(size), p)
    ensures ProducerOk(Advance(r, size), CTest, p)
  {
    hide View;
  }

  lemma ProducerOkAfterWrapHead(r: Ring, p: Producer)
    requires Positions(r, CSubHead) && ProducerOk(r, CSubHead, p)
    ensures Positions(WrapHead(r), CSubTail) && ProducerOk(WrapHead(r), CSubTail, p)
  {
  }

  lemma ProducerOkAfterWrapTail(r: Ring, p: Producer)
    requires Positions(r, CSubTail) && ProducerOk(r, CSubTail, p)
    ensures ProducerOk(WrapTail(r), CEnd, p)
  {
  }

  lemma StoreStepKeepsInv(s: State)
    requires Inv(s) && Enabled(s, PStore)
    ensures Inv(ApplyProducer(s, PStore))
  {
    hide Data, Positions, Window, Stored;
    var p, s' := s.producer, ApplyProducer(s, PStore);
    assert s'.producer == PGranted(p.data, p.ptr, p.stored + 1) && s'.consumer == s.consumer;
    StoreKeepsRing(s.r, s.consumer, p.data, p.ptr, p.stored);
    StoreKeepsStored(s.r, p.data, p.ptr, p.stored);
  }

  lemma PublishStepKeepsInv(s: State)
    requires Inv(s) && Enabled(s, PPublish)
    ensures Inv(ApplyProducer(s, PPublish))
  {
    hide Data, Window;
    var p := s.producer;
    PublishKeeps(s.r, s.consumer, p.data, p.ptr);
  }

  lemma ProbeStepKeepsInv(s: State, a: Action)
    requires Inv(s) && Enabled(s, a) && SafeStep(s, a)
    requires a.PBegin? || a.PReload? || a.PLoadTail?
    ensures Inv(ApplyProducer(s, a))
  {
    hide Data;
    var p := s.producer;
    if a.PLoadTail? && WriteAccepts(s.r.capacity, p.head, s.r.tail, |p.data|) {
      GrantIsFree(s.r, s.consumer, p.head, p.base, |p.data|);
    }
  }

  lemma WaitStepKeepsInv(s: State, a: Action)
    requires Inv(s) && Enabled(s, a)
    requires a.PGiveUp? || a.PWait? || a.PWake? || a.PTimeout? || a.PSignal?
    ensures Inv(ApplyProducer(s, a))
  {
    hide Data, Positions, Stored;
    assert ApplyProducer(s, a).r == s.r && ApplyProducer(s, a).consumer == s.consumer;
  }

  lemma FinishStepKeepsInv(s: State, a: Action)
    requires Inv(s) && Enabled(s, a)
    requires a.PFinHead? || a.PFinTail? || a.PSkipRecheck?
    ensures Inv(ApplyProducer(s, a))
  {
    hide Data;
    assert ApplyProducer(s, a).r == s.r && ApplyProducer(s, a).consumer == s.consumer;
  }

  lemma ProducerStepKeepsInv(s: State, a: Action)
    requires Inv(s) && Enabled(s, a) && SafeStep(s, a) && !ConsumerAction(a)
    ensures Inv(ApplyProducer(s, a))
  {
    if a.PStore? {
      StoreStepKeepsInv(s);
    } else if a.PPublish? {
      PublishStepKeepsInv(s);
    } else if a.PBegin? || a.PReload? || a.PLoadTail? {
      ProbeStepKeepsInv(s, a);
    } else if a.PFinHead? || a.PFinTail? || a.PSkipRecheck? {
      FinishStepKeepsInv(s, a);
    } else {
      WaitStepKeepsInv(s, a);
    }
  }

  lemma ConsumerStepKeepsRing(s: State, a: Action)
    requires ConsumerSide(s) && Enabled(s, a) && ConsumerAction(a)
    ensures var s' := ApplyConsumer(s, a); Positions(s'.r, s'.consumer) && Data(s'.r)
  {
    hide View;
    if a.CAdvance? {
      AdvanceKeeps(s.r, s.consumer.size);
    } else if a.CWrapTail? {
      WrapTailKeeps(s.r);
    }
  }

  lemma ConsumerStepKeepsSide(s: State, a: Action)
    requires ConsumerSide(s) && Enabled(s, a) && ConsumerAction(a)
    ensures ConsumerSide(ApplyConsumer(s, a))
  {
    hide Data, View;
    ConsumerStepKeepsRing(s, a);
  }

  /** A consumer that only looks at the ring changes nothing for the producer, as
      long as it is bound to release no less than before. */
  lemma ProducerOkAfterLook(r: Ring, c: Consumer, d: Consumer, p: Producer)
    requires ProducerOk(r, c, p) && Pending(c, r.head) <= Pending(d, r.head)
    ensures ProducerOk(r, d, p)
  {
    hide Stored, Window;
  }

  lemma ConsumerStepKeepsProducer(s: State, a: Action)
    requires Inv(s) && Enabled(s, a) && ConsumerAction(a)
    ensures ProducerOk(ApplyConsumer(s, a).r, ApplyConsumer(s, a).consumer, s.producer)
  {
    hide ProducerOk, Data;
    if a.CAdvance? {
      ProducerOkAfterAdvance(s.r, s.consumer.size, s.producer);
    } else if a.CWrapHead? {
      ProducerOkAfterWrapHead(s.r, s.producer);
    } else if a.CWrapTail? {
      ProducerOkAfterWrapTail(s.r, s.producer);
    } else {
      ProducerOkAfterLook(s.r, s.consumer, ApplyConsumer(s, a).consumer, s.producer);
    }
  }

  lemma StepKeepsInv(s: State, a: Action)
    requires Inv(s) && Enabled(s, a) && SafeStep(s, a)
    ensures Inv(Apply(s, a))
  {
    if ConsumerAction(a) {
      ConsumerStepKeepsSide(s, a);
      ConsumerStepKeepsProducer(s, a);
    } else {
      ProducerStepKeepsInv(s, a);
    }
  }
}
