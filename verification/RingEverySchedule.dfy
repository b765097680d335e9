/** What holds in every interleaving of the ring machine, whether its head loads
    are safe or not: no access leaves the two mappings, and no wake-up is lost. */
module RingEverySchedule {
  import opened CTypes
  import opened RingArith
  import opened RingMachine
  import opened RingInvariant

  /** The positions add up, although the ring may hold more than its capacity. */
  ghost predicate Counted(r: Ring, c: Consumer) {
    && r.head + r.headBase == |r.got|
    && r.tail + r.tailBase == |r.sent|
    && |r.got| <= |r.sent|
    && r.tail <= 2 * r.capacity
    && r.headBase == (if c.CSubTail? then r.tailBase + r.capacity else r.tailBase)
    && (if c.CTest? || c.CSubHead? then r.head <= 2 * r.capacity else r.head <= r.capacity)
    && (c.CSubHead? ==> r.capacity <= r.head)
  }

  /** A grant ends within the second mapping, and so does tail once it is
      committed. */
  ghost predicate GrantInside(r: Ring, p: Producer) {
    p.PGranted? || p.PFinish? || p.PCommit? ==>
      && r.tail <= p.ptr
      && p.ptr + |p.data| <= 2 * r.capacity
      && (p.PGranted? ==> p.stored <= |p.data|)
  }

  /** A refused or waiting producer whose block would fit by now has been told,
      or is about to be. An empty block is refused by a full ring. */
  ghost predicate SpaceWakeOk(s: State) {
    || s.spaceFlag
    || Releasing(s.consumer)
    || match s.producer
       case PHead(_, h, base) => h == s.r.head && base == s.r.headBase
       case PRefused(data) => !Fits(s.r, |data|) || data == []
       case PBlocked(data) => !Fits(s.r, |data|) || data == []
       case _ => true
  }

  /** The same for the consumer and the data event. */
  ghost predicate DataWakeOk(s: State) {
    || s.dataFlag
    || s.producer.PEnd?
    || match s.consumer
       case CRefused(size) => Fill(s.r) < size
       case CBlocked(size) => Fill(s.r) < size
       case _ => true
  }

  ghost predicate Awake(s: State) {
    && Counted(s.r, s.consumer)
    && ConsumerOk(s.r, s.consumer)
    && GrantInside(s.r, s.producer)
    && SpaceWakeOk(s)
    && DataWakeOk(s)
  }

  lemma ProducerStepKeepsCounted(s: State, a: Action)
    requires Awake(s) && Enabled(s, a) && !ConsumerAction(a)
    ensures var s' := ApplyProducer(s, a);
      Counted(s'.r, s.consumer) && ConsumerOk(s'.r, s.consumer) && GrantInside(s'.r, s'.producer)
  {
    hide SpaceWakeOk, DataWakeOk, Cell;
  }

  lemma ProducerStepKeepsWake(s: State, a: Action)
    requires Awake(s) && Enabled(s, a) && !ConsumerAction(a)
    ensures SpaceWakeOk(ApplyProducer(s, a)) && DataWakeOk(ApplyProducer(s, a))
  {
    hide GrantInside, ConsumerOk, Cell;
  }

  /** The three updates of rb_read_finished. */
  lemma ReleaseKeepsCounted(s: State, a: Action)
    requires Counted(s.r, s.consumer) && ConsumerOk(s.r, s.consumer) && GrantInside(s.r, s.producer)
    requires Enabled(s, a) && (a.CAdvance? || a.CWrapHead? || a.CWrapTail?)
    ensures var s' := ApplyConsumer(s, a); Counted(s'.r, s'.consumer) && GrantInside(s'.r, s.producer)
  {
    hide View;
  }

  lemma ConsumerStepKeepsCounted(s: State, a: Action)
    requires Awake(s) && Enabled(s, a) && ConsumerAction(a)
    ensures var s' := ApplyConsumer(s, a);
      Counted(s'.r, s'.consumer) && ConsumerOk(s'.r, s'.consumer) && GrantInside(s'.r, s.producer)
  {
    hide SpaceWakeOk, DataWakeOk, WriteAccepts;
    if a.CAdvance? || a.CWrapHead? || a.CWrapTail? {
      ReleaseKeepsCounted(s, a);
      hide Counted, GrantInside;
    } else {
      assert ApplyConsumer(s, a).r == s.r;
    }
  }

  lemma ConsumerStepKeepsWake(s: State, a: Action)
    requires Awake(s) && Enabled(s, a) && ConsumerAction(a)
    ensures SpaceWakeOk(ApplyConsumer(s, a)) && DataWakeOk(ApplyConsumer(s, a))
  {
    hide GrantInside, View, WriteAccepts;
  }

  lemma StepKeepsAwake(s: State, a: Action)
    requires Awake(s) && Enabled(s, a)
    ensures Awake(Apply(s, a))
  {
    hide Counted, ConsumerOk, GrantInside, SpaceWakeOk, DataWakeOk, Enabled;
    if ConsumerAction(a) {
      ConsumerStepKeepsCounted(s, a);
      ConsumerStepKeepsWake(s, a);
      assert ApplyConsumer(s, a).producer == s.producer;
    } else {
      ProducerStepKeepsCounted(s, a);
      ProducerStepKeepsWake(s, a);
      assert ApplyProducer(s, a).consumer == s.consumer;
    }
  }

  lemma {:induction false} RunKeepsAwake(s: State, acts: seq<Action>)
    requires Awake(s) && Valid(s, acts)
    ensures Awake(Run(s, acts)) && Run(s, acts).r.capacity == s.r.capacity
    decreases |acts|
  {
    hide Awake, Enabled;
    if acts != [] {
      StepKeepsAwake(s, acts[0]);
      RunKeepsAwake(Apply(s, acts[0]), acts[1..]);
    }
  }

  /** No access is ever out of range: a byte copy of a granted block and the
      advance of head are always possible, and both words stay within the two
      mappings. */
  lemma NoFault(capacity: size_t, mem: seq<byte>, acts: seq<Action>)
    requires ValidCapacity(capacity) && |mem| == capacity && Valid(Init(capacity, mem), acts)
    ensures var s := Run(Init(capacity, mem), acts);
      && (s.producer.PGranted? && s.producer.stored < |s.producer.data| ==> Enabled(s, PStore))
      && (s.consumer.CAdd? ==> Enabled(s, CAdvance))
      && s.r.head <= 2 * capacity && s.r.tail <= 2 * capacity
      && |s.r.got| <= |s.r.sent|
  {
    RunKeepsAwake(Init(capacity, mem), acts);
  }

  /** No lost wake-up. A side that waits for its event while its request would
      succeed has its flag set, or the other side is still inside the call that
      ends with the signal. */
  lemma NoLostWakeup(capacity: size_t, mem: seq<byte>, acts: seq<Action>)
    requires ValidCapacity(capacity) && |mem| == capacity && Valid(Init(capacity, mem), acts)
    ensures var s := Run(Init(capacity, mem), acts);
      && (s.producer.PBlocked? && s.producer.data != [] && Fits(s.r, |s.producer.data|) ==>
            s.spaceFlag || Releasing(s.consumer))
      && (s.consumer.CBlocked? && s.consumer.size <= Fill(s.r) ==>
            s.dataFlag || s.producer.PEnd?)
  {
    RunKeepsAwake(Init(capacity, mem), acts);
  }

  /** Both sides can wait with nothing to wake them only if their requests do not
      fit into the ring together. */
  lemma NoDeadlock(capacity: size_t, mem: seq<byte>, acts: seq<Action>)
    requires ValidCapacity(capacity) && |mem| == capacity && Valid(Init(capacity, mem), acts)
    ensures var s := Run(Init(capacity, mem), acts);
      s.producer.PBlocked? && s.producer.data != [] && s.consumer.CBlocked? && !s.dataFlag && !s.spaceFlag ==>
        |s.producer.data| + s.consumer.size > capacity + 1
  {
    RunKeepsAwake(Init(capacity, mem), acts);
  }
}
