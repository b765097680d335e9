/** The two exact conditions of the write side, over everything the consumer can
    do between the producer's two loads: when a head load leads only to safe
    grants, and when a granted write is sure to be committed. */
module RingGrants {
  import opened CTypes
  import opened RingArith
  import opened RingMachine
  import opened RingInvariant
  import opened RingConsumerRuns

  lemma {:induction false} RunSplit(s: State, a: seq<Action>, b: seq<Action>)
    requires Valid(s, a + b)
    ensures Valid(s, a) && Valid(Run(s, a), b) && Run(s, a + b) == Run(Run(s, a), b)
    decreases |a|
  {
    if a == [] {
      assert a + b == b;
    } else {
      assert (a + b)[1..] == a[1..] + b;
      RunSplit(Apply(s, a[0]), a[1..], b);
    }
  }

  lemma RunThen(s: State, acts: seq<Action>, a: Action)
    requires Valid(s, acts + [a])
    ensures Valid(s, acts) && Enabled(Run(s, acts), a) && Run(s, acts + [a]) == Apply(Run(s, acts), a)
  {
    RunSplit(s, acts, [a]);
  }

  lemma RunAppend(s: State, acts: seq<Action>, a: Action)
    requires Valid(s, acts) && Enabled(Run(s, acts), a)
    ensures Valid(s, acts + [a]) && Run(s, acts + [a]) == Apply(Run(s, acts), a)
  {
    RunCons(Run(s, acts), a, []);
    RunConcat(s, acts, [a]);
  }

  // ----- When is a head load safe? -----

  /** The producer has just loaded head for a request of data. */
  ghost predicate HeadJustLoaded(s: State, data: Block) {
    s.producer == PHead(data, s.r.head, s.r.headBase)
  }

  ghost predicate GrantFits(s: State) {
    s.producer.PGranted? ==> Fits(s.r, |s.producer.data|)
  }

  lemma SafeLoadGrantsFree(s: State, data: Block, acts: seq<Action>)
    requires ConsumerSide(s) && HeadJustLoaded(s, data) && SafeLoad(s, |data|)
    requires ConsumerOnly(acts) && Valid(s, acts + [PLoadTail])
    ensures GrantFits(Run(s, acts + [PLoadTail]))
  {
    RunThen(s, acts, PLoadTail);
    ConsumerRunKeepsInv(s, acts);
    var t := Run(s, acts);
    if WriteAccepts(t.r.capacity, t.producer.head, t.r.tail, |data|) {
      GrantIsFree(t.r, t.consumer, t.producer.head, t.producer.base, |data|);
    }
  }

  /** After a lap was taken off tail the stale head equals tail, and the whole
      capacity seems free. */
  lemma StaleHeadOvergrants(s: State, t: State, data: Block, g: int)
    requires Positions(s.r, s.consumer) && HeadJustLoaded(s, data) && Fill(s.r) == s.r.capacity
    requires !s.consumer.CSubTail? && WrappedOnce(s, t, g)
    requires g - s.r.headBase - s.r.head < |data| <= s.r.capacity && s.r.head <= s.r.capacity
    ensures !GrantFits(Apply(t, PLoadTail))
  {
    assert t.r.tail == t.producer.head == s.r.head;
    assert WriteAccepts(t.r.capacity, t.producer.head, t.r.tail, |data|);
  }

  /** Unless the request is small, the consumer can bring that about. */
  lemma FullRingOvergrants(s: State, data: Block)
    requires ConsumerSide(s) && HeadJustLoaded(s, data) && Fill(s.r) == s.r.capacity
    requires Max(Pending(s.consumer, s.r.head), s.r.capacity - s.r.head) < |data| <= s.r.capacity
    ensures exists acts ::
      && ConsumerOnly(acts) && Orderly(s, acts)
      && Valid(s, acts + [PLoadTail]) && !GrantFits(Run(s, acts + [PLoadTail]))
  {
    hide Data, Valid, Run, Orderly, GrantFits, WriteAccepts;
    WrapFromAnywhere(s);
    var g := s.r.headBase + Max(s.r.head + Pending(s.consumer, s.r.head), s.r.capacity);
    var acts :| ConsumerOnly(acts) && Valid(s, acts) && Orderly(s, acts) && WrappedOnce(s, Run(s, acts), g);
    StaleHeadOvergrants(s, Run(s, acts), data, g);
    RunAppend(s, acts, PLoadTail);
  }

  /** Exact condition. Whatever the consumer is doing when the producer loads
      head, the request gets only free bytes in every continuation if and only if
      at that moment the ring is not full, or the request is no larger than the
      rest of the first mapping or than what the consumer is bound to release, or
      it exceeds the capacity. The condition is no weaker for a consumer that
      releases only what it was granted. */
  lemma HeadLoadExact(s: State, data: Block)
    requires ConsumerSide(s) && HeadJustLoaded(s, data)
    ensures SafeLoad(s, |data|)
      <==> forall acts | ConsumerOnly(acts) && Valid(s, acts + [PLoadTail]) :: GrantFits(Run(s, acts + [PLoadTail]))
    ensures SafeLoad(s, |data|)
      <==> forall acts | ConsumerOnly(acts) && Orderly(s, acts) && Valid(s, acts + [PLoadTail]) ::
             GrantFits(Run(s, acts + [PLoadTail]))
  {
    if SafeLoad(s, |data|) {
      forall acts | ConsumerOnly(acts) && Valid(s, acts + [PLoadTail])
        ensures GrantFits(Run(s, acts + [PLoadTail]))
      {
        SafeLoadGrantsFree(s, data, acts);
      }
    } else {
      FullRingOvergrants(s, data);
    }
  }

  // ----- When is a granted write committed? -----

  /** Exactly when the second test of rb_write_finished refuses a granted,
      non-empty write: a whole lap was taken off tail between its two loads, or
      both loads fell between the two subtractions of a read that emptied the
      ring. */
  lemma FinishRefusesExactly(s: State)
    requires Inv(s) && s.producer.PFinish? && s.producer.data != []
    ensures Apply(s, PFinTail).producer == PEnd(s.producer.data, true)
      <==> s.r.tailBase > s.producer.base || (s.r.tailBase < s.producer.base && Fill(s.r) == 0)
  {
    var p := s.producer;
    assert Apply(s, PFinTail).producer.PEnd? <==> !WriteAccepts(s.r.capacity, p.head, s.r.tail, |p.data|);
  }

  /** A lap can no longer be taken off tail. */
  ghost predicate NoMoreLaps(t: State, base: nat) {
    || (t.r.tailBase == base && t.r.tail < t.r.capacity)
    || (t.consumer.CSubTail? && t.r.tailBase + t.r.capacity == base && t.r.tail < 2 * t.r.capacity && Fill(t.r) > 0)
  }

  lemma StepKeepsNoMoreLaps(t: State, a: Action, base: nat)
    requires ConsumerSide(t) && NoMoreLaps(t, base) && Enabled(t, a) && ConsumerAction(a)
    ensures NoMoreLaps(ApplyConsumer(t, a), base)
  {
    hide Data, View, WriteAccepts;
  }

  lemma {:induction false} RunKeepsNoMoreLaps(t: State, acts: seq<Action>, base: nat)
    requires ConsumerSide(t) && NoMoreLaps(t, base) && ConsumerOnly(acts) && Valid(t, acts)
    ensures NoMoreLaps(Run(t, acts), base)
    decreases |acts|
  {
    hide ConsumerSide, NoMoreLaps, Enabled;
    if acts != [] {
      ConsumerStepKeepsSide(t, acts[0]);
      StepKeepsNoMoreLaps(t, acts[0], base);
      RunKeepsNoMoreLaps(Apply(t, acts[0]), acts[1..], base);
    }
  }

  /** Tail stands in the first mapping, or the consumer is just taking a lap off
      it and has left data in the ring. */
  ghost predicate TailIsLow(s: State) {
    s.r.tail < s.r.capacity || (s.consumer.CSubTail? && Fill(s.r) > 0)
  }

  lemma LowTailCommits(s: State, acts: seq<Action>)
    requires Inv(s) && s.producer.PFinish? && s.producer.data != [] && s.producer.base == s.r.headBase
    requires TailIsLow(s) && ConsumerOnly(acts) && Valid(s, acts + [PFinTail])
    ensures Run(s, acts + [PFinTail]).producer.PCommit?
  {
    hide Valid, Run, Data, View, WriteAccepts;
    RunThen(s, acts, PFinTail);
    RunKeepsNoMoreLaps(s, acts, s.producer.base);
    ConsumerRunKeepsInv(s, acts);
    FinishRefusesExactly(Run(s, acts));
  }

  /** After a lap was taken off tail the commit is refused. */
  lemma LapIsRefused(s: State, acts: seq<Action>, g: int)
    requires Inv(s) && s.producer.PFinish? && s.producer.data != [] && s.producer.base == s.r.tailBase
    requires ConsumerOnly(acts) && Valid(s, acts) && WrappedOnce(s, Run(s, acts), g)
    ensures Valid(s, acts + [PFinTail]) && Run(s, acts + [PFinTail]).producer.PEnd?
  {
    ConsumerRunKeepsInv(s, acts);
    hide Valid, Run, Inv, WriteAccepts;
    FinishRefusesExactly(Run(s, acts));
    RunAppend(s, acts, PFinTail);
  }

  lemma HighTailIsRefused(s: State)
    requires Inv(s) && s.producer.PFinish? && s.producer.data != [] && s.producer.base == s.r.headBase
    requires !TailIsLow(s)
    ensures exists acts ::
      && ConsumerOnly(acts) && Orderly(s, acts)
      && Valid(s, acts + [PFinTail]) && Run(s, acts + [PFinTail]).producer.PEnd?
  {
    if s.consumer.CSubTail? {
      FinishRefusesExactly(s);
      RunAppend(s, [], PFinTail);
      assert ConsumerOnly([]) && Orderly(s, []);
    } else {
      WrapFromAnywhere(s);
      var g := s.r.headBase + Max(s.r.head + Pending(s.consumer, s.r.head), s.r.capacity);
      var acts :| ConsumerOnly(acts) && Valid(s, acts) && Orderly(s, acts) && WrappedOnce(s, Run(s, acts), g);
      LapIsRefused(s, acts, g);
    }
  }

  /** Exact condition. rb_write_finished is sure to commit a granted, non-empty
      write, whatever the consumer does between its two loads, if and only if at
      the call tail is below the capacity, or the consumer is just about to take a
      lap off it and has left data in the ring. Again a consumer that releases only
      what it was granted makes no difference. */
  lemma FinishExact(s: State)
    requires Inv(s) && Enabled(s, PFinHead) && s.producer.data != []
    ensures var s1 := Apply(s, PFinHead);
      s.r.tail < s.r.capacity || (s.consumer.CSubTail? && Fill(s.r) > 0)
      <==>
      forall acts | ConsumerOnly(acts) && Valid(s1, acts + [PFinTail]) :: Run(s1, acts + [PFinTail]).producer.PCommit?
    ensures var s1 := Apply(s, PFinHead);
      s.r.tail < s.r.capacity || (s.consumer.CSubTail? && Fill(s.r) > 0)
      <==>
      forall acts | ConsumerOnly(acts) && Orderly(s1, acts) && Valid(s1, acts + [PFinTail]) ::
        Run(s1, acts + [PFinTail]).producer.PCommit?
  {
    var s1 := Apply(s, PFinHead);
    StepKeepsInv(s, PFinHead);
    if TailIsLow(s1) {
      forall acts | ConsumerOnly(acts) && Valid(s1, acts + [PFinTail])
        ensures Run(s1, acts + [PFinTail]).producer.PCommit?
      {
        LowTailCommits(s1, acts);
      }
    } else {
      HighTailIsRefused(s1);
    }
  }

  /** Between the two subtractions of a read that left data in the ring, the room
      computed by the code underflows to a huge number, so only the test against
      the end of the second mapping limits a grant; that is enough. */
  lemma HalfWrappedProbe(r: Ring, size: size_t)
    requires Positions(r, CSubTail) && Fill(r) > 0
    ensures Sub(r.capacity, Sub(r.tail, r.head)) >= SIZE_MODULUS - r.capacity
    ensures WriteAccepts(r.capacity, r.head, r.tail, size)
      <==> r.tail < 2 * r.capacity && r.tail + size <= 2 * r.capacity
    ensures WriteAccepts(r.capacity, r.head, r.tail, size) ==> Fits(r, size)
  {
  }

  /** Outside the two subtractions a look at the words themselves is consistent,
      and then the code's own tests decide exactly by the amount of room or data. */
  lemma ConsistentProbe(r: Ring, c: Consumer, size: size_t)
    requires Positions(r, c) && !c.CSubTail? && r.head < r.capacity
    ensures WriteAccepts(r.capacity, r.head, r.tail, size) <==> Fits(r, size)
    ensures ReadAccepts(r.capacity, r.head, r.tail, size) <==> size <= Fill(r)
  {
  }
}
