/** What the consumer can do on its own while the producer stands still, and in
    particular that it can always take tail back by a lap once tail has reached
    the second mapping. */
module RingConsumerRuns {
  import opened CTypes
  import opened RingArith
  import opened RingMachine
  import opened RingInvariant

  predicate ConsumerOnly(acts: seq<Action>) {
    forall i :: 0 <= i < |acts| ==> ConsumerAction(acts[i])
  }

  /** A run in which the consumer releases exactly what it was granted, or nothing. */
  predicate Orderly(s: State, acts: seq<Action>)
    decreases |acts|
  {
    acts == [] || (OrderlyStep(s, acts[0]) && Orderly(Apply(s, acts[0]), acts[1..]))
  }

  predicate OrderlyStep(s: State, a: Action) {
    Enabled(s, a) && (a.CFinTail? ==> s.consumer.CGranted? && s.consumer.size == a.size)
  }

  lemma OrderlyCons(s: State, a: Action, rest: seq<Action>)
    requires OrderlyStep(s, a) && Valid(Apply(s, a), rest) && Orderly(Apply(s, a), rest)
    ensures Valid(s, [a] + rest) && Orderly(s, [a] + rest) && Run(s, [a] + rest) == Run(Apply(s, a), rest)
  {
    assert ([a] + rest)[1..] == rest;
  }

  lemma {:induction false} OrderlyConcat(s: State, a: seq<Action>, b: seq<Action>)
    requires Valid(s, a) && Orderly(s, a) && Valid(Run(s, a), b) && Orderly(Run(s, a), b)
    ensures Valid(s, a + b) && Orderly(s, a + b) && Run(s, a + b) == Run(Run(s, a), b)
    decreases |a|
  {
    hide OrderlyStep, Enabled;
    if a == [] {
      assert a + b == b;
    } else {
      OrderlyConcat(Apply(s, a[0]), a[1..], b);
      assert (a + b)[1..] == a[1..] + b;
    }
  }

  lemma {:induction false} ConsumerRunKeepsInv(s: State, acts: seq<Action>)
    requires Inv(s) && ConsumerOnly(acts) && Valid(s, acts)
    ensures Inv(Run(s, acts)) && Run(s, acts).producer == s.producer
    decreases |acts|
  {
    hide Inv, Enabled;
    if acts != [] {
      assert SafeStep(s, acts[0]);
      StepKeepsInv(s, acts[0]);
      ConsumerRunKeepsInv(Apply(s, acts[0]), acts[1..]);
    }
  }

  /** A read call and the end of the read up to the wrap test, undisturbed. */
  function Take(n: size_t): seq<Action> {
    [CBegin(n), CLoadTail, CFinTail(n), CFinHead, CAdvance, CWrapTest]
  }

  lemma AdvanceRuns(s: State, n: size_t)
    requires s.consumer == CAdd(n) && s.r.head + n <= 2 * s.r.capacity
    ensures var acts := [CAdvance, CWrapTest]; var r' := Advance(s.r, n);
      && Valid(s, acts) && Orderly(s, acts)
      && Run(s, acts) == s.(r := r', consumer := if r'.head >= r'.capacity then CSubHead else CEnd)
  {
    OrderlyCons(Apply(s, CAdvance), CWrapTest, []);
    OrderlyCons(s, CAdvance, [CWrapTest]);
  }

  lemma FinishAccepts(s: State, n: size_t)
    requires Positions(s.r, CIdle) && s.consumer == CGranted(n, s.r.head) && n <= Fill(s.r)
    ensures s.r.head + n <= 2 * s.r.capacity
    ensures OrderlyStep(s, CFinTail(n)) && OrderlyStep(Apply(s, CFinTail(n)), CFinHead)
    ensures Apply(Apply(s, CFinTail(n)), CFinHead) == s.(consumer := CAdd(n))
  {
  }

  lemma FinishRuns(s: State, n: size_t)
    requires Positions(s.r, CIdle) && s.consumer == CGranted(n, s.r.head) && n <= Fill(s.r)
    ensures var acts := [CFinTail(n), CFinHead, CAdvance, CWrapTest]; var r' := Advance(s.r, n);
      && Valid(s, acts) && Orderly(s, acts)
      && Run(s, acts) == s.(r := r', consumer := if r'.head >= r'.capacity then CSubHead else CEnd)
  {
    hide Positions, Enabled, Apply, Valid, Run, Orderly, OrderlyStep;
    FinishAccepts(s, n);
    var s1 := Apply(s, CFinTail(n));
    AdvanceRuns(s.(consumer := CAdd(n)), n);
    OrderlyCons(s1, CFinHead, [CAdvance, CWrapTest]);
    OrderlyCons(s, CFinTail(n), [CFinHead, CAdvance, CWrapTest]);
    assert [CFinHead] + [CAdvance, CWrapTest] == [CFinHead, CAdvance, CWrapTest];
    assert [CFinTail(n)] + [CFinHead, CAdvance, CWrapTest] == [CFinTail(n), CFinHead, CAdvance, CWrapTest];
  }

  lemma GrantRuns(s: State, n: size_t)
    requires Positions(s.r, CIdle) && s.consumer.CIdle? && n <= Fill(s.r)
    ensures var acts := [CBegin(n), CLoadTail];
      Valid(s, acts) && Orderly(s, acts) && Run(s, acts) == s.(consumer := CGranted(n, s.r.head))
  {
    var s1 := Apply(s, CBegin(n));
    OrderlyCons(s1, CLoadTail, []);
    OrderlyCons(s, CBegin(n), [CLoadTail]);
  }

  lemma TakeRuns(s: State, n: size_t)
    requires Positions(s.r, CIdle) && s.consumer.CIdle? && n <= Fill(s.r)
    ensures var r' := Advance(s.r, n);
      && Valid(s, Take(n)) && Orderly(s, Take(n))
      && Run(s, Take(n)) == s.(r := r', consumer := if r'.head >= r'.capacity then CSubHead else CEnd)
  {
    hide Enabled, Apply, Valid, Run, Orderly;
    GrantRuns(s, n);
    FinishRuns(s.(consumer := CGranted(n, s.r.head)), n);
    var acts := [CFinTail(n), CFinHead, CAdvance, CWrapTest];
    OrderlyConcat(s, [CBegin(n), CLoadTail], acts);
    assert Take(n) == [CBegin(n), CLoadTail] + acts;
  }

  lemma WrapRuns(s: State)
    requires s.consumer.CSubHead?
    ensures var acts := [CWrapHead, CWrapTail];
      Valid(s, acts) && Orderly(s, acts) && Run(s, acts) == s.(r := WrapTail(WrapHead(s.r)), consumer := CEnd)
  {
    OrderlyCons(Apply(s, CWrapHead), CWrapTail, []);
    OrderlyCons(s, CWrapHead, [CWrapTail]);
  }

  lemma AdvanceReachesEnd(r: Ring, n: size_t)
    requires r.head + n == r.capacity
    ensures Advance(r, n).head == r.capacity
  {
  }

  /** The read that turns a full ring into an apparently empty one. */
  function WrappingRead(n: size_t): seq<Action> {
    Take(n) + [CWrapHead, CWrapTail]
  }

  lemma WrappingReadRuns(s: State, n: size_t)
    requires Positions(s.r, CIdle) && s.consumer.CIdle? && n <= Fill(s.r) && s.r.head + n == s.r.capacity
    ensures Valid(s, WrappingRead(n)) && Orderly(s, WrappingRead(n)) && ConsumerOnly(WrappingRead(n))
    ensures Run(s, WrappingRead(n)) == s.(r := WrapTail(WrapHead(Advance(s.r, n))), consumer := CEnd)
  {
    hide Positions, WrapHead, WrapTail, Enabled, Apply, Valid, Run, Orderly;
    TakeRuns(s, n);
    AdvanceReachesEnd(s.r, n);
    WrapRuns(Run(s, Take(n)));
    OrderlyConcat(s, Take(n), [CWrapHead, CWrapTail]);
  }

  // ----- Taking tail back by a lap -----

  /** From s to t nothing but a whole lap was taken off, with g bytes consumed in
      all. */
  ghost predicate WrappedOnce(s: State, t: State, g: int) {
    && t.producer == s.producer
    && t.r.capacity == s.r.capacity
    && t.r.sent == s.r.sent
    && t.r.tail + s.r.capacity == s.r.tail
    && t.r.tailBase == s.r.tailBase + s.r.capacity
    && |t.r.got| == g
  }

  ghost predicate CanWrap(s: State, g: int) {
    exists acts :: ConsumerOnly(acts) && Valid(s, acts) && Orderly(s, acts) && WrappedOnce(s, Run(s, acts), g)
  }

  lemma CanWrapBefore(s: State, a: Action, g: int)
    requires OrderlyStep(s, a) && ConsumerAction(a) && CanWrap(ApplyConsumer(s, a), g)
    requires !a.CWrapTail?
    ensures CanWrap(s, g)
  {
    var s' := ApplyConsumer(s, a);
    assert s'.r.tail == s.r.tail && s'.r.tailBase == s.r.tailBase && s'.r.sent == s.r.sent;
    assert s'.producer == s.producer && s'.r.capacity == s.r.capacity;
    hide Enabled, ApplyConsumer;
    var acts :| ConsumerOnly(acts) && Valid(s', acts) && Orderly(s', acts) && WrappedOnce(s', Run(s', acts), g);
    OrderlyCons(s, a, acts);
    assert ConsumerOnly([a] + acts);
  }

  lemma WrapFromSubHead(s: State)
    requires s.consumer.CSubHead? && Positions(s.r, CSubHead)
    ensures CanWrap(s, |s.r.got|)
  {
    WrapRuns(s);
    assert ConsumerOnly([CWrapHead, CWrapTail]);
  }

  lemma WrapFromIdle(s: State)
    requires s.consumer.CIdle? && Positions(s.r, CIdle) && s.r.capacity <= s.r.tail
    ensures CanWrap(s, s.r.headBase + s.r.capacity)
  {
    var n := s.r.capacity - s.r.head;
    WrappingReadRuns(s, n);
    assert WrappedOnce(s, Run(s, WrappingRead(n)), s.r.headBase + s.r.capacity);
  }

  lemma WrapFromTest(s: State)
    requires s.consumer.CTest? && Positions(s.r, CTest) && s.r.capacity <= s.r.tail
    ensures CanWrap(s, s.r.headBase + Max(s.r.head, s.r.capacity))
  {
    var s' := ApplyConsumer(s, CWrapTest);
    if s.r.head >= s.r.capacity {
      WrapFromSubHead(s');
    } else {
      WrapFromIdle(ApplyConsumer(s', CSignal));
      CanWrapBefore(s', CSignal, s.r.headBase + s.r.capacity);
    }
    CanWrapBefore(s, CWrapTest, s.r.headBase + Max(s.r.head, s.r.capacity));
  }

  lemma WrapFromAdd(s: State)
    requires s.consumer.CAdd? && ConsumerSide(s) && s.r.capacity <= s.r.tail
    ensures CanWrap(s, s.r.headBase + Max(s.r.head + s.consumer.size, s.r.capacity))
  {
    ConsumerStepKeepsSide(s, CAdvance);
    WrapFromTest(ApplyConsumer(s, CAdvance));
    CanWrapBefore(s, CAdvance, s.r.headBase + Max(s.r.head + s.consumer.size, s.r.capacity));
  }

  lemma WrapFromFinish(s: State)
    requires s.consumer.CFinish? && ConsumerSide(s) && s.r.capacity <= s.r.tail
    ensures CanWrap(s, s.r.headBase + Max(s.r.head + Pending(s.consumer, s.r.head), s.r.capacity))
  {
    hide CanWrap, Data;
    ConsumerStepKeepsSide(s, CFinHead);
    var s' := ApplyConsumer(s, CFinHead);
    if s'.consumer.CAdd? {
      WrapFromAdd(s');
    } else {
      WrapFromIdle(ApplyConsumer(s', CSignal));
      CanWrapBefore(s', CSignal, s.r.headBase + s.r.capacity);
    }
    CanWrapBefore(s, CFinHead, s.r.headBase + Max(s.r.head + Pending(s.consumer, s.r.head), s.r.capacity));
  }

  /** Outside rb_read_finished and not idle, or about to signal. */
  predicate OutsideUpdates(c: Consumer) {
    !c.CIdle? && !c.CFinish? && !c.CAdd? && !c.CTest? && !c.CSubHead? && !c.CSubTail?
  }

  /** The step by which a consumer that is not inside rb_read_finished gets back
      to the start of a call. */
  function StepBack(c: Consumer): Action
    requires OutsideUpdates(c)
  {
    match c
    case CHead(_, _) => CLoadTail
    case CRefused(_) => CGiveUp
    case CBlocked(_) => CTimeout
    case CRetry(_) => CReload
    case CGranted(_, _) => CGiveUp
    case CEnd => CSignal
  }

  /** How far a consumer is from the start of a call. */
  function StepsBack(c: Consumer): nat {
    match c
    case CBlocked(_) => 4
    case CRetry(_) => 3
    case CHead(_, _) => 2
    case CIdle => 0
    case CFinish(_, _) => 0
    case _ => 1
  }

  lemma StepBackKeeps(s: State)
    requires ConsumerSide(s) && OutsideUpdates(s.consumer)
    ensures var a := StepBack(s.consumer);
      && OrderlyStep(s, a) && ConsumerAction(a) && !a.CWrapTail?
      && ConsumerSide(ApplyConsumer(s, a))
      && ApplyConsumer(s, a).r == s.r
      && !ApplyConsumer(s, a).consumer.CSubTail?
      && StepsBack(ApplyConsumer(s, a).consumer) < StepsBack(s.consumer)
      && Pending(ApplyConsumer(s, a).consumer, s.r.head) == 0
  {
    ConsumerStepKeepsSide(s, StepBack(s.consumer));
    hide Data;
  }

  /** Once tail has reached the second mapping, the consumer can take a lap off it
      from wherever it stands, consuming no more than what it is bound to and what
      takes head to the second mapping. */
  lemma {:induction false} WrapFromAnywhere(s: State)
    requires ConsumerSide(s) && !s.consumer.CSubTail? && s.r.capacity <= s.r.tail
    ensures CanWrap(s, s.r.headBase + Max(s.r.head + Pending(s.consumer, s.r.head), s.r.capacity))
    decreases StepsBack(s.consumer)
  {
    hide CanWrap, Data;
    if s.consumer.CIdle? {
      WrapFromIdle(s);
    } else if s.consumer.CSubHead? {
      WrapFromSubHead(s);
    } else if s.consumer.CTest? {
      WrapFromTest(s);
    } else if s.consumer.CAdd? {
      WrapFromAdd(s);
    } else if s.consumer.CFinish? {
      WrapFromFinish(s);
    } else {
      assert OutsideUpdates(s.consumer);
      var a := StepBack(s.consumer);
      StepBackKeeps(s);
      hide Enabled, ApplyConsumer;
      assert ConsumerAction(a);
      WrapFromAnywhere(ApplyConsumer(s, a));
      CanWrapBefore(s, a, s.r.headBase + Max(s.r.head + Pending(s.consumer, s.r.head), s.r.capacity));
    }
  }
}
