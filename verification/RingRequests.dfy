/** What becomes of the requests of a run: which blocks are committed, how many bytes
    are released, and that every call ends with its signal. */
module RingRequests {
  import opened CTypes
  import opened RingArith
  import opened RingMachine
  import opened RingGrants

  /** The block of the last write request. */
  function LastBlock(acts: seq<Action>): Block {
    if acts == [] then []
    else
      var n := |acts| - 1;
      if acts[n].PBegin? then acts[n].data else LastBlock(acts[..n])
  }

  /** The blocks of the requests that got as far as a commit, in order. */
  function CommittedBytes(acts: seq<Action>): seq<byte> {
    if acts == [] then []
    else
      var n := |acts| - 1;
      CommittedBytes(acts[..n]) + if acts[n] == PPublish then LastBlock(acts[..n]) else []
  }

  /** The size of the last read call, and of the last end of a read. */
  function LastAsked(acts: seq<Action>): nat {
    if acts == [] then 0
    else
      var n := |acts| - 1;
      if acts[n].CBegin? then acts[n].size else LastAsked(acts[..n])
  }

  function LastFinished(acts: seq<Action>): nat {
    if acts == [] then 0
    else
      var n := |acts| - 1;
      if acts[n].CFinTail? then acts[n].size else LastFinished(acts[..n])
  }

  function ReleasedBytes(acts: seq<Action>): nat {
    if acts == [] then 0
    else
      var n := |acts| - 1;
      ReleasedBytes(acts[..n]) + if acts[n] == CAdvance then LastFinished(acts[..n]) else 0
  }

  predicate Asking(c: Consumer) {
    c.CHead? || c.CRefused? || c.CBlocked? || c.CRetry? || c.CGranted?
  }

  /** Inside rb_read_finished or about to signal. */
  predicate Finishing(c: Consumer) {
    !c.CIdle? && !Asking(c)
  }

  /** Both sides still hold what they were asked for. */
  ghost predicate RequestsHeld(s: State, acts: seq<Action>) {
    && s.r.sent == CommittedBytes(acts)
    && |s.r.got| == ReleasedBytes(acts)
    && (!s.producer.PIdle? ==> s.producer.data == LastBlock(acts))
    && (Asking(s.consumer) ==> s.consumer.size == LastAsked(acts))
    && (s.consumer.CFinish? || s.consumer.CAdd? ==> s.consumer.size == LastFinished(acts))
  }

  /** The histories after one more action. */
  lemma HistoryStep(acts: seq<Action>, a: Action)
    ensures LastBlock(acts + [a]) == if a.PBegin? then a.data else LastBlock(acts)
    ensures CommittedBytes(acts + [a]) == CommittedBytes(acts) + if a == PPublish then LastBlock(acts) else []
    ensures LastAsked(acts + [a]) == if a.CBegin? then a.size else LastAsked(acts)
    ensures LastFinished(acts + [a]) == if a.CFinTail? then a.size else LastFinished(acts)
    ensures ReleasedBytes(acts + [a]) == ReleasedBytes(acts) + if a == CAdvance then LastFinished(acts) else 0
  {
    assert (acts + [a])[..|acts|] == acts;
  }

  lemma ProducerStepHoldsRequests(s: State, acts: seq<Action>, a: Action)
    requires RequestsHeld(s, acts) && Enabled(s, a) && !ConsumerAction(a)
    ensures RequestsHeld(ApplyProducer(s, a), acts + [a])
  {
    hide WriteAccepts, Cell, LastBlock, CommittedBytes, LastAsked, LastFinished, ReleasedBytes;
    HistoryStep(acts, a);
  }

  lemma ConsumerStepHoldsRequests(s: State, acts: seq<Action>, a: Action)
    requires RequestsHeld(s, acts) && Enabled(s, a) && ConsumerAction(a)
    ensures RequestsHeld(ApplyConsumer(s, a), acts + [a])
  {
    hide ReadAccepts, View, LastBlock, CommittedBytes, LastAsked, LastFinished, ReleasedBytes;
    HistoryStep(acts, a);
  }

  lemma StepHoldsRequests(s: State, acts: seq<Action>, a: Action)
    requires RequestsHeld(s, acts) && Enabled(s, a)
    ensures RequestsHeld(Apply(s, a), acts + [a])
  {
    hide RequestsHeld, Enabled, ConsumerAction;
    if ConsumerAction(a) {
      ConsumerStepHoldsRequests(s, acts, a);
    } else {
      ProducerStepHoldsRequests(s, acts, a);
    }
  }

  /** Over every run the committed stream is the blocks of the committed requests in
      order, and as many bytes are consumed as the accepted ends of reads asked for. */
  lemma {:induction false} RunHoldsRequests(capacity: size_t, mem: seq<byte>, acts: seq<Action>)
    requires ValidCapacity(capacity) && |mem| == capacity && Valid(Init(capacity, mem), acts)
    ensures RequestsHeld(Run(Init(capacity, mem), acts), acts)
    decreases |acts|
  {
    hide Enabled, Apply;
    if acts != [] {
      var n := |acts| - 1;
      assert acts == acts[..n] + [acts[n]];
      RunThen(Init(capacity, mem), acts[..n], acts[n]);
      RunHoldsRequests(capacity, mem, acts[..n]);
      hide RequestsHeld;
      StepHoldsRequests(Run(Init(capacity, mem), acts[..n]), acts[..n], acts[n]);
    }
  }

  // ----- Every call ends -----

  /** How the calls begun and ended balance in one step. */
  function Begins(a: Action): int {
    if a.PBegin? then 1 else if a == PGiveUp || a == PSignal then -1 else 0
  }

  function Finishes(a: Action): int {
    if a.CFinTail? then 1 else if a == CSignal then -1 else 0
  }

  function OpenWrites(acts: seq<Action>): int {
    if acts == [] then 0 else OpenWrites(acts[..|acts| - 1]) + Begins(acts[|acts| - 1])
  }

  function OpenFinishes(acts: seq<Action>): int {
    if acts == [] then 0 else OpenFinishes(acts[..|acts| - 1]) + Finishes(acts[|acts| - 1])
  }

  /** A read was asked for and has been neither given up nor finished since. */
  predicate ReadOpen(acts: seq<Action>) {
    if acts == [] then false
    else
      var a := acts[|acts| - 1];
      a.CBegin? || (a != CGiveUp && !a.CFinTail? && ReadOpen(acts[..|acts| - 1]))
  }

  /** Over every run a write request ends only by being given up or by the signal after
      its end, a read request only by being given up or finished, and every end of a
      read, accepted or refused, ends with its signal. */
  lemma {:induction false} EveryCallEnds(capacity: size_t, mem: seq<byte>, acts: seq<Action>)
    requires ValidCapacity(capacity) && |mem| == capacity && Valid(Init(capacity, mem), acts)
    ensures var s := Run(Init(capacity, mem), acts);
      && OpenWrites(acts) == (if s.producer.PIdle? then 0 else 1)
      && OpenFinishes(acts) == (if Finishing(s.consumer) then 1 else 0)
      && (Asking(s.consumer) <==> ReadOpen(acts))
    decreases |acts|
  {
    hide Enabled, Apply, Finishing, Asking;
    if acts == [] {
      InitIsQuiet(capacity, mem);
    } else {
      var n := |acts| - 1;
      assert acts == acts[..n] + [acts[n]];
      RunThen(Init(capacity, mem), acts[..n], acts[n]);
      EveryCallEnds(capacity, mem, acts[..n]);
      StepBalances(Run(Init(capacity, mem), acts[..n]), acts[n]);
    }
  }

  lemma InitIsQuiet(capacity: size_t, mem: seq<byte>)
    requires ValidCapacity(capacity) && |mem| == capacity
    ensures !Finishing(Init(capacity, mem).consumer) && !Asking(Init(capacity, mem).consumer)
  {
  }

  lemma StepBalances(s: State, a: Action)
    requires Enabled(s, a)
    ensures var s' := Apply(s, a);
      && (if s'.producer.PIdle? then 0 else 1) == (if s.producer.PIdle? then 0 else 1) + Begins(a)
      && (if Finishing(s'.consumer) then 1 else 0) == (if Finishing(s.consumer) then 1 else 0) + Finishes(a)
      && (Asking(s'.consumer) <==> a.CBegin? || (a != CGiveUp && !a.CFinTail? && Asking(s.consumer)))
  {
    hide Enabled, Finishing, Asking, ApplyProducer, ApplyConsumer;
    if ConsumerAction(a) {
      ConsumerStepBalances(s, a);
    } else {
      ProducerStepBalances(s, a);
    }
  }

  lemma ProducerStepBalances(s: State, a: Action)
    requires Enabled(s, a) && !ConsumerAction(a)
    ensures var s' := ApplyProducer(s, a);
      && s'.consumer == s.consumer && Finishes(a) == 0 && !a.CBegin? && a != CGiveUp && !a.CFinTail?
      && (if s'.producer.PIdle? then 0 else 1) == (if s.producer.PIdle? then 0 else 1) + Begins(a)
  {
    hide WriteAccepts, Cell;
  }

  lemma ConsumerStepBalances(s: State, a: Action)
    requires Enabled(s, a) && ConsumerAction(a)
    ensures var s' := ApplyConsumer(s, a);
      && s'.producer == s.producer && Begins(a) == 0
      && (if Finishing(s'.consumer) then 1 else 0) == (if Finishing(s.consumer) then 1 else 0) + Finishes(a)
      && (Asking(s'.consumer) <==> a.CBegin? || (a != CGiveUp && !a.CFinTail? && Asking(s.consumer)))
  {
    hide ReadAccepts, View;
  }

  // ----- The order of steps -----

  /** The last action of one side. */
  function LastOwn(acts: seq<Action>, consumer: bool): Option<Action> {
    if acts == [] then None
    else
      var n := |acts| - 1;
      if ConsumerAction(acts[n]) == consumer then Some(acts[n]) else LastOwn(acts[..n], consumer)
  }

  /** What the producer may do next: every wait, served or timed out, is followed by a
      probe with both loads anew, and every end of a write by its signal. */
  predicate WriterMayGoOn(last: Option<Action>, a: Action) {
    match last
    case None => a.PBegin?
    case Some(PBegin(_)) => a == PLoadTail
    case Some(PLoadTail) => a == PGiveUp || a == PWait || a == PStore || a == PFinHead || a == PSkipRecheck
    case Some(PWait) => a == PWake || a == PTimeout
    case Some(PWake) => a == PReload
    case Some(PTimeout) => a == PReload
    case Some(PReload) => a == PLoadTail
    case Some(PStore) => a == PStore || a == PFinHead || a == PSkipRecheck || a == PGiveUp
    case Some(PFinHead) => a == PFinTail
    case Some(PFinTail) => a == PPublish || a == PSignal
    case Some(PSkipRecheck) => a == PPublish
    case Some(PPublish) => a == PSignal
    case Some(_) => a.PBegin?
  }

  predicate ReaderMayGoOn(last: Option<Action>, a: Action) {
    match last
    case None => a.CBegin? || a.CFinTail?
    case Some(CBegin(_)) => a == CLoadTail
    case Some(CLoadTail) => a == CGiveUp || a == CWait || a.CFinTail?
    case Some(CWait) => a == CWake || a == CTimeout
    case Some(CWake) => a == CReload
    case Some(CTimeout) => a == CReload
    case Some(CReload) => a == CLoadTail
    case Some(CFinTail(_)) => a == CFinHead
    case Some(CFinHead) => a == CAdvance || a == CSignal
    case Some(CAdvance) => a == CWrapTest
    case Some(CWrapTest) => a == CWrapHead || a == CSignal
    case Some(CWrapHead) => a == CWrapTail
    case Some(CWrapTail) => a == CSignal
    case Some(_) => a.CBegin? || a.CFinTail?
  }

  predicate Possible(s: State, a: Action, consumer: bool) {
    Enabled(s, a) && ConsumerAction(a) == consumer
  }

  /** Whatever the rest of the state, a writer that stands at p goes on as it may. */
  ghost predicate WriterOnCourse(p: Producer, last: Option<Action>) {
    forall t: State, a: Action :: t.producer == p && Possible(t, a, false) ==> WriterMayGoOn(last, a)
  }

  ghost predicate ReaderOnCourse(c: Consumer, last: Option<Action>) {
    forall t: State, a: Action :: t.consumer == c && Possible(t, a, true) ==> ReaderMayGoOn(last, a)
  }

  lemma WriterStaysOnCourse(s: State, a: Action, t: State, next: Action)
    requires Possible(s, a, false) && t.producer == ApplyProducer(s, a).producer && Possible(t, next, false)
    ensures WriterMayGoOn(Some(a), next)
  {
    hide WriteAccepts, Cell;
  }

  lemma ReaderStaysOnCourse(s: State, a: Action, t: State, next: Action)
    requires Possible(s, a, true) && t.consumer == ApplyConsumer(s, a).consumer && Possible(t, next, true)
    ensures ReaderMayGoOn(Some(a), next)
  {
    hide ReadAccepts, View;
  }

  lemma StepStaysOnCourse(s: State, a: Action, writer: Option<Action>, reader: Option<Action>)
    requires Enabled(s, a) && WriterOnCourse(s.producer, writer) && ReaderOnCourse(s.consumer, reader)
    ensures WriterOnCourse(Apply(s, a).producer, if ConsumerAction(a) then writer else Some(a))
    ensures ReaderOnCourse(Apply(s, a).consumer, if ConsumerAction(a) then Some(a) else reader)
  {
    KeepsOtherSide(s, a);
    hide Enabled, WriterMayGoOn, ReaderMayGoOn, ApplyProducer, ApplyConsumer;
    if ConsumerAction(a) {
      forall t: State, next: Action | t.consumer == Apply(s, a).consumer && Possible(t, next, true)
        ensures ReaderMayGoOn(Some(a), next)
      {
        ReaderStaysOnCourse(s, a, t, next);
      }
    } else {
      forall t: State, next: Action | t.producer == Apply(s, a).producer && Possible(t, next, false)
        ensures WriterMayGoOn(Some(a), next)
      {
        WriterStaysOnCourse(s, a, t, next);
      }
    }
  }

  lemma KeepsOtherSide(s: State, a: Action)
    requires Enabled(s, a)
    ensures if ConsumerAction(a) then Apply(s, a).producer == s.producer else Apply(s, a).consumer == s.consumer
  {
    hide WriteAccepts, ReadAccepts, View, Cell;
  }

  lemma InitOnCourse(capacity: size_t, mem: seq<byte>)
    requires ValidCapacity(capacity) && |mem| == capacity
    ensures var s := Init(capacity, mem); WriterOnCourse(s.producer, None) && ReaderOnCourse(s.consumer, None)
  {
  }

  lemma {:induction false} RunStaysOnCourse(capacity: size_t, mem: seq<byte>, acts: seq<Action>)
    requires ValidCapacity(capacity) && |mem| == capacity && Valid(Init(capacity, mem), acts)
    ensures var s := Run(Init(capacity, mem), acts);
      WriterOnCourse(s.producer, LastOwn(acts, false)) && ReaderOnCourse(s.consumer, LastOwn(acts, true))
    decreases |acts|
  {
    hide Enabled, Apply, WriterOnCourse, ReaderOnCourse, ConsumerAction;
    if acts == [] {
      InitOnCourse(capacity, mem);
    } else {
      var n := |acts| - 1;
      assert acts == acts[..n] + [acts[n]];
      RunThen(Init(capacity, mem), acts[..n], acts[n]);
      RunStaysOnCourse(capacity, mem, acts[..n]);
      StepStaysOnCourse(Run(Init(capacity, mem), acts[..n]), acts[n],
                        LastOwn(acts[..n], false), LastOwn(acts[..n], true));
    }
  }

  /** Over every run each side takes its steps in the order of the code. */
  lemma StepsInOrder(capacity: size_t, mem: seq<byte>, acts: seq<Action>, a: Action)
    requires ValidCapacity(capacity) && |mem| == capacity && Valid(Init(capacity, mem), acts + [a])
    ensures if ConsumerAction(a) then ReaderMayGoOn(LastOwn(acts, true), a) else WriterMayGoOn(LastOwn(acts, false), a)
  {
    hide WriterMayGoOn, ReaderMayGoOn;
    RunThen(Init(capacity, mem), acts, a);
    RunStaysOnCourse(capacity, mem, acts);
    assert Possible(Run(Init(capacity, mem), acts), a, ConsumerAction(a));
  }
}
