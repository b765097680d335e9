/** The single-producer single-consumer ring of ringbuffer.c with the events of
    rb_event.c and the retry loops of buffer_manager.c around it, as a machine
    whose steps are the individual atomic accesses of the C code. */
module RingMachine {
  import opened CTypes
  import opened RingArith

  /** Where the producer stands. data is the block it wants to write; head and
      base are what its last load of head saw. */
  datatype Producer =
    | PIdle
    | PHead(data: Block, head: size_t, base: nat)            // head loaded, tail not yet
    | PRefused(data: Block)                                  // rb_write_ptr returned NULL
    | PBlocked(data: Block)                                  // waiting for the space event
    | PRetry(data: Block)                                    // woken, about to probe again
    | PGranted(data: Block, ptr: size_t, stored: nat)        // memcpy in progress
    | PFinish(data: Block, ptr: size_t, head: size_t, base: nat)  // rb_write_finished, head loaded
    | PCommit(data: Block, ptr: size_t)                      // all tests passed, tail += size pending
    | PEnd(data: Block, refused: bool)                       // rb_write_finished returned, signal pending

  datatype Consumer =
    | CIdle
    | CHead(size: size_t, head: size_t)
    | CRefused(size: size_t)
    | CBlocked(size: size_t)
    | CRetry(size: size_t)
    | CGranted(size: size_t, ptr: size_t)
    | CFinish(size: size_t, tail: size_t)                    // rb_read_finished, tail loaded
    | CAdd(size: size_t)                                     // head += size pending
    | CTest                                                  // head advanced, wrap test pending
    | CSubHead                                               // head -= capacity pending
    | CSubTail                                               // tail -= capacity pending
    | CEnd                                                   // rb_read_finished returned, signal pending

  /** The shared memory, and four history values: everything committed,
      everything consumed, and how much has been subtracted from head and from
      tail so far. */
  datatype RawRing = RawRing(
    capacity: size_t,
    head: size_t,
    tail: size_t,
    mem: seq<byte>,
    sent: seq<byte>,
    got: seq<byte>,
    headBase: nat,
    tailBase: nat)

  type Ring = r: RawRing | ValidCapacity(r.capacity) && |r.mem| == r.capacity
    witness RawRing(1, 0, 0, [0], [], [], 0, 0)

  /** The ring, the sticky flags of its two events, and both program counters. */
  datatype State = State(r: Ring, dataFlag: bool, spaceFlag: bool, producer: Producer, consumer: Consumer)

  // The five accesses that change the ring.

  function StoreByte(r: Ring, x: nat, b: byte): Ring
    requires x < 2 * r.capacity
  {
    r.(mem := r.mem[Cell(r.capacity, x) := b])
  }

  function Publish(r: Ring, data: Block): Ring {
    r.(tail := Add(r.tail, |data|), sent := r.sent + data)
  }

  function Advance(r: Ring, size: size_t): Ring
    requires r.head + size <= 2 * r.capacity
  {
    r.(got := r.got + View(r.mem, r.capacity, r.head, size), head := Add(r.head, size))
  }

  function WrapHead(r: Ring): Ring {
    r.(head := Sub(r.head, r.capacity), headBase := r.headBase + r.capacity)
  }

  function WrapTail(r: Ring): Ring {
    r.(tail := Sub(r.tail, r.capacity), tailBase := r.tailBase + r.capacity)
  }

  datatype Action =
    | PBegin(data: Block) | PLoadTail | PGiveUp | PWait | PWake | PTimeout | PReload
    | PStore | PFinHead | PFinTail | PSkipRecheck | PPublish | PSignal
    | CBegin(size: size_t) | CLoadTail | CGiveUp | CWait | CWake | CTimeout | CReload
    | CFinTail(size: size_t) | CFinHead | CAdvance | CWrapTest | CWrapHead | CWrapTail | CSignal

  function Init(capacity: size_t, mem: seq<byte>): State
    requires ValidCapacity(capacity) && |mem| == capacity
  {
    State(RawRing(capacity, 0, 0, mem, [], [], 0, 0), false, false, PIdle, CIdle)
  }

  /** Giving up ends a refused request, or lets a grant lapse: a loop that needs
      several rings at once asks again for all of them. A read may be finished with
      any size, also one that was not granted. */
  predicate Enabled(s: State, a: Action) {
    match a
    case PBegin(_) => s.producer.PIdle?
    case PLoadTail => s.producer.PHead?
    case PGiveUp => s.producer.PRefused? || s.producer.PGranted?
    case PWait => s.producer.PRefused?
    case PWake => s.producer.PBlocked? && s.spaceFlag
    case PTimeout => s.producer.PBlocked?
    case PReload => s.producer.PRetry?
    case PStore =>
      s.producer.PGranted? && s.producer.stored < |s.producer.data|
      && s.producer.ptr + s.producer.stored < 2 * s.r.capacity
    case PFinHead => s.producer.PGranted? && s.producer.stored == |s.producer.data|
    case PFinTail => s.producer.PFinish?
    case PSkipRecheck => s.producer.PGranted? && s.producer.stored == |s.producer.data|
    case PPublish => s.producer.PCommit?
    case PSignal => s.producer.PEnd?
    case CBegin(_) => s.consumer.CIdle?
    case CLoadTail => s.consumer.CHead?
    case CGiveUp => s.consumer.CRefused? || s.consumer.CGranted?
    case CWait => s.consumer.CRefused?
    case CWake => s.consumer.CBlocked? && s.dataFlag
    case CTimeout => s.consumer.CBlocked?
    case CReload => s.consumer.CRetry?
    case CFinTail(_) => s.consumer.CIdle? || s.consumer.CGranted?
    case CFinHead => s.consumer.CFinish?
    case CAdvance => s.consumer.CAdd? && s.r.head + s.consumer.size <= 2 * s.r.capacity
    case CWrapTest => s.consumer.CTest?
    case CWrapHead => s.consumer.CSubHead?
    case CWrapTail => s.consumer.CSubTail?
    case CSignal => s.consumer.CEnd?
  }

  predicate ConsumerAction(a: Action) {
    match a
    case CBegin(_) | CLoadTail | CGiveUp | CWait | CWake | CTimeout | CReload => true
    case CFinTail(_) | CFinHead | CAdvance | CWrapTest | CWrapHead | CWrapTail | CSignal => true
    case _ => false
  }

  function ApplyProducer(s: State, a: Action): State
    requires Enabled(s, a) && !ConsumerAction(a)
  {
    var p := s.producer;
    match a
    case PBegin(data) => s.(producer := PHead(data, s.r.head, s.r.headBase))
    case PLoadTail =>
      if WriteAccepts(s.r.capacity, p.head, s.r.tail, |p.data|)
      then s.(producer := PGranted(p.data, s.r.tail, 0))
      else s.(producer := PRefused(p.data))
    case PGiveUp => s.(producer := PIdle)
    case PWait => s.(producer := PBlocked(p.data))
    case PWake => s.(producer := PRetry(p.data), spaceFlag := false)
    case PTimeout => s.(producer := PRetry(p.data))
    case PReload => s.(producer := PHead(p.data, s.r.head, s.r.headBase))
    case PStore =>
      s.(r := StoreByte(s.r, p.ptr + p.stored, p.data[p.stored]),
         producer := PGranted(p.data, p.ptr, p.stored + 1))
    case PFinHead => s.(producer := PFinish(p.data, p.ptr, s.r.head, s.r.headBase))
    case PFinTail =>
      if WriteAccepts(s.r.capacity, p.head, s.r.tail, |p.data|)
      then s.(producer := PCommit(p.data, p.ptr))
      else s.(producer := PEnd(p.data, true))
    case PSkipRecheck => s.(producer := PCommit(p.data, p.ptr))
    case PPublish => s.(r := Publish(s.r, p.data), producer := PEnd(p.data, false))
    case PSignal => s.(producer := PIdle, dataFlag := true)
  }

  function ApplyConsumer(s: State, a: Action): State
    requires Enabled(s, a) && ConsumerAction(a)
  {
    var c := s.consumer;
    match a
    case CBegin(size) => s.(consumer := CHead(size, s.r.head))
    case CLoadTail =>
      if ReadAccepts(s.r.capacity, c.head, s.r.tail, c.size)
      then s.(consumer := CGranted(c.size, c.head))
      else s.(consumer := CRefused(c.size))
    case CGiveUp => s.(consumer := CIdle)
    case CWait => s.(consumer := CBlocked(c.size))
    case CWake => s.(consumer := CRetry(c.size), dataFlag := false)
    case CTimeout => s.(consumer := CRetry(c.size))
    case CReload => s.(consumer := CHead(c.size, s.r.head))
    case CFinTail(size) => s.(consumer := CFinish(size, s.r.tail))
    case CFinHead =>
      if Sub(c.tail, s.r.head) < c.size then s.(consumer := CEnd) else s.(consumer := CAdd(c.size))
    case CAdvance => s.(r := Advance(s.r, c.size), consumer := CTest)
    case CWrapTest => s.(consumer := if s.r.head >= s.r.capacity then CSubHead else CEnd)
    case CWrapHead => s.(r := WrapHead(s.r), consumer := CSubTail)
    case CWrapTail => s.(r := WrapTail(s.r), consumer := CEnd)
    case CSignal => s.(consumer := CIdle, spaceFlag := true)
  }

  function Apply(s: State, a: Action): State
    requires Enabled(s, a)
  {
    if ConsumerAction(a) then ApplyConsumer(s, a) else ApplyProducer(s, a)
  }

  // Runs: sequences of atomic steps of both sides in any order.

  predicate Valid(s: State, acts: seq<Action>)
    decreases |acts|
  {
    acts == [] || (Enabled(s, acts[0]) && Valid(Apply(s, acts[0]), acts[1..]))
  }

  function Run(s: State, acts: seq<Action>): State
    requires Valid(s, acts)
    decreases |acts|
  {
    if acts == [] then s else Run(Apply(s, acts[0]), acts[1..])
  }

  lemma RunCons(s: State, a: Action, rest: seq<Action>)
    requires Enabled(s, a) && Valid(Apply(s, a), rest)
    ensures Valid(s, [a] + rest) && Run(s, [a] + rest) == Run(Apply(s, a), rest)
  {
    assert ([a] + rest)[1..] == rest;
  }

  lemma {:induction false} RunConcat(s: State, a: seq<Action>, b: seq<Action>)
    requires Valid(s, a) && Valid(Run(s, a), b)
    ensures Valid(s, a + b) && Run(s, a + b) == Run(Run(s, a), b)
    decreases |a|
  {
    hide Enabled, Apply;
    if a == [] {
      assert a + b == b;
    } else {
      RunConcat(Apply(s, a[0]), a[1..], b);
      assert (a + b)[1..] == a[1..] + b;
    }
  }
}
