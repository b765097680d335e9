/** What counts as an error in a frame, and everything that frame_process makes of
    it, from the bytes of the lines and without the line loop. */
module FrameErrors {
  import opened CTypes
  import opened FrameParser

  // ----- One line, in bytes -----

  function TrailerWords(meta: Meta): nat {
    if meta.hasStreamId && meta.crc != CrcNone then 3
    else if meta.hasStreamId || meta.crc != CrcNone then 2
    else 1
  }

  /** The payload length in words: the lower twelve bits of the last word. */
  function LengthOf(line: Line, width: nat): nat
    requires |line| == 2 * width && width > 0
  {
    var lo: int, hi: int := line[2 * width - 2], line[2 * width - 1];
    lo + 256 * (hi % 16)
  }

  /** The CRC that a line carries for an earlier one: the last word but one. */
  function CrcField(line: Line, width: nat): int
    requires |line| == 2 * width && width > 1
  {
    var lo: int, hi: int := line[2 * width - 4], line[2 * width - 3];
    lo + 256 * hi
  }

  /** The stream: the lower twelve bits of the last word but two, whether there is a
      CRC behind it or not. */
  function StreamField(line: Line, width: nat): nat
    requires |line| == 2 * width && width > 2
  {
    var lo: int, hi: int := line[2 * width - 6], line[2 * width - 5];
    lo + 256 * (hi % 16)
  }

  /** The payload leaves room for the trailer, up to the cast of a width to 16 bits. */
  predicate WellFormed(line: Line, width: nat, meta: Meta)
    requires |line| == 2 * width
  {
    width > TrailerWords(meta) && LengthOf(line, width) <= (width - TrailerWords(meta)) % 0x1_0000
  }

  lemma LowBits(lo: nat, hi: nat)
    requires lo < 256 && hi < 256
    ensures (256 * hi + lo) % 4096 == lo + 256 * (hi % 16)
  {
    assert 256 * hi + lo == 4096 * (hi / 16) + (256 * (hi % 16) + lo);
  }

  /** Parsing in bytes. */
  lemma ParseLineExact(line: Line, width: nat, meta: Meta)
    requires |line| == 2 * width
    ensures var p := ParseLine(line, width, meta);
      && (p.valid <==> WellFormed(line, width, meta))
      && (p.valid ==> p.payloadLen == LengthOf(line, width))
      && (p.valid && meta.crc != CrcNone ==> p.crc == CrcField(line, width))
      && (p.valid ==> p.streamId == if meta.hasStreamId then StreamField(line, width) else 0)
  {
    if width > TrailerWords(meta) {
      LowBits(line[2 * width - 2], line[2 * width - 1]);
      if meta.hasStreamId {
        LowBits(line[2 * width - 6], line[2 * width - 5]);
      }
    }
  }

  predicate AllWellFormed(lines: seq<Line>, width: nat, meta: Meta)
    requires forall i :: 0 <= i < |lines| ==> |lines[i]| == 2 * width
  {
    forall i: nat :: i < |lines| ==> WellFormed(lines[i], width, meta)
  }

  // ----- CRC errors -----

  /** What line i has to carry: the CRC of the line before, or of the one before that,
      and for the first lines what the registers held. */
  function CrcDue(env: Env, ls: LineState, lines: seq<Line>, i: nat, config: CrcConfig): uint16
    requires i < |lines|
  {
    if config == Crc1Line then
      if i == 0 then ls.crc0 else env.crc(lines[i - 1])
    else
      if i == 0 then ls.crc1 else if i == 1 then ls.crc0 else env.crc(lines[i - 2])
  }

  predicate WrongAt(env: Env, ls: LineState, lines: seq<Line>, width: nat, config: CrcConfig, i: nat)
    requires width > 1 && i < |lines| && |lines[i]| == 2 * width
  {
    CrcField(lines[i], width) != CrcDue(env, ls, lines, i, config)
  }

  /** The lines that carry another CRC than the one due. */
  function WrongCrcs(env: Env, ls: LineState, lines: seq<Line>, width: nat, config: CrcConfig): set<nat>
    requires width > 1 && forall i :: 0 <= i < |lines| ==> |lines[i]| == 2 * width
  {
    set i: nat | i < |lines| && WrongAt(env, ls, lines, width, config, i)
  }

  function CrcErrors(env: Env, ls: LineState, lines: seq<Line>, width: nat, meta: Meta, synced: bool,
      suppress: bool): nat
    requires forall i :: 0 <= i < |lines| ==> |lines[i]| == 2 * width
  {
    if meta.crc != CrcNone && synced && !suppress && width > 1 then |WrongCrcs(env, ls, lines, width, meta.crc)| else 0
  }

  // ----- Idle errors -----

  /** What the idle check of one line gets to see: the words between payload and
      trailer, if any. */
  function IdleStep(env: Env, idle: uint16, line: Line, width: nat, meta: Meta): (uint16, nat)
    requires |line| == 2 * width && WellFormed(line, width, meta)
  {
    var from := LengthOf(line, width);
    var n := width - TrailerWords(meta) - from;
    if n == 0 then (idle, 0) else env.idle(idle, line[2 * from..2 * from + 2 * (n % 0x1_0000)])
  }

  /** The idle count after the lines, and the errors found in all of them, from the
      first line on. */
  function IdleRun(env: Env, idle: uint16, lines: seq<Line>, width: nat, meta: Meta): (uint16, nat)
    requires forall i :: 0 <= i < |lines| ==> |lines[i]| == 2 * width
    requires AllWellFormed(lines, width, meta)
    decreases |lines|
  {
    if lines == [] then (idle, 0)
    else
      assert WellFormed(lines[0], width, meta);
      assert forall i: nat :: i < |lines| - 1 ==> lines[1..][i] == lines[i + 1];
      var (idle', errors) := IdleStep(env, idle, lines[0], width, meta);
      var (end, more) := IdleRun(env, idle', lines[1..], width, meta);
      (end, errors + more)
  }

  lemma {:induction false} IdleRunSnoc(env: Env, idle: uint16, lines: seq<Line>, width: nat, meta: Meta)
    requires forall i :: 0 <= i < |lines| ==> |lines[i]| == 2 * width
    requires lines != [] && AllWellFormed(lines, width, meta)
    ensures var n := |lines| - 1;
      && AllWellFormed(lines[..n], width, meta) && WellFormed(lines[n], width, meta)
      && var (idle', errors) := IdleRun(env, idle, lines[..n], width, meta);
         var (end, more) := IdleStep(env, idle', lines[n], width, meta);
         IdleRun(env, idle, lines, width, meta) == (end, errors + more)
    decreases |lines|
  {
    hide IdleStep, WellFormed;
    var n := |lines| - 1;
    assert WellFormed(lines[n], width, meta);
    assert forall i: nat :: i < n ==> lines[..n][i] == lines[i];
    assert forall i: nat :: i < n ==> lines[1..][i] == lines[i + 1];
    if n > 0 {
      var idle' := IdleStep(env, idle, lines[0], width, meta).0;
      IdleRunSnoc(env, idle', lines[1..], width, meta);
      assert lines[1..][..n - 1] == lines[..n][1..];
    }
  }

  // ----- A frame's lines -----

  /** The registers after the lines. */
  function Registers(env: Env, ls: LineState, lines: seq<Line>, meta: Meta): (uint16, uint16) {
    var n := |lines|;
    if meta.crc == CrcNone || n == 0 then (ls.crc0, ls.crc1)
    else (env.crc(lines[n - 1]), if n == 1 then ls.crc0 else env.crc(lines[n - 2]))
  }

  lemma {:induction false} WrongCrcsSnoc(env: Env, ls: LineState, lines: seq<Line>, width: nat, config: CrcConfig)
    requires width > 1 && lines != [] && forall i :: 0 <= i < |lines| ==> |lines[i]| == 2 * width
    ensures var n := |lines| - 1;
      |WrongCrcs(env, ls, lines, width, config)| == |WrongCrcs(env, ls, lines[..n], width, config)|
        + if WrongAt(env, ls, lines, width, config, n) then 1 else 0
  {
    hide WrongAt;
    var n := |lines| - 1;
    var all, before := WrongCrcs(env, ls, lines, width, config), WrongCrcs(env, ls, lines[..n], width, config);
    forall i: nat | i < n
      ensures WrongAt(env, ls, lines, width, config, i) == WrongAt(env, ls, lines[..n], width, config, i)
    {
      WrongAtPrefix(env, ls, lines, width, config, n, i);
    }
    if WrongAt(env, ls, lines, width, config, n) {
      assert all == before + {n};
    } else {
      assert all == before;
    }
  }

  lemma WrongAtPrefix(env: Env, ls: LineState, lines: seq<Line>, width: nat, config: CrcConfig, n: nat, i: nat)
    requires width > 1 && i < n <= |lines| && |lines[i]| == 2 * width
    ensures WrongAt(env, ls, lines, width, config, i) == WrongAt(env, ls, lines[..n], width, config, i)
  {
  }

  /** One more line, given the tally so far in closed form. */
  lemma LineStepExact(env: Env, ls: LineState, lines: seq<Line>, width: nat, meta: Meta, synced: bool,
      suppress: bool, t: Tally)
    requires lines != [] && forall i :: 0 <= i < |lines| ==> |lines[i]| == 2 * width
    requires WellFormed(lines[|lines| - 1], width, meta) && t.ok
    requires var r := Registers(env, ls, lines[..|lines| - 1], meta); t.ls.crc0 == r.0 && t.ls.crc1 == r.1
    ensures var n := |lines| - 1;
      var t' := LineStep(env, t, lines[n], width, meta, synced, suppress);
      var (idle', errors) := IdleStep(env, t.ls.idle, lines[n], width, meta);
      var r := Registers(env, ls, lines, meta);
      && t'.ok
      && t'.ls == LineState(r.0, r.1, idle')
      && t'.idleErrors == t.idleErrors + (if suppress then 0 else errors)
      && t'.crcErrors == t.crcErrors
        + if meta.crc != CrcNone && synced && !suppress
             && WrongAt(env, ls, lines, width, meta.crc, n) then 1 else 0
  {
    hide ParseLine, CrcField;
    ParseLineExact(lines[|lines| - 1], width, meta);
  }

  /** The line loop finds exactly the wrong CRCs and the idle errors, none of them
      while errors are suppressed, and CRC errors only when synchronised. */
  lemma {:induction false} LinesExact(env: Env, ls: LineState, lines: seq<Line>, width: nat, meta: Meta,
      synced: bool, suppress: bool)
    requires forall i :: 0 <= i < |lines| ==> |lines[i]| == 2 * width
    requires AllWellFormed(lines, width, meta)
    ensures var t := FoldLines(env, ls, lines, width, meta, synced, suppress);
      var r, (idle', errors) := Registers(env, ls, lines, meta), IdleRun(env, ls.idle, lines, width, meta);
      && t.ok
      && t.ls == LineState(r.0, r.1, idle')
      && t.idleErrors == (if suppress then 0 else errors)
      && t.crcErrors == CrcErrors(env, ls, lines, width, meta, synced, suppress)
    decreases |lines|
  {
    hide ParseLine, LineStep, IdleStep, WellFormed, WrongAt, WrongCrcs, Registers;
    if lines == [] {
      NoLines(env, ls, width, meta);
    } else {
      var n := |lines| - 1;
      IdleRunSnoc(env, ls.idle, lines, width, meta);
      LinesExact(env, ls, lines[..n], width, meta, synced, suppress);
      LineStepExact(env, ls, lines, width, meta, synced, suppress,
                    FoldLines(env, ls, lines[..n], width, meta, synced, suppress));
      if width > 1 {
        WrongCrcsSnoc(env, ls, lines, width, meta.crc);
      }
      WidthOfWellFormed(lines[n], width, meta);
    }
  }

  lemma WidthOfWellFormed(line: Line, width: nat, meta: Meta)
    requires |line| == 2 * width && WellFormed(line, width, meta)
    ensures width > 1
  {
  }

  lemma NoLines(env: Env, ls: LineState, width: nat, meta: Meta)
    ensures Registers(env, ls, [], meta) == (ls.crc0, ls.crc1)
    ensures width > 1 ==> WrongCrcs(env, ls, [], width, meta.crc) == {}
  {
  }

  /** The loop gets through exactly if all lines are well formed. */
  lemma {:induction false} LinesParseExactly(env: Env, ls: LineState, lines: seq<Line>, width: nat, meta: Meta,
      synced: bool, suppress: bool)
    requires forall i :: 0 <= i < |lines| ==> |lines[i]| == 2 * width
    ensures FoldLines(env, ls, lines, width, meta, synced, suppress).ok <==> AllWellFormed(lines, width, meta)
    decreases |lines|
  {
    hide ParseLine, WellFormed, CheckIdle;
    if lines != [] {
      var n := |lines| - 1;
      ParseLineExact(lines[n], width, meta);
      LinesParseExactly(env, ls, lines[..n], width, meta, synced, suppress);
      assert forall i: nat :: i < n ==> lines[..n][i] == lines[i];
    }
  }

  // ----- A frame -----

  /** What the validators bring along into the lines of a frame with a new counter:
      a gap while synchronised clears them and suppresses the errors of the frame. */
  predicate Gap(s: State, cnt: uint16) {
    s.synced && cnt != (s.lastCnt + 1) % 0x1_0000
  }

  function EntryLines(s: State, cnt: uint16): LineState {
    if Gap(s, cnt) then LineState(0, 0, 0) else s.ls
  }

  /** Frames, this one included, whose errors are still suppressed. */
  function EntrySuppressed(s: State, cnt: uint16): nat {
    if Gap(s, cnt) then 1 else s.reprime
  }

  /** CRC and idle errors of a frame all of whose lines are well formed. */
  function ErrorTotals(env: Env, s: State, f: Frame): (int, int)
    requires AllWellFormed(f.lines, f.width, f.meta)
  {
    var cnt := f.meta.framecounter;
    var ls, suppress := EntryLines(s, cnt), EntrySuppressed(s, cnt) > 0;
    (CrcErrors(env, ls, f.lines, f.width, f.meta, s.synced, suppress),
     if suppress then 0 else IdleRun(env, ls.idle, f.lines, f.width, f.meta).1)
  }

  /** A quarter of the lines, but at least 64 idle errors, while the CRC errors stay
      within their tolerance. */
  predicate Burst(env: Env, height: nat, crcErrors: int, idleErrors: int) {
    idleErrors >= 64 && idleErrors >= height / 4 && crcErrors <= env.crcTol
  }

  predicate Within(env: Env, crcErrors: int, idleErrors: int) {
    crcErrors <= env.crcTol && idleErrors <= env.idleTol
  }

  predicate NewCounter(s: State, f: Frame) {
    f.meta.magicOk && f.meta.framecounter != s.lastCnt
  }

  /** A frame that does not get as far as its lines. */
  lemma EarlyOutcome(env: Env, s: State, f: Frame)
    requires !NewCounter(s, f)
    ensures FrameStep(env, s, f) ==
      if f.meta.magicOk then (s, FrameResult(Duplicate, 0, 0, 0, false, false))
      else (s.(synced := false, inOrder := 0, nonSync := (s.nonSync + 1) % 0x1_0000_0000, reprime := 0),
            FrameResult(Lost, 0, 0, 0, false, false))
  {
  }

  /** What happened to the counters before the lines. */
  predicate CountersKept(s: State, s': State, cnt: uint16) {
    && s'.lastCnt == cnt
    && s'.inOrder == (if cnt == (s.lastCnt + 1) % 0x1_0000 then (s.inOrder + 1) % 0x1_0000_0000 else 0)
  }

  /** A frame with a malformed line. */
  lemma MalformedOutcome(env: Env, s: State, f: Frame)
    requires NewCounter(s, f) && !AllWellFormed(f.lines, f.width, f.meta)
    ensures var (s', r) := FrameStep(env, s, f); var cnt := f.meta.framecounter;
      && !r.valid && !r.report
      && r.sync == (if Gap(s, cnt) then Missed else SyncOK)
      && CountersKept(s, s', cnt)
      && s'.synced == s.synced && s'.sinceError == s.sinceError
      && s'.nonSync == (if s.synced then s.nonSync else (s.nonSync + 1) % 0x1_0000_0000)
      && s'.reprime == EntrySuppressed(s, cnt)
  {
    hide FoldLines;
    var cnt := f.meta.framecounter;
    LinesParseExactly(env, EntryLines(s, cnt), f.lines, f.width, f.meta, s.synced, EntrySuppressed(s, cnt) > 0);
  }

  /** A frame of well-formed lines, in full: it is valid if and only if the parser was
      synchronised and both totals are within their tolerances and no idle burst; it is
      reported if and only if a total is not, and there is no burst; and it acquires
      synchronisation if and only if there was none, there are no errors and more than
      the threshold of counters came in order. */
  lemma FrameOutcome(env: Env, s: State, f: Frame)
    requires NewCounter(s, f) && AllWellFormed(f.lines, f.width, f.meta)
    ensures var (s', r) := FrameStep(env, s, f);
      var cnt, (crc, idle) := f.meta.framecounter, ErrorTotals(env, s, f);
      var ls := EntryLines(s, cnt);
      var burst := s.synced && Burst(env, |f.lines|, crc, idle);
      var acquired := !s.synced && crc + idle == 0 && s'.inOrder > env.syncThreshold;
      && r.valid == (s.synced && !burst && Within(env, crc, idle))
      && r.report == (s.synced && !burst && !Within(env, crc, idle))
      && r.errors == (if burst then 0 else crc + idle)
      && r.sync == (if Gap(s, cnt) then Missed else if acquired then Acquired else SyncOK)
      && CountersKept(s, s', cnt)
      && s'.synced == (s.synced || acquired)
      && s'.nonSync == (if acquired then 0 else s.nonSync)
      && s'.sinceError == (if burst || r.report then 0 else (s.sinceError + 1) % 0x1_0000_0000)
      && s'.reprime == (if burst then 2 else if EntrySuppressed(s, cnt) > 0 then EntrySuppressed(s, cnt) - 1 else 0)
      && s'.ls == (if burst then LineState(0, 0, 0) else
           var regs := Registers(env, ls, f.lines, f.meta);
           LineState(regs.0, regs.1, IdleRun(env, ls.idle, f.lines, f.width, f.meta).0))
  {
    hide FoldLines, CrcErrors, IdleRun, Registers;
    var cnt := f.meta.framecounter;
    LinesExact(env, EntryLines(s, cnt), f.lines, f.width, f.meta, s.synced, EntrySuppressed(s, cnt) > 0);
    UnsyncedHasNoCrcErrors(env, EntryLines(s, cnt), f.lines, f.width, f.meta, EntrySuppressed(s, cnt) > 0);
  }

  lemma UnsyncedHasNoCrcErrors(env: Env, ls: LineState, lines: seq<Line>, width: nat, meta: Meta, suppress: bool)
    requires forall i :: 0 <= i < |lines| ==> |lines[i]| == 2 * width
    ensures CrcErrors(env, ls, lines, width, meta, false, suppress) == 0
  {
  }

  /** Without CRC tolerance a frame is valid only if every line carries the CRC that is
      due; the other way round an unsuppressed frame without idle errors is valid if
      every line does. */
  lemma CrcDecides(env: Env, s: State, f: Frame)
    requires NewCounter(s, f) && AllWellFormed(f.lines, f.width, f.meta) && s.synced
    requires f.meta.crc != CrcNone && f.width > 1 && env.crcTol == 0
    requires EntrySuppressed(s, f.meta.framecounter) == 0 && ErrorTotals(env, s, f).1 == 0
    ensures FrameStep(env, s, f).1.valid
      <==> forall i: nat :: i < |f.lines| ==>
             CrcField(f.lines[i], f.width) == CrcDue(env, EntryLines(s, f.meta.framecounter), f.lines, i, f.meta.crc)
  {
    hide FrameStep, CrcField, CrcDue, Registers, IdleRun;
    FrameOutcome(env, s, f);
    var ls := EntryLines(s, f.meta.framecounter);
    var wrong := WrongCrcs(env, ls, f.lines, f.width, f.meta.crc);
    assert CrcErrors(env, ls, f.lines, f.width, f.meta, true, false) == |wrong|;
    if wrong == {} {
      forall i: nat | i < |f.lines|
        ensures CrcField(f.lines[i], f.width) == CrcDue(env, ls, f.lines, i, f.meta.crc)
      {
        assert i !in wrong;
        assert !WrongAt(env, ls, f.lines, f.width, f.meta.crc, i);
      }
    } else {
      var i :| i in wrong;
      assert WrongAt(env, ls, f.lines, f.width, f.meta.crc, i);
    }
  }
}
