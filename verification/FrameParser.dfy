/** frame_parser.c: parsing of lines and the per-frame state machine of
    synchronisation, CRC and idle validation. The CRC and the idle check of the
    hsdaoh library, the two tolerances and the acquisition threshold are parameters. */
module FrameParser {
  import opened CTypes

  datatype CrcConfig = CrcNone | Crc1Line | Crc2Line

  datatype Meta = Meta(magicOk: bool, framecounter: uint16, hasStreamId: bool, crc: CrcConfig) {
    predicate HasCrc() {
      crc != CrcNone
    }
  }

  type Line = seq<byte>

  datatype RawFrame = Frame(width: nat, lines: seq<Line>, meta: Meta)

  type Frame = f: RawFrame | forall i :: 0 <= i < |f.lines| ==> |f.lines[i]| == 2 * f.width
    witness Frame(0, [], Meta(false, 0, false, CrcNone))

  datatype Env = Env(
    crc: seq<byte> -> uint16,
    idle: (uint16, seq<byte>) -> (uint16, nat),
    crcTol: nat,
    idleTol: nat,
    syncThreshold: nat)

  datatype ParsedLine = ParsedLine(payloadLen: uint16, crc: uint16, streamId: uint16, valid: bool)

  /** The little-endian word at index i. */
  function Word(line: Line, i: nat): uint16
    requires 2 * i + 1 < |line|
  {
    var lo: int, hi: int := line[2 * i], line[2 * i + 1];
    256 * hi + lo
  }

  function Trailer(meta: Meta): nat {
    1 + (if meta.hasStreamId then 1 else 0) + (if meta.HasCrc() then 1 else 0)
  }

  /** frame_parse_line. The payload length is compared after a cast to 16 bits. */
  function ParseLine(line: Line, width: nat, meta: Meta): (p: ParsedLine)
    requires |line| == 2 * width
    ensures p.valid ==> p.payloadLen <= 4095 && p.payloadLen + Trailer(meta) <= width
  {
    if width <= Trailer(meta) then ParsedLine(0, 0, 0, false)
    else
      var payloadLen := Word(line, width - 1) % 4096;
      var crc := if meta.HasCrc() then Word(line, width - 2) else 0;
      var streamId := if meta.hasStreamId then Word(line, width - 3) % 4096 else 0;
      ParsedLine(payloadLen, crc, streamId, payloadLen <= (width - Trailer(meta)) % 0x1_0000)
  }

  /** The state that runs along the lines. */
  datatype LineState = LineState(crc0: uint16, crc1: uint16, idle: uint16)

  const CLEARED: LineState := LineState(0, 0, 0)

  /** What has been found in the lines so far. */
  datatype Tally = Tally(
    ls: LineState, idleErrors: nat, crcErrors: nat, stream0: nat, stream1: nat, ok: bool)

  /** The idle words between payload and trailer, after the cast of their count. */
  function IdleField(line: Line, width: nat, meta: Meta, payloadLen: nat): seq<byte>
    requires |line| == 2 * width && payloadLen + Trailer(meta) <= width
  {
    var idleLen := (width - Trailer(meta) - payloadLen) % 0x1_0000;
    line[2 * payloadLen..2 * (payloadLen + idleLen)]
  }

  function CheckIdle(env: Env, idle: uint16, line: Line, width: nat, meta: Meta, payloadLen: nat): (uint16, nat)
    requires |line| == 2 * width && payloadLen + Trailer(meta) <= width
  {
    if width - Trailer(meta) - payloadLen == 0 then (idle, 0)
    else env.idle(idle, IdleField(line, width, meta, payloadLen))
  }

  function ExpectedCrc(ls: LineState, config: CrcConfig): uint16 {
    if config == Crc1Line then ls.crc0 else ls.crc1
  }

  /** One line: errors count unless suppressed, payload only when synchronised. */
  function LineStep(env: Env, t: Tally, line: Line, width: nat, meta: Meta, synced: bool, suppress: bool): Tally
    requires |line| == 2 * width
  {
    var p := ParseLine(line, width, meta);
    if !p.valid then t.(ok := false)
    else
      var (idle', idleErr) := CheckIdle(env, t.ls.idle, line, width, meta, p.payloadLen);
      var crcErr := if meta.HasCrc() && !suppress && p.crc != ExpectedCrc(t.ls, meta.crc) && synced then 1 else 0;
      var ls' := if meta.HasCrc() then LineState(env.crc(line), t.ls.crc0, idle') else t.ls.(idle := idle');
      var counted := p.payloadLen > 0 && synced;
      Tally(ls',
            t.idleErrors + (if suppress then 0 else idleErr),
            t.crcErrors + crcErr,
            t.stream0 + (if counted && p.streamId == 0 then 2 * p.payloadLen else 0),
            t.stream1 + (if counted && p.streamId == 1 then 2 * p.payloadLen else 0),
            true)
  }

  /** All lines up to the first that does not parse. */
  function FoldLines(env: Env, ls: LineState, lines: seq<Line>, width: nat, meta: Meta, synced: bool,
      suppress: bool): Tally
    requires forall i :: 0 <= i < |lines| ==> |lines[i]| == 2 * width
    decreases |lines|
  {
    if lines == [] then Tally(ls, 0, 0, 0, 0, true)
    else
      var n := |lines| - 1;
      var t := FoldLines(env, ls, lines[..n], width, meta, synced, suppress);
      if t.ok then LineStep(env, t, lines[n], width, meta, synced, suppress) else t
  }

  datatype SyncResult = SyncOK | Duplicate | Missed | Lost | Acquired

  datatype FrameResult = FrameResult(
    sync: SyncResult, stream0: nat, stream1: nat, errors: nat, valid: bool, report: bool)

  /** frame_parser_state_t. */
  datatype State = State(
    lastCnt: uint16, inOrder: uint32, synced: bool, nonSync: uint32,
    ls: LineState, sinceError: uint32, reprime: uint32)

  const INITIAL: State := State(0, 0, false, 0, CLEARED, 0, 0)

  function IdleDesyncThreshold(height: nat): nat {
    if height / 4 < 64 then 64 else height / 4
  }

  /** The three tolerances of frame_process, as the code combines them. */
  predicate Tolerated(env: Env, idleErrors: nat, crcErrors: nat) {
    var errors := idleErrors + crcErrors;
    || (idleErrors == 0 && crcErrors == errors && env.crcTol > 0 && crcErrors <= env.crcTol)
    || (crcErrors == 0 && idleErrors == errors && env.idleTol > 0 && idleErrors <= env.idleTol)
    || (idleErrors > 0 && crcErrors > 0 && env.idleTol > 0 && env.crcTol > 0
        && idleErrors <= env.idleTol && crcErrors <= env.crcTol && errors <= env.idleTol + env.crcTol)
  }

  predicate IdleBurst(env: Env, height: nat, idleErrors: nat, crcErrors: nat) {
    idleErrors > 0 && idleErrors >= IdleDesyncThreshold(height) && crcErrors <= env.crcTol
  }

  /** The frame's counter has been compared with the last one: a gap while
      synchronised clears the line validators and suppresses their errors once. */
  function Counted(s: State, cnt: uint16): State {
    var s' := s.(lastCnt := cnt);
    if cnt == Inc16(s.lastCnt) then s'.(inOrder := Inc32(s.inOrder))
    else if s.synced then s'.(inOrder := 0, ls := CLEARED, reprime := 1)
    else s'.(inOrder := 0)
  }

  /** What happens once all lines are in. */
  function Conclude(env: Env, s: State, height: nat, sync: SyncResult, t: Tally): (State, FrameResult) {
    var errors := t.idleErrors + t.crcErrors;
    var r := FrameResult(sync, t.stream0, t.stream1, errors, false, false);
    var s1 := s.(reprime := if s.reprime > 0 then s.reprime - 1 else s.reprime);
    if errors > 0 && s.synced && IdleBurst(env, height, t.idleErrors, t.crcErrors) then
      (s1.(ls := CLEARED, reprime := 2, sinceError := 0), r.(errors := 0))
    else if errors > 0 && s.synced && !Tolerated(env, t.idleErrors, t.crcErrors) then
      (s1.(sinceError := 0), r.(report := true))
    else
      var s2 := s1.(sinceError := Inc32(s.sinceError));
      if !s.synced && errors == 0 && s.inOrder > env.syncThreshold then
        (s2.(synced := true, nonSync := 0), r.(sync := Acquired))
      else (s2, r.(valid := s.synced))
  }

  /** frame_process as a function. */
  function FrameStep(env: Env, s: State, f: Frame): (State, FrameResult) {
    if !f.meta.magicOk then
      (s.(synced := false, inOrder := 0, nonSync := Inc32(s.nonSync), reprime := 0),
       FrameResult(Lost, 0, 0, 0, false, false))
    else if f.meta.framecounter == s.lastCnt then (s, FrameResult(Duplicate, 0, 0, 0, false, false))
    else
      var gap := f.meta.framecounter != Inc16(s.lastCnt) && s.synced;
      var sync := if gap then Missed else SyncOK;
      var s1 := Counted(s, f.meta.framecounter);
      var t := FoldLines(env, s1.ls, f.lines, f.width, f.meta, s.synced, s1.reprime > 0);
      if !t.ok then
        (s1.(ls := t.ls, nonSync := if s.synced then s.nonSync else Inc32(s.nonSync)),
         FrameResult(sync, t.stream0, t.stream1, t.idleErrors + t.crcErrors, false, false))
      else Conclude(env, s1.(ls := t.ls), |f.lines|, sync, t)
  }

  class Parser {
    const env: Env
    var lastFrameCnt: uint16
    var inOrderCnt: uint32
    var streamSynced: bool
    var nonSyncCnt: uint32
    var lastCrc: seq<uint16>
    var idleCnt: uint16
    var framesSinceError: uint32
    var reprimeFrames: uint32

    predicate Valid()
      reads this
    {
      |lastCrc| == 2
    }

    function Snapshot(): State
      requires Valid()
      reads this
    {
      State(lastFrameCnt, inOrderCnt, streamSynced, nonSyncCnt,
            LineState(lastCrc[0], lastCrc[1], idleCnt), framesSinceError, reprimeFrames)
    }

    constructor (env: Env)
      ensures Valid() && Snapshot() == INITIAL && this.env == env
    {
      this.env := env;
      lastFrameCnt, inOrderCnt, streamSynced, nonSyncCnt := 0, 0, false, 0;
      lastCrc, idleCnt, framesSinceError, reprimeFrames := [0, 0], 0, 0, 0;
    }

    method ClearLineValidators()
      modifies this`lastCrc, this`idleCnt
      ensures lastCrc == [0, 0] && idleCnt == 0
    {
      lastCrc := [0, 0];
      idleCnt := 0;
    }

    /** The body of the line loop: one line added to the totals so far. */
    method ScanLine(lineDat: Line, width: nat, meta: Meta, suppress: bool, idle0: nat, crc0: nat, bytes0: nat,
        bytes1: nat)
      returns (idleErrors: nat, crcErrors: nat, stream0: nat, stream1: nat, ok: bool)
      requires Valid() && |lineDat| == 2 * width
      modifies this`lastCrc, this`idleCnt
      ensures Valid()
      ensures var t := Tally(old(Snapshot().ls), idle0, crc0, bytes0, bytes1, true);
        LineStep(env, t, lineDat, width, meta, streamSynced, suppress)
          == Tally(Snapshot().ls, idleErrors, crcErrors, stream0, stream1, ok)
    {
      hide ParseLine, CheckIdle;
      idleErrors, crcErrors, stream0, stream1 := idle0, crc0, bytes0, bytes1;
      var parsed := ParseLine(lineDat, width, meta);
      if !parsed.valid {
        ok := false;
        return;
      }
      var (idle', idleErr) := CheckIdle(env, idleCnt, lineDat, width, meta, parsed.payloadLen);
      idleCnt := idle';
      if !suppress {
        idleErrors := idleErrors + idleErr;
      }
      if meta.HasCrc() {
        var expected := if meta.crc == Crc1Line then lastCrc[0] else lastCrc[1];
        if !suppress && parsed.crc != expected && streamSynced {
          crcErrors := crcErrors + 1;
        }
        lastCrc := [env.crc(lineDat), lastCrc[0]];
      }
      if parsed.payloadLen > 0 && streamSynced {
        if parsed.streamId == 0 {
          stream0 := stream0 + 2 * parsed.payloadLen;
        } else if parsed.streamId == 1 {
          stream1 := stream1 + 2 * parsed.payloadLen;
        }
      }
      ok := true;
    }

    /** The line loop of frame_process. */
    method ScanLines(f: Frame, suppress: bool) returns (idleErrors: nat, crcErrors: nat, stream0: nat,
        stream1: nat, ok: bool)
      requires Valid()
      modifies this`lastCrc, this`idleCnt
      ensures Valid()
      ensures var t := FoldLines(env, old(Snapshot().ls), f.lines, f.width, f.meta, streamSynced, suppress);
        t == Tally(Snapshot().ls, idleErrors, crcErrors, stream0, stream1, ok)
    {
      hide LineStep;
      idleErrors, crcErrors, stream0, stream1 := 0, 0, 0, 0;
      ghost var ls := Snapshot().ls;
      var line := 0;
      while line < |f.lines|
        invariant 0 <= line <= |f.lines| && Valid()
        invariant FoldLines(env, ls, f.lines[..line], f.width, f.meta, streamSynced, suppress)
          == Tally(Snapshot().ls, idleErrors, crcErrors, stream0, stream1, true)
      {
        var lineDat := f.lines[line];
        FoldLinesNext(env, ls, f.lines, f.width, f.meta, streamSynced, suppress, line);
        line := line + 1;
        idleErrors, crcErrors, stream0, stream1, ok :=
          ScanLine(lineDat, f.width, f.meta, suppress, idleErrors, crcErrors, stream0, stream1);
        if !ok {
          FoldLinesStopped(env, ls, f.lines, f.width, f.meta, streamSynced, suppress, line);
          return;
        }
      }
      assert f.lines[..line] == f.lines;
      ok := true;
    }

    /** The part of frame_process behind the line loop. */
    method Judge(height: nat, sync: SyncResult, idleErrors: nat, crcErrors: nat, stream0: nat, stream1: nat)
      returns (r: FrameResult)
      requires Valid()
      modifies this
      ensures Valid()
      ensures var t := Tally(old(Snapshot().ls), idleErrors, crcErrors, stream0, stream1, true);
        (Snapshot(), r) == Conclude(env, old(Snapshot()), height, sync, t)
    {
      r := FrameResult(sync, stream0, stream1, idleErrors + crcErrors, false, false);
      if reprimeFrames > 0 {
        reprimeFrames := reprimeFrames - 1;
      }
      if r.errors > 0 && streamSynced {
        if IdleBurst(env, height, idleErrors, crcErrors) {
          ClearLineValidators();
          reprimeFrames := 2;
          framesSinceError := 0;
          return r.(errors := 0);
        }
        if !Tolerated(env, idleErrors, crcErrors) {
          framesSinceError := 0;
          return r.(report := true);
        }
      }
      framesSinceError := Inc32(framesSinceError);
      if !streamSynced && r.errors == 0 && inOrderCnt > env.syncThreshold {
        streamSynced := true;
        nonSyncCnt := 0;
        return r.(sync := Acquired);
      }
      if streamSynced {
        r := r.(valid := true);
      }
    }

    /** frame_process. */
    method Process(f: Frame) returns (r: FrameResult)
      requires Valid()
      modifies this
      ensures Valid()
      ensures (Snapshot(), r) == FrameStep(env, old(Snapshot()), f)
    {
      hide FoldLines, Conclude;
      if !f.meta.magicOk {
        streamSynced := false;
        inOrderCnt := 0;
        nonSyncCnt := Inc32(nonSyncCnt);
        reprimeFrames := 0;
        return FrameResult(Lost, 0, 0, 0, false, false);
      }
      if f.meta.framecounter == lastFrameCnt {
        return FrameResult(Duplicate, 0, 0, 0, false, false);
      }
      var inOrder := f.meta.framecounter == Inc16(lastFrameCnt);
      var sync := SyncOK;
      if inOrder {
        inOrderCnt := Inc32(inOrderCnt);
      } else {
        inOrderCnt := 0;
        if streamSynced {
          sync := Missed;
          ClearLineValidators();
          reprimeFrames := 1;
        }
      }
      lastFrameCnt := f.meta.framecounter;
      assert Snapshot() == Counted(old(Snapshot()), f.meta.framecounter);
      var suppress := reprimeFrames > 0;
      var idleErrors, crcErrors, stream0, stream1, ok := ScanLines(f, suppress);
      if !ok {
        if !streamSynced {
          nonSyncCnt := Inc32(nonSyncCnt);
        }
        return FrameResult(sync, stream0, stream1, idleErrors + crcErrors, false, false);
      }
      r := Judge(|f.lines|, sync, idleErrors, crcErrors, stream0, stream1);
    }
  }

  lemma FoldLinesNext(env: Env, ls: LineState, lines: seq<Line>, width: nat, meta: Meta, synced: bool,
      suppress: bool, i: nat)
    requires (forall k :: 0 <= k < |lines| ==> |lines[k]| == 2 * width) && i < |lines|
    ensures var t := FoldLines(env, ls, lines[..i], width, meta, synced, suppress);
      FoldLines(env, ls, lines[..i + 1], width, meta, synced, suppress)
        == if t.ok then LineStep(env, t, lines[i], width, meta, synced, suppress) else t
  {
    assert lines[..i + 1][..i] == lines[..i];
  }

  lemma {:induction false} FoldLinesStopped(env: Env, ls: LineState, lines: seq<Line>, width: nat, meta: Meta,
      synced: bool, suppress: bool, i: nat)
    requires (forall k :: 0 <= k < |lines| ==> |lines[k]| == 2 * width) && i <= |lines|
    requires !FoldLines(env, ls, lines[..i], width, meta, synced, suppress).ok
    ensures FoldLines(env, ls, lines, width, meta, synced, suppress)
      == FoldLines(env, ls, lines[..i], width, meta, synced, suppress)
    decreases |lines| - i
  {
    if i == |lines| {
      assert lines[..i] == lines;
    } else {
      FoldLinesNext(env, ls, lines, width, meta, synced, suppress, i);
      FoldLinesStopped(env, ls, lines, width, meta, synced, suppress, i + 1);
    }
  }
}
