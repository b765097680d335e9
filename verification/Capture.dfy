/** hsdaoh_callback of misrc_capture.c with the copy loop, the audio filter and the
    synchronisation events of frame_parser.c: what reaches the two rings. */
module Capture {
  import opened CTypes
  import opened FrameParser

  // ----- What the lines of a frame carry -----

  predicate Carries(line: Line, width: nat, meta: Meta, id: nat)
    requires |line| == 2 * width
  {
    var p := ParseLine(line, width, meta);
    p.valid && p.payloadLen > 0 && p.streamId == id
  }

  function Payload(line: Line, width: nat, meta: Meta): seq<byte>
    requires |line| == 2 * width && ParseLine(line, width, meta).valid
  {
    line[..2 * ParseLine(line, width, meta).payloadLen]
  }

  /** The payloads of one stream, in line order. */
  function Payloads(lines: seq<Line>, width: nat, meta: Meta, id: nat): seq<seq<byte>>
    requires forall i :: 0 <= i < |lines| ==> |lines[i]| == 2 * width
  {
    if lines == [] then []
    else
      var n := |lines| - 1;
      var before := Payloads(lines[..n], width, meta, id);
      if Carries(lines[n], width, meta, id) then before + [Payload(lines[n], width, meta)] else before
  }

  function Flatten(parts: seq<seq<byte>>): seq<byte> {
    if parts == [] then [] else Flatten(parts[..|parts| - 1]) + parts[|parts| - 1]
  }

  function Drop(parts: seq<seq<byte>>, k: nat): seq<seq<byte>> {
    if k <= |parts| then parts[k..] else []
  }

  function StreamOf(f: Frame, id: nat): seq<byte> {
    Flatten(Payloads(f.lines, f.width, f.meta, id))
  }

  function AudioLines(f: Frame): nat {
    |Payloads(f.lines, f.width, f.meta, 1)|
  }

  lemma FlattenSnoc(parts: seq<seq<byte>>, last: seq<byte>)
    ensures Flatten(parts + [last]) == Flatten(parts) + last
  {
    assert (parts + [last])[..|parts|] == parts;
  }

  lemma PayloadsNext(lines: seq<Line>, width: nat, meta: Meta, id: nat, i: nat)
    requires (forall k :: 0 <= k < |lines| ==> |lines[k]| == 2 * width) && i < |lines|
    ensures var before := Payloads(lines[..i], width, meta, id);
      Payloads(lines[..i + 1], width, meta, id)
        == if Carries(lines[i], width, meta, id) then before + [Payload(lines[i], width, meta)] else before
  {
    assert lines[..i + 1][..i] == lines[..i];
  }

  lemma {:induction false} FlattenPrefix(parts: seq<seq<byte>>, n: nat)
    requires n <= |parts|
    ensures |Flatten(parts[..n])| <= |Flatten(parts)|
    decreases |parts| - n
  {
    if n == |parts| {
      assert parts[..n] == parts;
    } else {
      assert parts[..n + 1] == parts[..n] + [parts[n]];
      FlattenSnoc(parts[..n], parts[n]);
      FlattenPrefix(parts, n + 1);
    }
  }

  lemma {:induction false} PayloadsPrefix(lines: seq<Line>, width: nat, meta: Meta, id: nat, i: nat)
    requires (forall k :: 0 <= k < |lines| ==> |lines[k]| == 2 * width) && i <= |lines|
    ensures Payloads(lines[..i], width, meta, id) <= Payloads(lines, width, meta, id)
    decreases |lines| - i
  {
    if i == |lines| {
      assert lines[..i] == lines;
    } else {
      PayloadsNext(lines, width, meta, id, i);
      PayloadsPrefix(lines, width, meta, id, i + 1);
    }
  }

  /** The byte counts that frame_process reserves are the lengths of what the copy
      loop will copy. */
  lemma {:induction false} CountIsLength(env: Env, ls: LineState, lines: seq<Line>, width: nat, meta: Meta,
      suppress: bool)
    requires forall i :: 0 <= i < |lines| ==> |lines[i]| == 2 * width
    requires FoldLines(env, ls, lines, width, meta, true, suppress).ok
    ensures var t := FoldLines(env, ls, lines, width, meta, true, suppress);
      && t.stream0 == |Flatten(Payloads(lines, width, meta, 0))|
      && t.stream1 == |Flatten(Payloads(lines, width, meta, 1))|
    decreases |lines|
  {
    hide ParseLine, CheckIdle;
    if lines != [] {
      var n := |lines| - 1;
      CountIsLength(env, ls, lines[..n], width, meta, suppress);
      var p0, p1 := Payloads(lines[..n], width, meta, 0), Payloads(lines[..n], width, meta, 1);
      assert ParseLine(lines[n], width, meta).valid;
      FlattenSnoc(p0, Payload(lines[n], width, meta));
      FlattenSnoc(p1, Payload(lines[n], width, meta));
    }
  }

  lemma ValidCounts(env: Env, s: State, f: Frame)
    requires FrameStep(env, s, f).1.valid
    ensures var r := FrameStep(env, s, f).1;
      && r.stream0 == |StreamOf(f, 0)|
      && r.stream1 == |StreamOf(f, 1)|
      && (r.sync == SyncOK || r.sync == Missed)
      && !r.report
  {
    hide FoldLines, Payloads, Flatten;
    var s1 := Counted(s, f.meta.framecounter);
    if s.synced && FoldLines(env, s1.ls, f.lines, f.width, f.meta, s.synced, s1.reprime > 0).ok {
      CountIsLength(env, s1.ls, f.lines, f.width, f.meta, s1.reprime > 0);
    }
  }

  // ----- The audio filter and the copy loop -----

  class Handler {
    var captureRf: bool
    var captureAudio: bool
    var audioSyncStage1: bool
    var audioSyncStage2: bool

    constructor (rf: bool, audio: bool)
      ensures captureRf == rf && captureAudio == audio && Stage() == 0
    {
      captureRf, captureAudio, audioSyncStage1, audioSyncStage2 := rf, audio, false, false;
    }

    /** How many audio lines have been seen since the last reset, up to two. */
    function Stage(): (n: nat)
      reads this
      ensures n <= 2
    {
      if audioSyncStage2 then 2 else if audioSyncStage1 then 1 else 0
    }

    method ResetAudioSync()
      modifies this`audioSyncStage1, this`audioSyncStage2
      ensures Stage() == 0
    {
      audioSyncStage1 := false;
      audioSyncStage2 := false;
    }

    /** capture_handler_audio_filter. */
    method AudioFilter(streamId: nat) returns (copy: bool)
      modifies this`audioSyncStage1, this`audioSyncStage2
      ensures streamId == 0 ==> copy == captureRf && Stage() == old(Stage())
      ensures streamId == 1 ==> copy == (captureAudio && old(Stage()) == 2)
      ensures streamId == 1 ==>
        Stage() == if captureAudio && old(Stage()) < 2 then old(Stage()) + 1 else old(Stage())
      ensures streamId > 1 ==> !copy && Stage() == old(Stage())
    {
      if streamId == 0 {
        return captureRf;
      } else if streamId == 1 {
        if !captureAudio {
          return false;
        }
        if audioSyncStage2 {
          return true;
        }
        if audioSyncStage1 {
          audioSyncStage2 := true;
          return false;
        } else {
          audioSyncStage1 := true;
          return false;
        }
      }
      return false;
    }

    /** capture_handler_process_sync_event. */
    method SyncEvent(sync: SyncResult) returns (goOn: bool)
      modifies this`audioSyncStage1, this`audioSyncStage2
      ensures goOn <==> sync != Lost && sync != Duplicate
      ensures Stage() == if sync == Lost || sync == Acquired then 0 else old(Stage())
    {
      match sync {
        case Lost =>
          ResetAudioSync();
          return false;
        case Duplicate => return false;
        case Missed =>
        case Acquired => ResetAudioSync();
        case SyncOK =>
      }
      return true;
    }
  }

  function StageAfter(stage: nat, lines: nat): nat {
    if stage + lines < 2 then stage + lines else 2
  }

  /** What the copy loop writes behind out0 and out1. */
  function Copied0(rf: bool, lines: seq<Line>, width: nat, meta: Meta): seq<byte>
    requires forall i :: 0 <= i < |lines| ==> |lines[i]| == 2 * width
  {
    if rf then Flatten(Payloads(lines, width, meta, 0)) else []
  }

  function Copied1(audio: bool, stage: nat, lines: seq<Line>, width: nat, meta: Meta): seq<byte>
    requires forall i :: 0 <= i < |lines| ==> |lines[i]| == 2 * width
  {
    if audio then Flatten(Drop(Payloads(lines, width, meta, 1), if stage < 2 then 2 - stage else 0)) else []
  }

  /** memcpy of one payload to a byte offset. */
  method Memcpy(out: array<byte>, offset: nat, data: seq<byte>)
    requires offset + |data| <= out.Length
    modifies out
    ensures out[..offset + |data|] == old(out[..offset]) + data
  {
    var i := 0;
    while i < |data|
      invariant 0 <= i <= |data|
      invariant out[..offset + i] == old(out[..offset]) + data[..i]
    {
      out[offset + i] := data[i];
      i := i + 1;
    }
  }

  lemma Copied0Next(rf: bool, lines: seq<Line>, width: nat, meta: Meta, i: nat)
    requires (forall k :: 0 <= k < |lines| ==> |lines[k]| == 2 * width) && i < |lines|
    ensures Copied0(rf, lines[..i + 1], width, meta) == Copied0(rf, lines[..i], width, meta)
      + if rf && Carries(lines[i], width, meta, 0) then Payload(lines[i], width, meta) else []
    ensures |Copied0(rf, lines[..i + 1], width, meta)| <= |Copied0(rf, lines, width, meta)|
  {
    PayloadsNext(lines, width, meta, 0, i);
    var before, all := Payloads(lines[..i], width, meta, 0), Payloads(lines, width, meta, 0);
    if Carries(lines[i], width, meta, 0) {
      FlattenSnoc(before, Payload(lines[i], width, meta));
    }
    PayloadsPrefix(lines, width, meta, 0, i + 1);
    var upTo := Payloads(lines[..i + 1], width, meta, 0);
    FlattenPrefix(all, |upTo|);
    assert all[..|upTo|] == upTo;
  }

  lemma Copied1Next(audio: bool, stage: nat, lines: seq<Line>, width: nat, meta: Meta, i: nat)
    requires (forall k :: 0 <= k < |lines| ==> |lines[k]| == 2 * width) && i < |lines|
    ensures var seen := StageAfter(stage, |Payloads(lines[..i], width, meta, 1)|);
      Copied1(audio, stage, lines[..i + 1], width, meta) == Copied1(audio, stage, lines[..i], width, meta)
        + if audio && seen == 2 && Carries(lines[i], width, meta, 1) then Payload(lines[i], width, meta) else []
    ensures |Copied1(audio, stage, lines[..i + 1], width, meta)| <= |Copied1(audio, stage, lines, width, meta)|
  {
    hide Payloads, Flatten, Payload;
    PayloadsNext(lines, width, meta, 1, i);
    var before := Payloads(lines[..i], width, meta, 1);
    var k := if stage < 2 then 2 - stage else 0;
    assert Flatten([]) == [] by { FlattenNone(); }
    if Carries(lines[i], width, meta, 1) {
      DropSnoc(before, Payload(lines[i], width, meta), k);
    }
    Copied1Grows(lines, width, meta, i + 1, k);
  }

  lemma FlattenNone()
    ensures Flatten([]) == []
  {
  }

  lemma DropSnoc(parts: seq<seq<byte>>, last: seq<byte>, k: nat)
    ensures Flatten(Drop(parts + [last], k)) == Flatten(Drop(parts, k)) + if k <= |parts| then last else []
  {
    if k <= |parts| {
      assert Drop(parts + [last], k) == Drop(parts, k) + [last];
      FlattenSnoc(Drop(parts, k), last);
    }
  }

  lemma Copied1Grows(lines: seq<Line>, width: nat, meta: Meta, i: nat, k: nat)
    requires (forall j :: 0 <= j < |lines| ==> |lines[j]| == 2 * width) && i <= |lines|
    ensures |Flatten(Drop(Payloads(lines[..i], width, meta, 1), k))|
      <= |Flatten(Drop(Payloads(lines, width, meta, 1), k))|
  {
    PayloadsPrefix(lines, width, meta, 1, i);
    var upTo, all := Payloads(lines[..i], width, meta, 1), Payloads(lines, width, meta, 1);
    if k <= |upTo| {
      FlattenPrefix(Drop(all, k), |upTo| - k);
      assert Drop(all, k)[..|upTo| - k] == Drop(upTo, k);
    }
  }

  /** frame_copy_payloads_cb with the audio filter as its callback. */
  method CopyPayloads(h: Handler, f: Frame, out0: array?<byte>, out1: array?<byte>) returns (total: nat)
    requires out0 != null ==> out0.Length >= |Copied0(h.captureRf, f.lines, f.width, f.meta)|
    requires out1 != null ==> out1.Length >= |Copied1(h.captureAudio, h.Stage(), f.lines, f.width, f.meta)|
    requires out0 != null ==> out0 != out1
    modifies h`audioSyncStage1, h`audioSyncStage2, out0, out1
    ensures h.Stage() == if h.captureAudio then StageAfter(old(h.Stage()), AudioLines(f)) else old(h.Stage())
    ensures out0 != null ==> var c := Copied0(h.captureRf, f.lines, f.width, f.meta); out0[..|c|] == c
    ensures out1 != null ==>
      var c := Copied1(h.captureAudio, old(h.Stage()), f.lines, f.width, f.meta); out1[..|c|] == c
    ensures total == (if out0 != null then |Copied0(h.captureRf, f.lines, f.width, f.meta)| else 0)
      + (if out1 != null then |Copied1(h.captureAudio, old(h.Stage()), f.lines, f.width, f.meta)| else 0)
  {
    hide Copied0, Copied1, Payloads, ParseLine, Flatten, Drop;
    var offset0, offset1 := 0, 0;
    ghost var stage := h.Stage();
    CopiedNone(h.captureRf, h.captureAudio, stage, f.width, f.meta);
    assert f.lines[..0] == [];
    var line := 0;
    while line < |f.lines|
      invariant 0 <= line <= |f.lines|
      invariant h.Stage()
        == if h.captureAudio then StageAfter(stage, |Payloads(f.lines[..line], f.width, f.meta, 1)|) else stage
      invariant out0 != null ==> offset0 == |Copied0(h.captureRf, f.lines[..line], f.width, f.meta)|
      invariant out0 != null ==>
        && offset0 <= out0.Length
        && out0[..offset0] == Copied0(h.captureRf, f.lines[..line], f.width, f.meta)
      invariant out1 != null ==> offset1 == |Copied1(h.captureAudio, stage, f.lines[..line], f.width, f.meta)|
      invariant out1 != null ==>
        && offset1 <= out1.Length
        && out1[..offset1] == Copied1(h.captureAudio, stage, f.lines[..line], f.width, f.meta)
      invariant out0 == null ==> offset0 == 0
      invariant out1 == null ==> offset1 == 0
    {
      var lineDat := f.lines[line];
      Copied0Next(h.captureRf, f.lines, f.width, f.meta, line);
      Copied1Next(h.captureAudio, stage, f.lines, f.width, f.meta, line);
      PayloadsNext(f.lines, f.width, f.meta, 1, line);
      line := line + 1;
      var parsed := ParseLine(lineDat, f.width, f.meta);
      if !parsed.valid || parsed.payloadLen == 0 {
        continue;
      }
      var copy := h.AudioFilter(parsed.streamId);
      if !copy {
        continue;
      }
      var payload := Payload(lineDat, f.width, f.meta);
      if parsed.streamId == 0 && out0 != null {
        Memcpy(out0, offset0, payload);
        offset0 := offset0 + |payload|;
      } else if parsed.streamId == 1 && out1 != null {
        Memcpy(out1, offset1, payload);
        offset1 := offset1 + |payload|;
      }
    }
    assert f.lines[..line] == f.lines;
    total := offset0 + offset1;
  }

  lemma CopiedNone(rf: bool, audio: bool, stage: nat, width: nat, meta: Meta)
    ensures Copied0(rf, [], width, meta) == [] && Copied1(audio, stage, [], width, meta) == []
    ensures Payloads([], width, meta, 1) == []
  {
  }

  // ----- The callback -----

  const MAX_RETRIES: nat := 8

  /** One of the first eight probes succeeds. */
  ghost predicate Granted(try: seq<bool>)
    requires |try| >= MAX_RETRIES
  {
    exists i :: 0 <= i < MAX_RETRIES && try[i]
  }

  /** The number of refusals among the first eight probes before a grant. */
  ghost predicate Refusals(try: seq<bool>, waits: nat)
    requires |try| >= MAX_RETRIES
  {
    && waits <= MAX_RETRIES
    && (forall i :: 0 <= i < waits ==> !try[i])
    && (waits < MAX_RETRIES ==> try[waits])
  }

  /** The retry loop around rb_write_ptr: try[i] is the outcome of probe i. Every
      refusal before the grant is one counted wait, and the eighth one is final. */
  method Reserve(try: seq<bool>) returns (granted: bool, waits: nat)
    requires |try| >= MAX_RETRIES
    ensures waits <= MAX_RETRIES && forall i :: 0 <= i < waits ==> !try[i]
    ensures granted <==> waits < MAX_RETRIES && try[waits]
    ensures !granted <==> waits == 8
    ensures Refusals(try, waits) && (granted <==> Granted(try))
  {
    waits := 0;
    while !try[waits]
      invariant 0 <= waits < MAX_RETRIES
      invariant forall i :: 0 <= i < waits ==> !try[i]
      decreases MAX_RETRIES - waits
    {
      waits := waits + 1;
      if waits >= MAX_RETRIES {
        return false, waits;
      }
    }
    return true, waits;
  }

  /** What is captured so far, as values. */
  datatype Captured = Captured(parser: State, stage: nat, rf: seq<byte>, audio: seq<byte>)

  /** A frame as it meets the rings: whether each reservation succeeds, and whether
      the ring then accepts the commit, which the callback does not check. */
  datatype Arrival = Arrival(f: Frame, rfGranted: bool, audioGranted: bool, rfCommitted: bool, audioCommitted: bool)

  /** The stage that the filter sees, after the synchronisation event. */
  function StageIn(sync: SyncResult, stage: nat): nat {
    if sync == Lost || sync == Acquired then 0 else stage
  }

  /** Whether the copy loop runs. */
  predicate Reached(env: Env, c: Captured, a: Arrival, rfOn: bool) {
    var r := FrameStep(env, c.parser, a.f).1;
    r.valid && (rfOn && r.stream0 > 0 ==> a.rfGranted)
  }

  /** What one frame adds. */
  function CaptureStep(env: Env, rfOn: bool, audioOn: bool, c: Captured, a: Arrival): Captured {
    var (parser', r) := FrameStep(env, c.parser, a.f);
    var stage := StageIn(r.sync, c.stage);
    if !Reached(env, c, a, rfOn) then Captured(parser', stage, c.rf, c.audio)
    else
      Captured(parser',
               if audioOn then StageAfter(stage, AudioLines(a.f)) else stage,
               c.rf + (if rfOn && a.rfCommitted then StreamOf(a.f, 0) else []),
               c.audio
                 + (if audioOn && stage == 2 && a.audioGranted && a.audioCommitted then StreamOf(a.f, 1) else []))
  }

  class Context {
    const parser: Parser
    const handler: Handler
    var rf: seq<byte>        // everything committed to the RF ring
    var audio: seq<byte>     // everything committed to the audio ring
    var rbWaitCount: nat
    var rbDropCount: nat
    var rbAudioDropCount: nat

    constructor (env: Env, rfOn: bool, audioOn: bool)
      ensures Valid() && fresh(parser) && fresh(handler)
      ensures Value() == Captured(INITIAL, 0, [], [])
      ensures parser.env == env && handler.captureRf == rfOn && handler.captureAudio == audioOn
    {
      parser := new Parser(env);
      handler := new Handler(rfOn, audioOn);
      rf, audio, rbWaitCount, rbDropCount, rbAudioDropCount := [], [], 0, 0, 0;
    }

    ghost predicate Valid()
      reads this, parser
    {
      parser.Valid()
    }

    function Value(): Captured
      requires parser.Valid()
      reads this, parser, handler
    {
      Captured(parser.Snapshot(), handler.Stage(), rf, audio)
    }

    /** A reservation of size bytes with its counted waits. */
    method ReserveRegion(size: nat, try: seq<bool>) returns (region: array?<byte>, ghost waits: nat)
      requires |try| >= MAX_RETRIES
      modifies this`rbWaitCount
      ensures Refusals(try, waits) && rbWaitCount == old(rbWaitCount) + waits
      ensures region != null <==> Granted(try)
      ensures region != null ==> fresh(region) && region.Length == size
    {
      var granted, refused := Reserve(try);
      waits := refused;
      rbWaitCount := rbWaitCount + refused;
      region := null;
      if granted {
        region := new byte[size];
      }
    }

    /** Copy and commit, once the regions are reserved. Whether a commit is accepted is
        up to the ring; nothing is counted when it is not. */
    method CopyAndCommit(f: Frame, bufOut: array?<byte>, bufOutAudio: array?<byte>, audioThisFrame: bool,
        rfCommits: bool, audioCommits: bool)
      requires audioThisFrame <==> handler.captureAudio && handler.audioSyncStage2
      requires bufOut != null ==> handler.captureRf && bufOut.Length == |StreamOf(f, 0)| && bufOut != bufOutAudio
      requires bufOutAudio != null ==> audioThisFrame && bufOutAudio.Length == |StreamOf(f, 1)|
      modifies this`rf, this`audio, handler`audioSyncStage1, handler`audioSyncStage2, bufOut, bufOutAudio
      ensures var stage := old(handler.Stage());
        handler.Stage() == if handler.captureAudio then StageAfter(stage, AudioLines(f)) else stage
      ensures rf == old(rf) + if bufOut != null && rfCommits then StreamOf(f, 0) else []
      ensures audio == old(audio) + if bufOutAudio != null && audioCommits then StreamOf(f, 1) else []
    {
      hide Flatten, Payloads, ParseLine, StreamOf, AudioLines;
      CopiedWhole(f, handler.captureRf, handler.captureAudio);
      var _ := CopyPayloads(handler, f, bufOut, bufOutAudio);
      if handler.captureRf && bufOut != null {
        assert bufOut[..] == bufOut[..bufOut.Length];
        rf := rf + if rfCommits then bufOut[..] else [];
      }
      if audioThisFrame && bufOutAudio != null {
        assert bufOutAudio[..] == bufOutAudio[..bufOutAudio.Length];
        audio := audio + if audioCommits then bufOutAudio[..] else [];
      }
    }

    /** Reservation, copy and commit of a valid frame. A stream is reserved for only if
        it is wanted and not empty; a failed RF reservation drops the whole frame, a
        failed audio reservation only the audio. */
    method Store(f: Frame, r: FrameResult, tryRf: seq<bool>, tryAudio: seq<bool>, rfCommits: bool,
        audioCommits: bool)
      returns (ghost rfWaits: nat, ghost audioWaits: nat)
      requires |tryRf| >= MAX_RETRIES && |tryAudio| >= MAX_RETRIES
      requires r.stream0 == |StreamOf(f, 0)| && r.stream1 == |StreamOf(f, 1)|
      modifies this`rf, this`audio, this`rbWaitCount, this`rbDropCount, this`rbAudioDropCount,
               handler`audioSyncStage1, handler`audioSyncStage2
      ensures var wantRf := handler.captureRf && r.stream0 > 0;
        var reached := wantRf ==> Granted(tryRf);
        var stage := old(handler.Stage());
        var wantAudio := reached && handler.captureAudio && stage == 2 && r.stream1 > 0;
        && handler.Stage() == (if reached && handler.captureAudio then StageAfter(stage, AudioLines(f)) else stage)
        && rf == old(rf) + (if wantRf && reached && rfCommits then StreamOf(f, 0) else [])
        && audio == old(audio) + (if wantAudio && Granted(tryAudio) && audioCommits then StreamOf(f, 1) else [])
        && rbDropCount == old(rbDropCount) + (if reached then 0 else 1)
        && rbAudioDropCount == old(rbAudioDropCount) + (if wantAudio && !Granted(tryAudio) then 1 else 0)
        && rbWaitCount == old(rbWaitCount) + rfWaits + audioWaits
        && (if wantRf then Refusals(tryRf, rfWaits) else rfWaits == 0)
        && (if wantAudio then Refusals(tryAudio, audioWaits) else audioWaits == 0)
    {
      hide Flatten, Payloads, ParseLine, StreamOf, Copied0, Copied1, AudioLines, Granted, Refusals;
      rfWaits, audioWaits := 0, 0;
      var bufOut: array?<byte>, bufOutAudio: array?<byte> := null, null;
      var captureAudioThisFrame := handler.captureAudio && handler.audioSyncStage2;
      if handler.captureRf && r.stream0 > 0 {
        bufOut, rfWaits := ReserveRegion(r.stream0, tryRf);
        if bufOut == null {
          rbDropCount := rbDropCount + 1;
          return;
        }
      }
      if captureAudioThisFrame && r.stream1 > 0 {
        bufOutAudio, audioWaits := ReserveRegion(r.stream1, tryAudio);
        if bufOutAudio == null {
          rbAudioDropCount := rbAudioDropCount + 1;
        }
      }
      CopyAndCommit(f, bufOut, bufOutAudio, captureAudioThisFrame, rfCommits, audioCommits);
    }

    /** hsdaoh_callback. The reservations stand for rb_write_ptr, the granted regions
        are of exactly the reserved size, and an accepted commit appends all of a
        region. */
    method OnFrame(f: Frame, tryRf: seq<bool>, tryAudio: seq<bool>, rfCommits: bool, audioCommits: bool,
        ghost a: Arrival)
      requires Valid() && |tryRf| >= MAX_RETRIES && |tryAudio| >= MAX_RETRIES
      requires a.f == f && a.rfCommitted == rfCommits && a.audioCommitted == audioCommits
      requires a.rfGranted <==> Granted(tryRf)
      requires a.audioGranted <==> Granted(tryAudio)
      modifies this, parser, handler`audioSyncStage1, handler`audioSyncStage2
      ensures Valid()
      ensures Value() == CaptureStep(parser.env, handler.captureRf, handler.captureAudio, old(Value()), a)
    {
      hide FrameStep, StreamOf, AudioLines;
      ghost var c := Value();
      var result := parser.Process(f);
      var goOn := handler.SyncEvent(result.sync);
      if result.valid {
        ValidCounts(parser.env, c.parser, f);
      }
      if !goOn {
        return;
      }
      if result.errors > 0 && result.report {
        return;
      }
      if !result.valid {
        return;
      }
      var _, _ := Store(f, result, tryRf, tryAudio, rfCommits, audioCommits);
    }
  }

  /** From a filter that is through, the copy is the whole stream. */
  lemma CopiedWhole(f: Frame, rf: bool, audio: bool)
    ensures Copied0(rf, f.lines, f.width, f.meta) == if rf then StreamOf(f, 0) else []
    ensures Copied1(audio, 2, f.lines, f.width, f.meta) == if audio then StreamOf(f, 1) else []
  {
    var parts := Payloads(f.lines, f.width, f.meta, 1);
    assert Drop(parts, 0) == parts;
  }

  // ----- Runs -----

  /** Everything captured over a run. */
  function CaptureRun(env: Env, rfOn: bool, audioOn: bool, c: Captured, run: seq<Arrival>): Captured {
    if run == [] then c
    else CaptureStep(env, rfOn, audioOn, CaptureRun(env, rfOn, audioOn, c, run[..|run| - 1]), run[|run| - 1])
  }

  /** Whether the copy loop runs for frame k. */
  predicate ReachedAt(env: Env, rfOn: bool, audioOn: bool, c: Captured, run: seq<Arrival>, k: nat)
    requires k < |run|
  {
    Reached(env, CaptureRun(env, rfOn, audioOn, c, run[..k]), run[k], rfOn)
  }

  /** Whether frame k loses or acquires synchronisation. */
  predicate EventAt(env: Env, rfOn: bool, audioOn: bool, c: Captured, run: seq<Arrival>, k: nat)
    requires k < |run|
  {
    var sync := FrameStep(env, CaptureRun(env, rfOn, audioOn, c, run[..k]).parser, run[k].f).1.sync;
    sync == Lost || sync == Acquired
  }

  /** Audio lines, since the last such event, in the frames that the copy loop has gone
      through; before the first one the stage of the filter stands for earlier lines. */
  function LinesSeen(env: Env, rfOn: bool, audioOn: bool, c: Captured, run: seq<Arrival>): nat
    requires c.stage <= 2
  {
    if run == [] then c.stage
    else
      var n := |run| - 1;
      if EventAt(env, rfOn, audioOn, c, run, n) then 0
      else
        LinesSeen(env, rfOn, audioOn, c, run[..n])
        + if audioOn && ReachedAt(env, rfOn, audioOn, c, run, n) then AudioLines(run[n].f) else 0
  }

  /** For each frame all of its audio or none: all of it if at least two audio lines
      were seen in earlier frames since the last synchronisation event and the frame
      got through, got its space and was committed. */
  function WholeAudioFrames(env: Env, rfOn: bool, audioOn: bool, c: Captured,
      run: seq<Arrival>): (parts: seq<seq<byte>>)
    requires c.stage <= 2
    ensures |parts| == |run|
  {
    if run == [] then []
    else
      var n := |run| - 1;
      var enough := LinesSeen(env, rfOn, audioOn, c, run[..n]) >= 2;
      var take := audioOn && enough && ReachedAt(env, rfOn, audioOn, c, run, n)
        && run[n].audioGranted && run[n].audioCommitted;
      WholeAudioFrames(env, rfOn, audioOn, c, run[..n]) + [if take then StreamOf(run[n].f, 1) else []]
  }

  /** Likewise for RF, which does not wait for anything. */
  function WholeRfFrames(env: Env, rfOn: bool, audioOn: bool, c: Captured, run: seq<Arrival>): (parts: seq<seq<byte>>)
    ensures |parts| == |run|
  {
    if run == [] then []
    else
      var n := |run| - 1;
      var take := rfOn && ReachedAt(env, rfOn, audioOn, c, run, n) && run[n].rfCommitted;
      WholeRfFrames(env, rfOn, audioOn, c, run[..n]) + [if take then StreamOf(run[n].f, 0) else []]
  }

  /** One frame. A frame that reaches the copy loop is no synchronisation event. */
  lemma AudioStep(env: Env, rfOn: bool, audioOn: bool, c: Captured, a: Arrival)
    ensures var e := CaptureStep(env, rfOn, audioOn, c, a);
      var sync, reached := FrameStep(env, c.parser, a.f).1.sync, Reached(env, c, a, rfOn);
      && (sync == Lost || sync == Acquired ==> !reached && e.stage == 0)
      && (sync != Lost && sync != Acquired ==>
            e.stage == if audioOn && reached then StageAfter(c.stage, AudioLines(a.f)) else c.stage)
      && e.audio == c.audio
        + if audioOn && reached && c.stage == 2 && a.audioGranted && a.audioCommitted then StreamOf(a.f, 1) else []
  {
    hide FrameStep, AudioLines, StreamOf, StageAfter;
    if FrameStep(env, c.parser, a.f).1.valid {
      ValidCounts(env, c.parser, a.f);
    }
  }

  /** Over any run the audio ring receives only whole frames, after each
      synchronisation event from the frame after the one with the second audio line
      on; the stage of the filter counts exactly the lines seen since. */
  lemma {:induction false} AudioInWholeFrames(env: Env, rfOn: bool, audioOn: bool, c: Captured, run: seq<Arrival>)
    requires c.stage <= 2
    ensures var e := CaptureRun(env, rfOn, audioOn, c, run);
      && e.stage == StageAfter(0, LinesSeen(env, rfOn, audioOn, c, run))
      && e.audio == c.audio + Flatten(WholeAudioFrames(env, rfOn, audioOn, c, run))
    decreases |run|
  {
    hide FrameStep, CaptureStep, Reached, AudioLines, StreamOf, Flatten;
    if run == [] {
      FlattenNone();
    } else {
      var n := |run| - 1;
      AudioInWholeFrames(env, rfOn, audioOn, c, run[..n]);
      AudioStep(env, rfOn, audioOn, CaptureRun(env, rfOn, audioOn, c, run[..n]), run[n]);
      var parts := WholeAudioFrames(env, rfOn, audioOn, c, run[..n]);
      var last := WholeAudioFrames(env, rfOn, audioOn, c, run)[n];
      FlattenSnoc(parts, last);
      Regroup(c.audio, Flatten(parts), last);
    }
  }

  /** The RF ring receives the payloads of whole frames in order, over any run. */
  lemma {:induction false} RfInWholeFrames(env: Env, rfOn: bool, audioOn: bool, c: Captured, run: seq<Arrival>)
    ensures CaptureRun(env, rfOn, audioOn, c, run).rf == c.rf + Flatten(WholeRfFrames(env, rfOn, audioOn, c, run))
    decreases |run|
  {
    hide FrameStep, AudioLines, StreamOf, Flatten;
    if run == [] {
      FlattenNone();
    } else {
      var n := |run| - 1;
      RfInWholeFrames(env, rfOn, audioOn, c, run[..n]);
      FlattenSnoc(WholeRfFrames(env, rfOn, audioOn, c, run[..n]), WholeRfFrames(env, rfOn, audioOn, c, run)[n]);
    }
  }
}
