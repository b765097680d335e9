/** When a frame is valid, what must have happened before it, and how the CRC
    validator finds back into step after a gap. */
module FrameTheorems {
  import opened CTypes
  import opened FrameParser

  /** What the line loop finds in a frame that is neither lost nor a duplicate. */
  function Tallied(env: Env, s: State, f: Frame): Tally {
    var s1 := Counted(s, f.meta.framecounter);
    FoldLines(env, s1.ls, f.lines, f.width, f.meta, s.synced, s1.reprime > 0)
  }

  /** A frame is valid exactly when the parser was synchronised on entry, magic and
      counter are good, all lines parse, and each of the two error totals is within
      its own tolerance and the idle total below the burst threshold: the three
      tolerance forms of the code collapse to this. */
  lemma ValidExactly(env: Env, s: State, f: Frame)
    ensures FrameStep(env, s, f).1.valid <==>
      var t := Tallied(env, s, f);
      && s.synced
      && f.meta.magicOk
      && f.meta.framecounter != s.lastCnt
      && t.ok
      && t.crcErrors <= env.crcTol
      && t.idleErrors <= env.idleTol
      && t.idleErrors < IdleDesyncThreshold(|f.lines|)
  {
    hide FoldLines;
  }

  // ----- Runs -----

  /** The parser after a run of frames. */
  function After(env: Env, s: State, frames: seq<Frame>): State {
    if frames == [] then s
    else FrameStep(env, After(env, s, frames[..|frames| - 1]), frames[|frames| - 1]).0
  }

  /** The result for frame k of a run from a fresh parser. */
  function ResultAt(env: Env, frames: seq<Frame>, k: nat): FrameResult
    requires k < |frames|
  {
    FrameStep(env, After(env, INITIAL, frames[..k]), frames[k]).1
  }

  /** A fresh parser holds counter 0 as the last one: exactly a first frame with good
      magic and counter 0 is taken for a duplicate, and any number of them leaves the
      parser fresh. */
  lemma {:induction false} CounterZeroIsDuplicate(env: Env, frames: seq<Frame>, f: Frame)
    requires forall g :: g in frames ==> g.meta.magicOk && g.meta.framecounter == 0
    ensures After(env, INITIAL, frames) == INITIAL
    ensures FrameStep(env, After(env, INITIAL, frames), f).1.sync == Duplicate
      <==> f.meta.magicOk && f.meta.framecounter == 0
    decreases |frames|
  {
    hide FoldLines;
    if frames != [] {
      CounterZeroIsDuplicate(env, frames[..|frames| - 1], frames[|frames| - 1]);
    }
  }

  /** From frame first on, all frames have good magic, and each repeats the counter
      of its predecessor or continues it. */
  ghost predicate Chain(frames: seq<Frame>, first: nat) {
    && (forall i :: first <= i < |frames| ==> frames[i].meta.magicOk)
    && (forall i :: first < i < |frames| ==>
          frames[i].meta.framecounter == frames[i - 1].meta.framecounter
          || frames[i].meta.framecounter == Inc16(frames[i - 1].meta.framecounter))
  }

  /** How many of these frames continue the counter. */
  function Steps(frames: seq<Frame>, first: nat): nat {
    if |frames| <= first + 1 then 0
    else
      var n := |frames| - 1;
      Steps(frames[..n], first)
      + if frames[n].meta.framecounter == Inc16(frames[n - 1].meta.framecounter) then 1 else 0
  }

  /** How many frames from first on continue the counter, frame first itself
      measured against the counter that the parser held before it. */
  function Successors(env: Env, frames: seq<Frame>, first: nat): nat
    requires first < |frames|
  {
    Steps(frames, first)
    + if frames[first].meta.framecounter == Inc16(After(env, INITIAL, frames[..first]).lastCnt) then 1 else 0
  }

  /** What one frame does to the synchronisation part of the state. */
  lemma SyncStep(env: Env, s: State, f: Frame)
    ensures var (s', r) := FrameStep(env, s, f); var cnt := f.meta.framecounter;
      && (!f.meta.magicOk ==> !s'.synced && s'.inOrder == 0)
      && (f.meta.magicOk ==> s'.lastCnt == cnt)
      && (f.meta.magicOk && cnt == s.lastCnt ==> s' == s)
      && (f.meta.magicOk && cnt != s.lastCnt ==>
            s'.inOrder == if cnt == Inc16(s.lastCnt) then Inc32(s.inOrder) else 0)
      && (s'.synced && !s.synced ==> r.sync == Acquired)
      && (r.sync == Acquired ==> f.meta.magicOk && s'.synced && s'.inOrder > env.syncThreshold)
      && (r.valid ==> s.synced && f.meta.magicOk)
  {
    hide FoldLines;
  }

  lemma ChainExtends(frames: seq<Frame>, first: nat)
    requires first < |frames| - 1 && Chain(frames[..|frames| - 1], first)
    requires frames[|frames| - 1].meta.magicOk
    requires var cnt, last := frames[|frames| - 1].meta.framecounter, frames[|frames| - 2].meta.framecounter;
      cnt == last || cnt == Inc16(last)
    ensures Chain(frames, first)
  {
    var before := frames[..|frames| - 1];
    forall i | first <= i < |frames| ensures frames[i].meta.magicOk {
      if i < |before| {
        assert before[i] == frames[i];
      }
    }
    forall i | first < i < |frames|
      ensures frames[i].meta.framecounter == frames[i - 1].meta.framecounter
        || frames[i].meta.framecounter == Inc16(frames[i - 1].meta.framecounter)
    {
      if i < |before| {
        assert before[i] == frames[i] && before[i - 1] == frames[i - 1];
      }
    }
  }

  /** A positive in-order count is witnessed by that many chained frames, duplicates
      not counted. */
  lemma {:induction false} InOrderHistory(env: Env, frames: seq<Frame>) returns (first: nat)
    requires After(env, INITIAL, frames).inOrder > 0
    ensures first < |frames| && Chain(frames, first)
    ensures After(env, INITIAL, frames).inOrder <= Successors(env, frames, first)
    ensures After(env, INITIAL, frames).lastCnt == frames[|frames| - 1].meta.framecounter
    decreases |frames|
  {
    hide FrameStep;
    var n := |frames| - 1;
    var before := After(env, INITIAL, frames[..n]);
    SyncStep(env, before, frames[n]);
    if before.inOrder > 0 {
      first := InOrderHistory(env, frames[..n]);
      assert frames[..n][n - 1] == frames[n - 1];
      assert frames[..n][..first] == frames[..first];
      ChainExtends(frames, first);
    } else {
      first := n;
    }
  }

  /** A synchronised parser acquired synchronisation in an earlier frame, with no bad
      magic since. */
  lemma {:induction false} SyncHistory(env: Env, frames: seq<Frame>) returns (k: nat)
    requires After(env, INITIAL, frames).synced
    ensures k < |frames| && ResultAt(env, frames, k).sync == Acquired
    ensures forall i :: k < i < |frames| ==> frames[i].meta.magicOk
    decreases |frames|
  {
    hide FrameStep;
    var n := |frames| - 1;
    var before := After(env, INITIAL, frames[..n]);
    SyncStep(env, before, frames[n]);
    if before.synced {
      k := SyncHistory(env, frames[..n]);
      assert frames[..n][..k] == frames[..k];
      assert forall i :: k < i < n ==> frames[..n][i] == frames[i];
    } else {
      k := n;
    }
  }

  /** Frame k acquired synchronisation on the strength of a chain of frames with more
      than the threshold of consecutive counters. */
  ghost predicate AcquiredAt(env: Env, frames: seq<Frame>, k: nat, first: nat) {
    && first <= k < |frames|
    && ResultAt(env, frames, k).sync == Acquired
    && Chain(frames[..k + 1], first)
    && Successors(env, frames[..k + 1], first) > env.syncThreshold
  }

  ghost predicate GoodMagic(frames: seq<Frame>, lo: nat, hi: nat)
    requires hi <= |frames|
  {
    forall i :: lo <= i < hi ==> frames[i].meta.magicOk
  }

  /** Over every run from a fresh parser a frame is reported valid only if an earlier
      frame acquired synchronisation on such a chain and no bad magic came since. */
  lemma ValidNeedsAcquisition(env: Env, frames: seq<Frame>, n: nat)
    requires n < |frames| && ResultAt(env, frames, n).valid
    ensures exists k: nat, first: nat ::
      k < n && AcquiredAt(env, frames, k, first) && GoodMagic(frames, k + 1, n + 1)
  {
    hide FrameStep;
    SyncStep(env, After(env, INITIAL, frames[..n]), frames[n]);
    var k := SyncHistory(env, frames[..n]);
    assert frames[..n][..k] == frames[..k];
    assert frames[..k + 1][..k] == frames[..k];
    SyncStep(env, After(env, INITIAL, frames[..k]), frames[k]);
    var first := InOrderHistory(env, frames[..k + 1]);
    assert AcquiredAt(env, frames, k, first);
    assert forall i :: k < i < n ==> frames[..n][i] == frames[i];
  }

  // ----- CRC self-synchronisation -----

  /** After two lines with CRC the registers hold the CRCs of the last two lines. */
  lemma {:induction false} CrcRegisters(env: Env, ls: LineState, lines: seq<Line>, width: nat, meta: Meta,
      synced: bool, suppress: bool)
    requires forall i :: 0 <= i < |lines| ==> |lines[i]| == 2 * width
    requires meta.HasCrc() && FoldLines(env, ls, lines, width, meta, synced, suppress).ok
    ensures var t := FoldLines(env, ls, lines, width, meta, synced, suppress); var n := |lines|;
      && (n >= 1 ==> t.ls.crc0 == env.crc(lines[n - 1]))
      && (n >= 2 ==> t.ls.crc1 == env.crc(lines[n - 2]))
    decreases |lines|
  {
    hide ParseLine, CheckIdle;
    if lines != [] {
      CrcRegisters(env, ls, lines[..|lines| - 1], width, meta, synced, suppress);
    }
  }

  /** While errors are suppressed the CRC registers influence nothing else. */
  lemma {:induction false} CrcInert(env: Env, a: LineState, b: LineState, lines: seq<Line>, width: nat,
      meta: Meta, synced: bool)
    requires forall i :: 0 <= i < |lines| ==> |lines[i]| == 2 * width
    requires a.idle == b.idle
    ensures var t := FoldLines(env, a, lines, width, meta, synced, true);
      var u := FoldLines(env, b, lines, width, meta, synced, true);
      t.ls.idle == u.ls.idle && t.(ls := u.ls) == u
    decreases |lines|
  {
    hide ParseLine, CheckIdle;
    if lines != [] {
      CrcInert(env, a, b, lines[..|lines| - 1], width, meta, synced);
    }
  }

  /** s with other CRC registers. */
  function WithCrc(s: State, crc0: uint16, crc1: uint16): State {
    s.(ls := LineState(crc0, crc1, s.ls.idle))
  }

  /** A frame whose line errors are suppressed, with CRC on, at least two lines and all
      lines parsed, wipes out whatever the CRC registers held: from then on the
      parser is in the same state, and every later run goes the same way. */
  lemma CrcSelfSync(env: Env, s: State, f: Frame, crc0: uint16, crc1: uint16, later: seq<Frame>)
    requires f.meta.magicOk && f.meta.framecounter != s.lastCnt
    requires Counted(s, f.meta.framecounter).reprime > 0
    requires f.meta.HasCrc() && |f.lines| >= 2 && Tallied(env, s, f).ok
    ensures FrameStep(env, WithCrc(s, crc0, crc1), f) == FrameStep(env, s, f)
    ensures After(env, FrameStep(env, WithCrc(s, crc0, crc1), f).0, later)
         == After(env, FrameStep(env, s, f).0, later)
  {
    hide FoldLines, Conclude;
    var s', cnt := WithCrc(s, crc0, crc1), f.meta.framecounter;
    var a, b := Counted(s, cnt).ls, Counted(s', cnt).ls;
    CrcInert(env, a, b, f.lines, f.width, f.meta, s.synced);
    CrcRegisters(env, a, f.lines, f.width, f.meta, s.synced, true);
    CrcRegisters(env, b, f.lines, f.width, f.meta, s.synced, true);
  }

  /** The frame after a counter gap is such a frame, and its own clearing of the
      registers makes no difference to what follows: starting its lines from any CRC
      registers gives the same tally. */
  lemma GapResynchronises(env: Env, s: State, f: Frame, start: LineState)
    requires s.synced && f.meta.magicOk
    requires f.meta.framecounter != s.lastCnt && f.meta.framecounter != Inc16(s.lastCnt)
    requires f.meta.HasCrc() && |f.lines| >= 2 && Tallied(env, s, f).ok && start.idle == 0
    ensures FoldLines(env, start, f.lines, f.width, f.meta, true, true) == Tallied(env, s, f)
  {
    hide FoldLines;
    CrcInert(env, start, CLEARED, f.lines, f.width, f.meta, true);
    CrcRegisters(env, start, f.lines, f.width, f.meta, true, true);
    CrcRegisters(env, CLEARED, f.lines, f.width, f.meta, true, true);
  }
}
