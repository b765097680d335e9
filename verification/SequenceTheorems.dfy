/** What the sequence-marker validator recognises, where it stops, and which
    losses of samples it can and cannot see. */
module SequenceTheorems {
  import opened CTypes
  import opened SequenceValidator

  /** A marker stream in closed form: a first run of firstLen markers m0, then runs
      of runLen samples, each one marker further modulo 63. */
  datatype Wave = Wave(m0: nat, firstLen: nat, runLen: nat) {
    predicate Valid() {
      m0 < 63 && 1 <= firstLen <= 65536 && (runLen == 65535 || runLen == 65536)
    }

    function At(i: nat): (m: nat)
      requires Valid()
      ensures m < 63
    {
      if i < firstLen then m0 else (m0 + 1 + Runs(runLen, i - firstLen)) % 63
    }
  }

  /** Whole runs among k samples. The length is one of two constants, which keeps
      the division one by a constant. */
  function Runs(runLen: nat, k: nat): nat {
    if runLen == 65535 then k / 65535 else k / 65536
  }

  /** Samples left over after the whole runs. */
  function Offset(runLen: nat, k: nat): nat {
    if runLen == 65535 then k % 65535 else k % 65536
  }

  ghost predicate Follows(words: seq<uint16>, w: Wave) {
    w.Valid() && forall i :: 0 <= i < |words| ==> MarkerOf(words[i]) == w.At(i)
  }

  ghost predicate IsMarkerStream(words: seq<uint16>) {
    exists w :: Follows(words, w)
  }

  function Wrap64(n: nat): uint64 {
    n % 0x1_0000_0000_0000_0000
  }

  lemma Wrap64Next(n: nat)
    ensures Wrap64(n + 1) == Inc64(Wrap64(n))
  {
  }

  /** The state of the validator after n samples of a wave. */
  function StateAt(w: Wave, n: nat): State
    requires w.Valid()
  {
    if n == 0 then INITIAL
    else if n <= w.firstLen then State(Synchronizing, true, w.m0, n, 0, Wrap64(n), 0, 0, 0)
    else
      var k := n - 1 - w.firstLen;
      OffsetBound(w.runLen, k);
      State(Running, true, w.At(n - 1), Offset(w.runLen, k) + 1, if k < w.runLen then 0 else w.runLen,
            Wrap64(n), 0, 0, 0)
  }

  lemma OffsetBound(runLen: nat, k: nat)
    requires runLen == 65535 || runLen == 65536
    ensures Offset(runLen, k) < runLen
  {
  }

  lemma Div65535(k: nat)
    ensures (k + 1) % 65535 == if k % 65535 == 65534 then 0 else k % 65535 + 1
    ensures (k + 1) / 65535 == if k % 65535 == 65534 then k / 65535 + 1 else k / 65535
  {
  }

  lemma Div65536(k: nat)
    ensures (k + 1) % 65536 == if k % 65536 == 65535 then 0 else k % 65536 + 1
    ensures (k + 1) / 65536 == if k % 65536 == 65535 then k / 65536 + 1 else k / 65536
  {
  }

  lemma FirstRun(runLen: nat, k: nat)
    requires runLen == 65535 || runLen == 65536
    ensures Offset(runLen, k) < runLen
    ensures k < runLen ==> Offset(runLen, k) == k && Runs(runLen, k) == 0
    ensures k >= runLen ==> Runs(runLen, k) > 0
  {
  }

  lemma NextInRun(runLen: nat, k: nat)
    requires runLen == 65535 || runLen == 65536
    ensures Offset(runLen, k) < runLen
    ensures Offset(runLen, k) + 1 < runLen ==>
      Offset(runLen, k + 1) == Offset(runLen, k) + 1 && Runs(runLen, k + 1) == Runs(runLen, k)
    ensures Offset(runLen, k) + 1 == runLen ==>
      Offset(runLen, k + 1) == 0 && Runs(runLen, k + 1) == Runs(runLen, k) + 1
    ensures k < runLen ==> Offset(runLen, k) == k && Runs(runLen, k) == 0
    ensures k >= runLen ==> Runs(runLen, k) > 0
  {
    FirstRun(runLen, k);
    if runLen == 65535 {
      Div65535(k);
    } else {
      Div65536(k);
    }
  }

  lemma StateAtStep(w: Wave, n: nat, word: uint16)
    requires w.Valid() && MarkerOf(word) == w.At(n)
    ensures Step(StateAt(w, n), word) == StateAt(w, n + 1)
  {
    hide Runs, Offset, Wrap64, MarkerOf;
    Wrap64Next(n);
    if n == 0 {
      assert Wrap64(0) == 0 by { Wrap64Zero(); }
    } else if n < w.firstLen {
    } else if n == w.firstLen {
      NextInRun(w.runLen, 0);
    } else {
      NextInRun(w.runLen, n - 1 - w.firstLen);
    }
  }

  lemma Wrap64Zero()
    ensures Wrap64(0) == 0
  {
  }

  /** On a wave the validator is in exactly the state that the position dictates. */
  lemma {:induction false} FoldWave(w: Wave, words: seq<uint16>)
    requires Follows(words, w)
    ensures Fold(INITIAL, words) == StateAt(w, |words|)
    decreases |words|
  {
    if words != [] {
      var n := |words| - 1;
      FoldWave(w, words[..n]);
      StateAtStep(w, n, words[n]);
    }
  }

  /** The waves a state is compatible with: the choice of a wave for the samples
      seen so far is revised while the first run or the run length is still open. */
  lemma ExtendWave(w: Wave, words: seq<uint16>, word: uint16) returns (w': Wave)
    requires Follows(words, w)
    requires Step(StateAt(w, |words|), word).phase != Failed
    ensures Follows(words + [word], w')
  {
    if words == [] {
      w' := Wave(MarkerOf(word), 65536, 65536);
    } else if |words| <= w.firstLen {
      w' := ExtendFirstRun(w, words, word);
    } else if |words| <= w.firstLen + w.runLen {
      w' := ExtendSecondRun(w, words, word);
    } else {
      LearnedForces(w, |words|, word);
      w' := w;
    }
  }

  lemma ExtendFirstRun(w: Wave, words: seq<uint16>, word: uint16) returns (w': Wave)
    requires Follows(words, w) && 1 <= |words| <= w.firstLen
    requires Step(StateAt(w, |words|), word).phase != Failed
    ensures Follows(words + [word], w')
  {
    hide Runs, Offset, Wrap64, MarkerOf;
    var n := |words|;
    w' := if MarkerOf(word) == w.m0 then Wave(w.m0, 65536, 65536) else Wave(w.m0, n, 65536);
    NextInRun(w'.runLen, 0);
  }

  lemma ExtendSecondRun(w: Wave, words: seq<uint16>, word: uint16) returns (w': Wave)
    requires Follows(words, w) && w.firstLen < |words| <= w.firstLen + w.runLen
    requires Step(StateAt(w, |words|), word).phase != Failed
    ensures Follows(words + [word], w')
  {
    hide Runs, Offset, Wrap64, MarkerOf;
    var n, s := |words|, StateAt(w, |words|);
    var k := n - 1 - w.firstLen;
    NextInRun(w.runLen, k);
    assert s.samplesInMarker == k + 1 && s.marker == (w.m0 + 1) % 63;
    w' := Wave(w.m0, w.firstLen, if MarkerOf(word) == s.marker then 65536 else s.samplesInMarker);
    forall i | w.firstLen <= i < n ensures w.At(i) == w'.At(i) {
      NextInRun(w'.runLen, i - w.firstLen);
      NextInRun(w.runLen, i - w.firstLen);
    }
    NextInRun(w'.runLen, n - w.firstLen);
    NextInRun(w'.runLen, k);
  }

  lemma {:induction false} AcceptedIsWave(words: seq<uint16>) returns (w: Wave)
    requires Fold(INITIAL, words).phase != Failed
    ensures Follows(words, w)
    decreases |words|
  {
    hide Step, Runs, Offset, MarkerOf, StateAt;
    if words == [] {
      w := Wave(0, 1, 65535);
    } else {
      var n := |words| - 1;
      if Fold(INITIAL, words[..n]).phase == Failed {
        FoldFailedFrom(INITIAL, words, n);
      }
      var before := AcceptedIsWave(words[..n]);
      FoldWave(before, words[..n]);
      w := ExtendWave(before, words[..n], words[n]);
      assert words[..n] + [words[n]] == words;
    }
  }

  /** The recogniser accepts exactly the marker streams. */
  lemma AcceptsExactly(words: seq<uint16>)
    ensures VerdictOf(Fold(INITIAL, words)) == OK <==> IsMarkerStream(words)
  {
    if VerdictOf(Fold(INITIAL, words)) == OK {
      var w := AcceptedIsWave(words);
    }
    if IsMarkerStream(words) {
      var w :| Follows(words, w);
      FoldWave(w, words);
    }
  }

  /** The reported error index is the length of the longest accepted prefix. */
  lemma {:induction false} ErrorIndexExact(words: seq<uint16>, k: nat)
    requires |words| < 0x1_0000_0000_0000_0000 && k <= |words|
    requires VerdictOf(Fold(INITIAL, words)) == Mismatch
    ensures Fold(INITIAL, words).errorSampleIndex < |words|
    ensures IsMarkerStream(words[..k]) <==> k <= Fold(INITIAL, words).errorSampleIndex
    decreases |words|
  {
    hide Step, IsMarkerStream, StateAt;
    var n := |words| - 1;
    var before := words[..n];
    AcceptsExactly(words);
    assert words[..|words|] == words;
    if k < |words| {
      assert before[..k] == words[..k];
    }
    if Fold(INITIAL, before).phase == Failed {
      FoldFailedFrom(INITIAL, words, n);
      ErrorIndexExact(before, if k < |words| then k else n);
    } else {
      FailsAt(before, words[n]);
      if k < |words| {
        PrefixAccepted(before, k);
      }
    }
  }

  /** The marker is the upper six bits. */
  lemma MarkerOfWord(m: nat, v: nat)
    requires m < 64 && v < 1024
    ensures MarkerOf(1024 * m + v) == m
  {
    assert (1024 * m + v) / 1024 == m;
  }

  /** Where a step fails, the marker that it expected would not have failed. */
  lemma ExpectedWouldPass(w: Wave, n: nat, word: uint16, x: uint16)
    requires w.Valid() && Step(StateAt(w, n), word).phase == Failed
    ensures var s := Step(StateAt(w, n), word);
      && s.actualMarker == MarkerOf(word)
      && (s.actualMarker == 63 ==> s.expectedMarker == 0)
      && s.expectedMarker < 63
      && (s.actualMarker < 63 && MarkerOf(x) == s.expectedMarker ==> Step(StateAt(w, n), x).phase != Failed)
  {
    hide Runs, Wrap64, MarkerOf;
  }

  /** The right stream in front of the offence. */
  lemma ErrorHistory(words: seq<uint16>) returns (e: nat, w: Wave)
    requires |words| < 0x1_0000_0000_0000_0000
    requires VerdictOf(Fold(INITIAL, words)) == Mismatch
    ensures e == Fold(INITIAL, words).errorSampleIndex < |words| && Follows(words[..e], w)
    ensures Step(StateAt(w, e), words[e]) == Fold(INITIAL, words)
  {
    hide Step, StateAt, IsMarkerStream, Follows, Fold;
    e := Fold(INITIAL, words).errorSampleIndex;
    ErrorIndexExact(words, 0);
    ErrorIndexExact(words, e);
    ErrorIndexExact(words, e + 1);
    AcceptsExactly(words[..e]);
    AcceptsExactly(words[..e + 1]);
    FoldFailedFrom(INITIAL, words, e + 1);
    FoldNext(INITIAL, words, e);
    w := AcceptedIsWave(words[..e]);
    FoldWave(w, words[..e]);
  }

  lemma CorrectedIsStream(before: seq<uint16>, w: Wave, x: uint16)
    requires Follows(before, w) && Step(StateAt(w, |before|), x).phase != Failed
    ensures IsMarkerStream(before + [x])
  {
    hide Step, StateAt, IsMarkerStream, Fold;
    var corrected := before + [x];
    FoldWave(w, before);
    FoldNext(INITIAL, corrected, |before|);
    assert corrected[..|before|] == before && corrected[..|before| + 1] == corrected;
    AcceptsExactly(corrected);
  }

  /** What the two error markers mean: the offending sample carries the actual one,
      and a sample with the expected one in its place would have been right. The
      marker 63 is never right, and is reported against 0. */
  lemma ErrorMarkersExact(words: seq<uint16>)
    requires |words| < 0x1_0000_0000_0000_0000
    requires VerdictOf(Fold(INITIAL, words)) == Mismatch
    ensures var s := Fold(INITIAL, words); var e := s.errorSampleIndex;
      && e < |words|
      && s.expectedMarker < 63
      && s.actualMarker == MarkerOf(words[e])
      && (s.actualMarker == 63 ==> s.expectedMarker == 0)
      && forall x: uint16 ::
           s.actualMarker < 63 && MarkerOf(x) == s.expectedMarker ==> IsMarkerStream(words[..e] + [x])
  {
    hide Step, StateAt, IsMarkerStream, Fold, Follows;
    var s := Fold(INITIAL, words);
    var e, w := ErrorHistory(words);
    FollowsIsValid(words[..e], w);
    ExpectedWouldPass(w, e, words[e], 0);
    forall x: uint16 | s.actualMarker < 63 && MarkerOf(x) == s.expectedMarker
      ensures IsMarkerStream(words[..e] + [x])
    {
      ExpectedWouldPass(w, e, words[e], x);
      CorrectedIsStream(words[..e], w, x);
    }
  }

  lemma FollowsIsValid(words: seq<uint16>, w: Wave)
    requires Follows(words, w)
    ensures w.Valid()
  {
  }

  lemma FailsAt(before: seq<uint16>, word: uint16)
    requires |before| < 0x1_0000_0000_0000_0000
    requires Fold(INITIAL, before).phase != Failed && Step(Fold(INITIAL, before), word).phase == Failed
    ensures Step(Fold(INITIAL, before), word).errorSampleIndex == |before|
  {
    hide Fold, Runs, Offset;
    FailureRecordsPosition(Fold(INITIAL, before), word);
    var w := AcceptedIsWave(before);
    FoldWave(w, before);
    SeenAt(w, |before|);
  }

  lemma FailureRecordsPosition(s: State, word: uint16)
    requires s.phase != Failed && Step(s, word).phase == Failed
    ensures Step(s, word).errorSampleIndex == s.samplesSeen
  {
  }

  lemma SeenAt(w: Wave, n: nat)
    requires w.Valid() && n < 0x1_0000_0000_0000_0000
    ensures StateAt(w, n).samplesSeen == n && StateAt(w, n).phase != Failed
  {
  }

  lemma PrefixAccepted(words: seq<uint16>, k: nat)
    requires Fold(INITIAL, words).phase != Failed && k <= |words|
    ensures IsMarkerStream(words[..k])
  {
    var w := AcceptedIsWave(words);
    assert Follows(words[..k], w);
  }

  // ----- Lost samples -----

  /** The run length has been learned. */
  predicate Learned(w: Wave, n: nat) {
    w.Valid() && n > w.firstLen + w.runLen
  }

  /** After learning, only the one marker that continues the wave is accepted. */
  lemma LearnedForces(w: Wave, n: nat, word: uint16)
    requires Learned(w, n)
    ensures Step(StateAt(w, n), word).phase != Failed <==> MarkerOf(word) == w.At(n)
  {
    hide Runs, Offset, Wrap64, MarkerOf;
    NextInRun(w.runLen, n - 1 - w.firstLen);
  }

  lemma {:induction false} LearnedFold(w: Wave, n: nat, tail: seq<uint16>)
    requires Learned(w, n)
    ensures Fold(StateAt(w, n), tail).phase != Failed
      <==> forall j :: 0 <= j < |tail| ==> MarkerOf(tail[j]) == w.At(n + j)
    ensures Fold(StateAt(w, n), tail).phase != Failed ==> Fold(StateAt(w, n), tail) == StateAt(w, n + |tail|)
    decreases |tail|
  {
    hide Step, Runs, Offset, Wrap64, MarkerOf;
    if tail != [] {
      var m := |tail| - 1;
      LearnedFold(w, n, tail[..m]);
      if Fold(StateAt(w, n), tail[..m]).phase != Failed {
        LearnedForces(w, n + m, tail[m]);
        if MarkerOf(tail[m]) == w.At(n + m) {
          StateAtStep(w, n + m, tail[m]);
        }
      } else {
        FoldFailedFrom(StateAt(w, n), tail, m);
      }
    }
  }

  /** The wave repeats with period 63 runs... */
  lemma RunsPeriod(runLen: nat, a: nat, d: nat)
    requires (runLen == 65535 && d % 4128705 == 0) || (runLen == 65536 && d % 4128768 == 0)
    ensures Runs(runLen, a + d) % 63 == Runs(runLen, a) % 63
  {
    Decompose(runLen, a);
    var p, r := Runs(runLen, a), Offset(runLen, a);
    var k := if runLen == 65535 then d / 4128705 else d / 4128768;
    if runLen == 65535 {
      RunsOf(65535, p + 63 * k, r);
      assert a + d == 65535 * (p + 63 * k) + r;
    } else {
      RunsOf(65536, p + 63 * k, r);
      assert a + d == 65536 * (p + 63 * k) + r;
    }
    SumMod63(p, 63 * k);
  }

  lemma Decompose(runLen: nat, a: nat)
    requires runLen == 65535 || runLen == 65536
    ensures a == (if runLen == 65535 then 65535 * Runs(runLen, a) else 65536 * Runs(runLen, a)) + Offset(runLen, a)
    ensures Offset(runLen, a) < runLen
  {
  }

  lemma RunsOf(runLen: nat, q: nat, x: nat)
    requires (runLen == 65535 || runLen == 65536) && x < runLen
    ensures Runs(runLen, (if runLen == 65535 then 65535 * q else 65536 * q) + x) == q
  {
  }

  lemma WavePeriod(w: Wave, i: nat, d: nat)
    requires w.Valid() && i >= w.firstLen && d % (63 * w.runLen) == 0
    ensures w.At(i + d) == w.At(i)
  {
    RunsPeriod(w.runLen, i - w.firstLen, d);
    SameMod63(w.m0 + 1, Runs(w.runLen, i - w.firstLen), Runs(w.runLen, i - w.firstLen + d));
  }

  lemma SameMod63(m: nat, p: nat, q: nat)
    ensures (m + p) % 63 == (m + q) % 63 <==> p % 63 == q % 63
  {
  }

  /** ...and with no smaller one: within one run the shifted wave differs, at the
      latest where one of the two starts its next run. */
  lemma RunsShift(runLen: nat, a: nat, d: nat) returns (j: nat)
    requires (runLen == 65535 && d % 4128705 != 0) || (runLen == 65536 && d % 4128768 != 0)
    ensures j < runLen && Runs(runLen, a + d + j) % 63 != Runs(runLen, a + j) % 63
  {
    Decompose(runLen, a);
    Decompose(runLen, d);
    AlignedIsPeriod(runLen, d);
    j := RunsShiftBy(runLen, Runs(runLen, a), Offset(runLen, a), Runs(runLen, d), Offset(runLen, d));
  }

  lemma AlignedIsPeriod(runLen: nat, d: nat)
    requires runLen == 65535 || runLen == 65536
    ensures Runs(runLen, d) % 63 == 0 && Offset(runLen, d) == 0 ==>
      if runLen == 65535 then d % 4128705 == 0 else d % 4128768 == 0
  {
    Decompose(runLen, d);
    if Runs(runLen, d) % 63 == 0 && Offset(runLen, d) == 0 {
      var k := Runs(runLen, d) / 63;
      assert Runs(runLen, d) == 63 * k;
      assert d == if runLen == 65535 then 4128705 * k else 4128768 * k;
    }
  }

  lemma RunsShiftBy(runLen: nat, p: nat, r: nat, e: nat, f: nat) returns (j: nat)
    requires (runLen == 65535 || runLen == 65536) && r < runLen && f < runLen && (e % 63 != 0 || f != 0)
    ensures j < runLen
    ensures var a := (if runLen == 65535 then 65535 * p else 65536 * p) + r;
      var d := (if runLen == 65535 then 65535 * e else 65536 * e) + f;
      Runs(runLen, a + d + j) % 63 != Runs(runLen, a + j) % 63
  {
    hide Runs;
    if e % 63 != 0 {
      j := if r == 0 then 0 else runLen - r;
      var q := if r == 0 then p else p + 1;
      RunsOf(runLen, q, 0);
      RunsOf(runLen, q + e, f);
      SumMod63(q, e);
    } else {
      j := runLen - 1 - r;
      RunsOf(runLen, p, runLen - 1);
      RunsOf(runLen, p + e + 1, f - 1);
      SumMod63(p, e + 1);
    }
  }

  lemma SumMod63(p: nat, e: nat)
    ensures (p + e) % 63 == p % 63 <==> e % 63 == 0
  {
  }

  lemma ShiftShows(w: Wave, i: nat, d: nat) returns (j: nat)
    requires w.Valid() && i >= w.firstLen && d % (63 * w.runLen) != 0
    ensures j < w.runLen && w.At(i + d + j) != w.At(i + j)
  {
    var a := i - w.firstLen;
    j := RunsShift(w.runLen, a, d);
    SameMod63(w.m0 + 1, Runs(w.runLen, a + j), Runs(w.runLen, a + d + j));
  }

  /** after is what is received when d samples are missing behind position n. */
  ghost predicate ContinuesAfterLoss(w: Wave, n: nat, d: nat, after: seq<uint16>)
    requires w.Valid()
  {
    forall j :: 0 <= j < |after| ==> MarkerOf(after[j]) == w.At(n + d + j)
  }

  /** A loss of d samples after the run length has been learned is reported within
      one run of further samples if and only if d is not a multiple of 63 runs;
      otherwise it is never reported. */
  lemma LossDetection(w: Wave, before: seq<uint16>, d: nat, after: seq<uint16>)
    requires Follows(before, w) && Learned(w, |before|) && ContinuesAfterLoss(w, |before|, d, after)
    requires |before| + |after| < 0x1_0000_0000_0000_0000
    ensures d % (63 * w.runLen) == 0 ==> VerdictOf(Fold(INITIAL, before + after)) == OK
    ensures d % (63 * w.runLen) != 0 && |after| >= w.runLen ==>
      VerdictOf(Fold(INITIAL, before + after)) == Mismatch
      && |before| <= Fold(INITIAL, before + after).errorSampleIndex < |before| + w.runLen
  {
    hide Step, StateAt, Runs, Offset, IsMarkerStream, Fold;
    var n := |before|;
    FoldWave(w, before);
    FoldConcat(INITIAL, before, after);
    if d % (63 * w.runLen) == 0 {
      LearnedFold(w, n, after);
      forall j | 0 <= j < |after| ensures MarkerOf(after[j]) == w.At(n + j) {
        WavePeriod(w, n + j, d);
      }
    } else if |after| >= w.runLen {
      var j := ShiftShows(w, n, d);
      LossShows(w, before, after, j);
    }
  }

  /** A sample that does not continue a learned wave is reported, no later than at
      its own position and not before the loss. */
  lemma LossShows(w: Wave, before: seq<uint16>, after: seq<uint16>, j: nat)
    requires Follows(before, w) && Learned(w, |before|) && j < |after|
    requires MarkerOf(after[j]) != w.At(|before| + j)
    requires |before| + |after| < 0x1_0000_0000_0000_0000
    ensures var s := Fold(INITIAL, before + after);
      VerdictOf(s) == Mismatch && |before| <= s.errorSampleIndex <= |before| + j
  {
    hide Step, StateAt, Runs, Offset, IsMarkerStream, Fold;
    var n, words := |before|, before + after;
    SeenAt(w, n);
    var soFar := after[..j + 1];
    assert soFar[j] == after[j];
    assert words[..n + j + 1] == before + soFar && words[..n] == before;
    FoldWave(w, before);
    FoldConcat(INITIAL, before, soFar);
    LearnedFold(w, n, soFar);
    FoldFailedFrom(INITIAL, words, n + j + 1);
    AcceptsExactly(before + soFar);
    AcceptsExactly(before);
    ErrorIndexExact(words, n + j + 1);
    ErrorIndexExact(words, n);
  }

  /** 2 to the k. */
  function Pow2(k: nat): (p: nat)
    ensures p >= 1
  {
    if k == 0 then 1 else 2 * Pow2(k - 1)
  }

  /** Why the newer firmware uses an odd run length: packets hold a power of two of
      samples, so only a multiple of 63 * 65535 lost packets goes unnoticed... */
  lemma {:induction false} LostPacketsNew(p: nat, k: nat)
    ensures (Pow2(k) * p) % (63 * 65535) == 0 <==> p % (63 * 65535) == 0
  {
    if k > 0 {
      LostPacketsNew(p, k - 1);
      Doubled(Pow2(k - 1) * p);
      assert Pow2(k) * p == 2 * (Pow2(k - 1) * p);
    }
  }

  lemma Doubled(x: nat)
    ensures (2 * x) % 4128705 == 0 <==> x % 4128705 == 0
  {
    var q, r := x / 4128705, x % 4128705;
    assert 2 * x == 4128705 * (2 * q) + 2 * r;
  }

  /** ...while with the legacy length 63 * 2^(16 - k) packets of 2^k samples do. */
  lemma {:induction false} LostPacketsLegacy(k: nat)
    requires k <= 16
    ensures Pow2(k) * (63 * Pow2(16 - k)) == 63 * 65536
  {
    Pow2Sum(k, 16 - k);
    assert Pow2(16) == 65536 by { Pow2Sum(8, 8); assert Pow2(8) == 256 by { Pow2Sum(4, 4); assert Pow2(4) == 16; } }
    MulSwap(Pow2(k), Pow2(16 - k));
  }

  lemma MulSwap(a: nat, b: nat)
    ensures a * (63 * b) == 63 * (a * b)
  {
  }

  lemma {:induction false} Pow2Sum(a: nat, b: nat)
    ensures Pow2(a) * Pow2(b) == Pow2(a + b)
  {
    if a > 0 {
      Pow2Sum(a - 1, b);
    }
  }
}
