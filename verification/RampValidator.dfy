/** The test-ramp validator of ddd_protocol.c: an incremental recogniser of a
    counter whose modulus, 1021 or 1024, it learns from the stream. */
module RampValidator {
  import opened CTypes
  import opened SequenceValidator

  const NEW_WRAP: uint16 := 1021
  const LEGACY_WRAP: uint16 := 1024

  datatype RampState = RampState(
    armed: bool,
    failed: bool,
    wrapDetected: bool,
    expectedNext: uint16,
    wrapValue: uint16,
    samplesSeen: uint64,
    errorSampleIndex: uint64,
    expectedValue: uint16,
    actualValue: uint16)

  const RAMP_INITIAL: RampState := RampState(false, false, false, 0, 0, 0, 0, 0, 0)

  /** The low ten bits of a sample word. */
  function ValueOf(word: uint16): uint16 {
    word % 1024
  }

  function RampVerdict(s: RampState): Verdict {
    if s.failed then Mismatch else OK
  }

  function RampFail(s: RampState, expected: uint16, actual: uint16): RampState {
    s.(failed := true, errorSampleIndex := s.samplesSeen, expectedValue := expected, actualValue := actual)
  }

  function RampStep(s: RampState, word: uint16): RampState {
    var actual := ValueOf(word);
    var counted := s.(samplesSeen := Inc64(s.samplesSeen));
    if s.failed then s
    else if !s.armed then counted.(armed := true, expectedNext := actual + 1)
    else if !s.wrapDetected && actual == 0 && (s.expectedNext == NEW_WRAP || s.expectedNext == LEGACY_WRAP) then
      counted.(wrapDetected := true, wrapValue := s.expectedNext, expectedNext := 1)
    else if actual != s.expectedNext then RampFail(s, s.expectedNext, actual)
    else
      var next := Inc16(s.expectedNext);
      counted.(expectedNext := if s.wrapDetected && next == s.wrapValue then 0 else next)
  }

  function RampFold(s: RampState, words: seq<uint16>): RampState {
    if words == [] then s else RampStep(RampFold(s, words[..|words| - 1]), words[|words| - 1])
  }

  class Ramp {
    var armed: bool
    var failed: bool
    var wrapDetected: bool
    var expectedNext: uint16
    var wrapValue: uint16
    var samplesSeen: uint64
    var errorSampleIndex: uint64
    var expectedValue: uint16
    var actualValue: uint16

    function Snapshot(): RampState
      reads this
    {
      RampState(armed, failed, wrapDetected, expectedNext, wrapValue, samplesSeen, errorSampleIndex,
                expectedValue, actualValue)
    }

    constructor ()
      ensures Snapshot() == RAMP_INITIAL
    {
      armed, failed, wrapDetected, expectedNext, wrapValue := false, false, false, 0, 0;
      samplesSeen, errorSampleIndex, expectedValue, actualValue := 0, 0, 0, 0;
    }

    method TestRampFail(expected: uint16, actual: uint16) returns (v: Verdict)
      modifies this
      ensures Snapshot() == RampFail(old(Snapshot()), expected, actual) && v == Mismatch
    {
      failed := true;
      errorSampleIndex := samplesSeen;
      expectedValue := expected;
      actualValue := actual;
      return Mismatch;
    }

    /** ddd_test_ramp_validator_feed: consumes the words up to the first offence. */
    method Feed(words: seq<uint16>) returns (v: Verdict)
      modifies this
      ensures Snapshot() == RampFold(old(Snapshot()), words)
      ensures v == RampVerdict(Snapshot())
    {
      hide ValueOf, RampFold;
      if failed {
        RampFoldFailed(Snapshot(), words);
        return Mismatch;
      }
      RampFoldEmpty(Snapshot());
      assert words[..0] == [];
      var i := 0;
      while i < |words|
        invariant 0 <= i <= |words|
        invariant Snapshot() == RampFold(old(Snapshot()), words[..i])
        invariant !failed
      {
        var actual := ValueOf(words[i]);
        RampFoldNext(old(Snapshot()), words, i);
        i := i + 1;
        if !armed {
          armed := true;
          expectedNext := actual + 1;
        } else if !wrapDetected && actual == 0 && (expectedNext == NEW_WRAP || expectedNext == LEGACY_WRAP) {
          wrapDetected := true;
          wrapValue := expectedNext;
          expectedNext := 1;
        } else {
          if actual != expectedNext {
            v := TestRampFail(expectedNext, actual);
            RampFoldFailedFrom(old(Snapshot()), words, i);
            return;
          }
          expectedNext := Inc16(expectedNext);
          if wrapDetected && expectedNext == wrapValue {
            expectedNext := 0;
          }
        }
        samplesSeen := Inc64(samplesSeen);
      }
      assert words[..i] == words;
      return OK;
    }
  }

  lemma {:induction false} RampFoldFailed(s: RampState, words: seq<uint16>)
    requires s.failed
    ensures RampFold(s, words) == s
    decreases |words|
  {
    if words != [] {
      RampFoldFailed(s, words[..|words| - 1]);
    }
  }

  /** Chunking does not matter. */
  lemma {:induction false} RampFoldConcat(s: RampState, a: seq<uint16>, b: seq<uint16>)
    ensures RampFold(RampFold(s, a), b) == RampFold(s, a + b)
    decreases |b|
  {
    hide RampStep;
    if b == [] {
      assert a + b == a;
    } else {
      var n := |b| - 1;
      RampFoldConcat(s, a, b[..n]);
      assert (a + b)[..|a + b| - 1] == a + b[..n];
    }
  }

  lemma RampFoldEmpty(s: RampState)
    ensures RampFold(s, []) == s
  {
  }

  lemma RampFoldNext(s: RampState, words: seq<uint16>, i: nat)
    requires i < |words|
    ensures RampFold(s, words[..i + 1]) == RampStep(RampFold(s, words[..i]), words[i])
  {
    assert words[..i + 1][..i] == words[..i];
  }

  lemma RampFoldFailedFrom(s: RampState, words: seq<uint16>, i: nat)
    requires i <= |words| && RampFold(s, words[..i]).failed
    ensures RampFold(s, words) == RampFold(s, words[..i])
  {
    RampFoldConcat(s, words[..i], words[i..]);
    assert words[..i] + words[i..] == words;
    RampFoldFailed(RampFold(s, words[..i]), words[i..]);
  }

  // ----- What it recognises -----

  function RampValue(x0: nat, modulus: nat, i: nat): nat {
    if modulus == 1021 then (x0 + i) % 1021 else (x0 + i) % 1024
  }

  ghost predicate RampFollows(words: seq<uint16>, x0: nat, modulus: nat) {
    (modulus == 1021 || modulus == 1024) && x0 < modulus
    && forall i :: 0 <= i < |words| ==> ValueOf(words[i]) == RampValue(x0, modulus, i)
  }

  /** Counting up by one modulo 1021 throughout or modulo 1024 throughout. */
  ghost predicate IsRamp(words: seq<uint16>) {
    exists x0, modulus :: RampFollows(words, x0, modulus)
  }

  /** What a state says after n > 0 samples of a ramp. */
  ghost predicate RampStateFits(s: RampState, x0: nat, modulus: nat, n: nat)
    requires n > 0
  {
    && s.armed && !s.failed && s.samplesSeen == n % 0x1_0000_0000_0000_0000
    && s.wrapDetected == (x0 + n > modulus)
    && (s.wrapDetected ==> s.wrapValue == modulus && s.expectedNext == RampValue(x0, modulus, n))
    && (!s.wrapDetected ==> s.expectedNext == x0 + n)
  }

  lemma Mod1021(v: nat)
    ensures (v + 1) % 1021 == if v % 1021 == 1020 then 0 else v % 1021 + 1
  {
  }

  lemma Mod1024(v: nat)
    ensures (v + 1) % 1024 == if v % 1024 == 1023 then 0 else v % 1024 + 1
  {
  }

  lemma RampStart(x0: nat, modulus: nat, n: nat)
    requires modulus == 1021 || modulus == 1024
    ensures RampValue(x0, modulus, n) < modulus
    ensures x0 + n < modulus ==> RampValue(x0, modulus, n) == x0 + n
    ensures x0 + n == modulus ==> RampValue(x0, modulus, n) == 0
  {
  }

  lemma RampNext(x0: nat, modulus: nat, n: nat)
    requires modulus == 1021 || modulus == 1024
    ensures RampValue(x0, modulus, n) < modulus
    ensures RampValue(x0, modulus, n + 1)
      == if RampValue(x0, modulus, n) + 1 == modulus then 0 else RampValue(x0, modulus, n) + 1
    ensures x0 + n < modulus ==> RampValue(x0, modulus, n) == x0 + n
    ensures x0 + n == modulus ==> RampValue(x0, modulus, n) == 0
  {
    RampStart(x0, modulus, n);
    Mod1021(x0 + n);
    Mod1024(x0 + n);
    assert x0 + (n + 1) == x0 + n + 1;
  }

  lemma RampStepFits(s: RampState, x0: nat, modulus: nat, n: nat, word: uint16)
    requires (modulus == 1021 || modulus == 1024) && x0 < modulus && n > 0
    requires RampStateFits(s, x0, modulus, n) && ValueOf(word) == RampValue(x0, modulus, n)
    ensures RampStateFits(RampStep(s, word), x0, modulus, n + 1)
  {
    hide RampValue, ValueOf;
    RampNext(x0, modulus, n);
  }

  lemma {:induction false} RampFoldFits(words: seq<uint16>, x0: nat, modulus: nat)
    requires RampFollows(words, x0, modulus) && words != []
    ensures RampStateFits(RampFold(RAMP_INITIAL, words), x0, modulus, |words|)
    decreases |words|
  {
    var n := |words| - 1;
    if n == 0 {
      assert words[..0] == [];
      assert RampFold(RAMP_INITIAL, words[..0]) == RAMP_INITIAL;
      assert ValueOf(words[0]) == x0;
    } else {
      RampFoldFits(words[..n], x0, modulus);
      RampStepFits(RampFold(RAMP_INITIAL, words[..n]), x0, modulus, n, words[n]);
    }
  }

  /** The modulus is open until the first wrap, and then fixed by it. */
  lemma ExtendRamp(words: seq<uint16>, x0: nat, modulus: nat, word: uint16) returns (modulus': nat)
    requires RampFollows(words, x0, modulus) && words != []
    requires x0 + |words| <= modulus ==> modulus == 1024
    requires !RampStep(RampFold(RAMP_INITIAL, words), word).failed
    ensures RampFollows(words + [word], x0, modulus')
    ensures x0 + |words| + 1 <= modulus' ==> modulus' == 1024
  {
    hide RampValue, RampFold;
    var n, s := |words|, RampFold(RAMP_INITIAL, words);
    RampFoldFits(words, x0, modulus);
    RampNext(x0, modulus, n);
    modulus' := if !s.wrapDetected && ValueOf(word) == 0 && s.expectedNext == 1021 then 1021 else modulus;
    RampNext(x0, modulus', n);
    forall i | 0 <= i < n ensures RampValue(x0, modulus', i) == RampValue(x0, modulus, i) {
      RampNext(x0, modulus', i);
      RampNext(x0, modulus, i);
    }
  }

  lemma {:induction false} AcceptedIsRamp(words: seq<uint16>) returns (x0: nat, modulus: nat)
    requires !RampFold(RAMP_INITIAL, words).failed
    ensures RampFollows(words, x0, modulus)
    ensures words != [] && x0 + |words| <= modulus ==> modulus == 1024
    decreases |words|
  {
    hide RampValue, RampStep;
    if words == [] {
      x0, modulus := 0, 1024;
    } else if |words| == 1 {
      x0, modulus := ValueOf(words[0]), 1024;
      RampNext(x0, 1024, 0);
    } else {
      var n := |words| - 1;
      if RampFold(RAMP_INITIAL, words[..n]).failed {
        RampFoldConcat(RAMP_INITIAL, words[..n], [words[n]]);
        RampFoldFailed(RampFold(RAMP_INITIAL, words[..n]), [words[n]]);
      }
      x0, modulus := AcceptedIsRamp(words[..n]);
      modulus := ExtendRamp(words[..n], x0, modulus, words[n]);
      assert words[..n] + [words[n]] == words;
    }
  }

  /** The recogniser accepts exactly the ramps. */
  lemma RampAcceptsExactly(words: seq<uint16>)
    ensures RampVerdict(RampFold(RAMP_INITIAL, words)) == OK <==> IsRamp(words)
  {
    if RampVerdict(RampFold(RAMP_INITIAL, words)) == OK {
      var x0, modulus := AcceptedIsRamp(words);
    }
    if IsRamp(words) && words != [] {
      var x0, modulus :| RampFollows(words, x0, modulus);
      RampFoldFits(words, x0, modulus);
    }
  }

  /** The value is the lower ten bits. */
  lemma ValueOfWord(k: nat, v: nat)
    requires k < 64 && v < 1024
    ensures ValueOf(1024 * k + v) == v
  {
    assert (1024 * k + v) % 1024 == v;
  }

  /** The state of an accepted ramp before the sample that spoils it. */
  lemma {:induction false} RampErrorHistory(words: seq<uint16>) returns (e: nat)
    requires |words| < 0x1_0000_0000_0000_0000 && RampFold(RAMP_INITIAL, words).failed
    ensures 0 < e < |words| && !RampFold(RAMP_INITIAL, words[..e]).failed
    ensures RampFold(RAMP_INITIAL, words) == RampStep(RampFold(RAMP_INITIAL, words[..e]), words[e])
    ensures RampFold(RAMP_INITIAL, words[..e]).samplesSeen == e
    decreases |words|
  {
    hide RampStep, RampValue;
    var n := |words| - 1;
    if RampFold(RAMP_INITIAL, words[..n]).failed {
      e := RampErrorHistory(words[..n]);
      RampFoldNext(RAMP_INITIAL, words, n);
      RampFailedStays(RampFold(RAMP_INITIAL, words[..n]), words[n]);
      assert words[..n + 1] == words && words[..n][..e] == words[..e];
    } else {
      e := n;
      if n == 0 {
        FirstSamplePasses(words);
      }
      var x0, modulus := AcceptedIsRamp(words[..n]);
      RampFoldFits(words[..n], x0, modulus);
    }
  }

  lemma RampFailedStays(s: RampState, word: uint16)
    requires s.failed
    ensures RampStep(s, word) == s
  {
  }

  lemma FirstSamplePasses(words: seq<uint16>)
    requires |words| == 1
    ensures !RampFold(RAMP_INITIAL, words).failed
  {
    assert words[..0] == [];
  }

  /** What a mismatch reports: the length of the longest prefix that is a ramp, the
      value found there, and the value that would have been right in its place. A
      counter at its legacy wrap is reported as expecting 1024, where 0 is right. */
  lemma RampErrorExact(words: seq<uint16>, k: nat)
    requires |words| < 0x1_0000_0000_0000_0000 && k <= |words|
    requires RampVerdict(RampFold(RAMP_INITIAL, words)) == Mismatch
    ensures var s := RampFold(RAMP_INITIAL, words); var e := s.errorSampleIndex;
      && 0 < e < |words|
      && (IsRamp(words[..k]) <==> k <= e)
      && s.actualValue == ValueOf(words[e])
      && s.expectedValue <= 1024
      && forall x: uint16 :: ValueOf(x) == s.expectedValue % 1024 ==> IsRamp(words[..e] + [x])
  {
    hide RampStep, IsRamp, RampValue, ValueOf;
    var s := RampFold(RAMP_INITIAL, words);
    var e := RampErrorHistory(words);
    var before := RampFold(RAMP_INITIAL, words[..e]);
    var x0, modulus := AcceptedIsRamp(words[..e]);
    RampFoldFits(words[..e], x0, modulus);
    RampNext(x0, modulus, e);
    RampExpectedWouldPass(before, words[e], 0);
    RampAcceptsExactly(words[..k]);
    if k <= e {
      if RampFold(RAMP_INITIAL, words[..k]).failed {
        assert words[..e][..k] == words[..k];
        RampFoldFailedFrom(RAMP_INITIAL, words[..e], k);
      }
    } else {
      assert words[..k][..e + 1] == words[..e + 1];
      RampFoldNext(RAMP_INITIAL, words, e);
      RampFoldFailedFrom(RAMP_INITIAL, words[..k], e + 1);
    }
    forall x: uint16 | ValueOf(x) == s.expectedValue % 1024 ensures IsRamp(words[..e] + [x]) {
      RampExpectedWouldPass(before, words[e], x);
      var corrected := words[..e] + [x];
      assert corrected[..e] == words[..e] && corrected[..e + 1] == corrected;
      RampFoldNext(RAMP_INITIAL, corrected, e);
      RampAcceptsExactly(corrected);
    }
  }

  /** The report of 1024 does occur. */
  lemma LegacyWrapReport()
    ensures var s := RampFold(RAMP_INITIAL, [1023, 5]);
      s.failed && s.errorSampleIndex == 1 && s.expectedValue == 1024 && s.actualValue == 5
  {
    assert [1023, 5][..1] == [1023] && [1023][..0] == [];
    assert RampFold(RAMP_INITIAL, [1023]) == RampStep(RampFold(RAMP_INITIAL, []), 1023);
  }

  lemma RampExpectedWouldPass(s: RampState, word: uint16, x: uint16)
    requires s.armed && !s.failed && RampStep(s, word).failed
    requires s.expectedNext <= 1024 && (s.wrapDetected ==> s.expectedNext < 1024)
    ensures var s' := RampStep(s, word);
      && s'.errorSampleIndex == s.samplesSeen
      && s'.actualValue == ValueOf(word) && s'.expectedValue == s.expectedNext
      && (ValueOf(x) == s'.expectedValue % 1024 ==> !RampStep(s, x).failed)
  {
  }
}
