/** The sequence-marker validator of ddd_protocol.c: an incremental recogniser of
    runs of equal six-bit markers whose length it learns from the stream. */
module SequenceValidator {
  import opened CTypes

  const MARKER_COUNT: uint8 := 63
  const SAMPLES_PER_MARKER: uint32 := 65535
  const LEGACY_SAMPLES_PER_MARKER: uint32 := 65536
  const MAX_SAMPLES_PER_MARKER: uint32 := 65536

  datatype Phase = Synchronizing | Running | Failed

  datatype Verdict = OK | Mismatch

  datatype State = State(
    phase: Phase,
    markerSeen: bool,
    marker: uint8,
    samplesInMarker: uint32,
    samplesPerMarker: uint32,
    samplesSeen: uint64,
    errorSampleIndex: uint64,
    expectedMarker: uint8,
    actualMarker: uint8)

  const INITIAL: State := State(Synchronizing, false, 0, 0, 0, 0, 0, 0, 0)

  /** The marker carried in the upper six bits of a sample word. */
  function MarkerOf(word: uint16): uint8 {
    (word / 1024) % 64
  }

  function NextMarker(marker: uint8): uint8 {
    var m := if marker == 0xFF then 0 else marker + 1;
    if m == MARKER_COUNT then 0 else m
  }

  function Limit(s: State): uint32 {
    if s.samplesPerMarker != 0 then s.samplesPerMarker else MAX_SAMPLES_PER_MARKER
  }

  function VerdictOf(s: State): Verdict {
    if s.phase == Failed then Mismatch else OK
  }

  function Fail(s: State, expected: uint8, actual: uint8): State {
    s.(phase := Failed, errorSampleIndex := s.samplesSeen, expectedMarker := expected, actualMarker := actual)
  }

  /** The effect of one sample. */
  function Step(s: State, word: uint16): State {
    var actual := MarkerOf(word);
    var counted := s.(samplesSeen := Inc64(s.samplesSeen));
    var more := counted.(samplesInMarker := Inc32(s.samplesInMarker));
    if s.phase == Failed then s
    else if actual >= MARKER_COUNT then Fail(s, 0, actual)
    else if !s.markerSeen then counted.(markerSeen := true, marker := actual, samplesInMarker := 1)
    else if actual == s.marker then
      if s.samplesInMarker == Limit(s) then Fail(s, NextMarker(s.marker), actual) else more
    else if s.phase == Synchronizing then
      if actual != NextMarker(s.marker) then Fail(s, NextMarker(s.marker), actual)
      else counted.(phase := Running, marker := actual, samplesInMarker := 1)
    else if !LengthMatches(s) then Fail(s, s.marker, actual)
    else if actual != NextMarker(s.marker) then Fail(s, NextMarker(s.marker), actual)
    else counted.(samplesPerMarker := if s.samplesPerMarker == 0 then s.samplesInMarker else s.samplesPerMarker,
                  marker := actual, samplesInMarker := 1)
  }

  predicate LengthMatches(s: State) {
    if s.samplesPerMarker != 0 then s.samplesInMarker == s.samplesPerMarker
    else s.samplesInMarker == SAMPLES_PER_MARKER || s.samplesInMarker == LEGACY_SAMPLES_PER_MARKER
  }

  /** The effect of a whole stream. */
  function Fold(s: State, words: seq<uint16>): State {
    if words == [] then s else Step(Fold(s, words[..|words| - 1]), words[|words| - 1])
  }

  class Validator {
    var phase: Phase
    var markerSeen: bool
    var marker: uint8
    var samplesInMarker: uint32
    var samplesPerMarker: uint32
    var samplesSeen: uint64
    var errorSampleIndex: uint64
    var expectedMarker: uint8
    var actualMarker: uint8

    function Snapshot(): State
      reads this
    {
      State(phase, markerSeen, marker, samplesInMarker, samplesPerMarker, samplesSeen,
            errorSampleIndex, expectedMarker, actualMarker)
    }

    constructor ()
      ensures Snapshot() == INITIAL
    {
      phase, markerSeen, marker, samplesInMarker, samplesPerMarker := Synchronizing, false, 0, 0, 0;
      samplesSeen, errorSampleIndex, expectedMarker, actualMarker := 0, 0, 0, 0;
    }

    method SequenceFail(expected: uint8, actual: uint8) returns (v: Verdict)
      modifies this
      ensures Snapshot() == Fail(old(Snapshot()), expected, actual) && v == Mismatch
    {
      phase := Failed;
      errorSampleIndex := samplesSeen;
      expectedMarker := expected;
      actualMarker := actual;
      return Mismatch;
    }

    /** ddd_sequence_validator_feed: consumes the words up to the first offence. */
    method Feed(words: seq<uint16>) returns (v: Verdict)
      modifies this
      ensures Snapshot() == Fold(old(Snapshot()), words)
      ensures v == VerdictOf(Snapshot())
    {
      if phase == Failed {
        FoldFailed(Snapshot(), words);
        return Mismatch;
      }
      var markerLimit := if samplesPerMarker != 0 then samplesPerMarker else MAX_SAMPLES_PER_MARKER;
      var i := 0;
      while i < |words|
        invariant 0 <= i <= |words|
        invariant Snapshot() == Fold(old(Snapshot()), words[..i])
        invariant phase != Failed && markerLimit == Limit(Snapshot())
      {
        ghost var s := Snapshot();
        var actual := MarkerOf(words[i]);
        FoldNext(old(Snapshot()), words, i);
        i := i + 1;
        if actual >= MARKER_COUNT {
          v := SequenceFail(0, actual);
          FoldFailedFrom(old(Snapshot()), words, i);
          return;
        }
        if !markerSeen {
          markerSeen := true;
          marker := actual;
          samplesInMarker := 1;
          samplesSeen := Inc64(samplesSeen);
          continue;
        }
        if phase == Synchronizing {
          if actual == marker {
            if samplesInMarker == markerLimit {
              v := SequenceFail(NextMarker(marker), actual);
              FoldFailedFrom(old(Snapshot()), words, i);
              return;
            }
            samplesInMarker := Inc32(samplesInMarker);
          } else {
            var expected := NextMarker(marker);
            if actual != expected {
              v := SequenceFail(expected, actual);
              FoldFailedFrom(old(Snapshot()), words, i);
              return;
            }
            phase := Running;
            marker := actual;
            samplesInMarker := 1;
          }
          samplesSeen := Inc64(samplesSeen);
          continue;
        }
        if actual == marker {
          if samplesInMarker == markerLimit {
            v := SequenceFail(NextMarker(marker), actual);
            FoldFailedFrom(old(Snapshot()), words, i);
            return;
          }
          samplesInMarker := Inc32(samplesInMarker);
        } else {
          var lengthMatches :=
            if samplesPerMarker != 0 then samplesInMarker == samplesPerMarker
            else samplesInMarker == SAMPLES_PER_MARKER || samplesInMarker == LEGACY_SAMPLES_PER_MARKER;
          if !lengthMatches {
            v := SequenceFail(marker, actual);
            FoldFailedFrom(old(Snapshot()), words, i);
            return;
          }
          var expected := NextMarker(marker);
          if actual != expected {
            v := SequenceFail(expected, actual);
            FoldFailedFrom(old(Snapshot()), words, i);
            return;
          }
          if samplesPerMarker == 0 {
            samplesPerMarker := samplesInMarker;
            markerLimit := samplesPerMarker;
          }
          marker := actual;
          samplesInMarker := 1;
        }
        samplesSeen := Inc64(samplesSeen);
      }
      assert words[..i] == words;
      return OK;
    }
  }

  lemma FoldNext(s: State, words: seq<uint16>, i: nat)
    requires i < |words|
    ensures Fold(s, words[..i + 1]) == Step(Fold(s, words[..i]), words[i])
  {
    assert words[..i + 1][..i] == words[..i];
  }

  lemma {:induction false} FoldFailed(s: State, words: seq<uint16>)
    requires s.phase == Failed
    ensures Fold(s, words) == s
    decreases |words|
  {
    if words != [] {
      FoldFailed(s, words[..|words| - 1]);
    }
  }

  /** Chunking does not matter: feeding a and then b leaves exactly the state that
      feeding a + b leaves, from any state and with all error fields. */
  lemma {:induction false} FoldConcat(s: State, a: seq<uint16>, b: seq<uint16>)
    ensures Fold(Fold(s, a), b) == Fold(s, a + b)
    decreases |b|
  {
    if b == [] {
      assert a + b == a;
    } else {
      var n := |b| - 1;
      FoldConcat(s, a, b[..n]);
      assert (a + b)[..|a + b| - 1] == a + b[..n];
    }
  }

  /** A failed prefix decides the state. */
  lemma FoldFailedFrom(s: State, words: seq<uint16>, i: nat)
    requires i <= |words| && Fold(s, words[..i]).phase == Failed
    ensures Fold(s, words) == Fold(s, words[..i])
  {
    FoldConcat(s, words[..i], words[i..]);
    assert words[..i] + words[i..] == words;
    FoldFailed(Fold(s, words[..i]), words[i..]);
  }
}
