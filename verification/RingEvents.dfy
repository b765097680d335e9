/** The two sticky events: each signal serves at most one wait, and is not forgotten
    until it does. */
module RingEvents {
  import opened CTypes
  import opened RingArith
  import opened RingMachine
  import opened RingGrants

  /** Signal number i has not been used up by a wake-up since. */
  predicate UnusedAt<T(==)>(acts: seq<T>, signal: T, wake: T, i: nat)
    requires i < |acts|
  {
    acts[i] == signal && forall j :: i < j < |acts| ==> acts[j] != wake
  }

  predicate SignalUnused<T(==)>(acts: seq<T>, signal: T, wake: T) {
    exists i :: 0 <= i < |acts| && UnusedAt(acts, signal, wake, i)
  }

  lemma UnusedAtAfter<T>(acts: seq<T>, a: T, signal: T, wake: T, i: nat)
    requires i < |acts|
    ensures UnusedAt(acts + [a], signal, wake, i) <==> UnusedAt(acts, signal, wake, i) && a != wake
  {
    var all, n := acts + [a], |acts|;
    assert all[i] == acts[i];
    if UnusedAt(acts, signal, wake, i) && a != wake {
      forall j | i < j < n + 1 ensures all[j] != wake {
        assert j < n ==> all[j] == acts[j];
      }
    }
    if UnusedAt(all, signal, wake, i) {
      assert all[n] == a;
      forall j | i < j < n ensures acts[j] != wake {
        assert all[j] == acts[j];
      }
    }
  }

  lemma UnusedAtEnd<T>(acts: seq<T>, a: T, signal: T, wake: T)
    ensures UnusedAt(acts + [a], signal, wake, |acts|) <==> a == signal
  {
  }

  lemma UnusedAfter<T>(acts: seq<T>, a: T, signal: T, wake: T)
    requires signal != wake
    ensures SignalUnused(acts + [a], signal, wake)
      <==> a == signal || (a != wake && SignalUnused(acts, signal, wake))
  {
    hide UnusedAt;
    var n := |acts|;
    UnusedAtEnd(acts, a, signal, wake);
    if a != wake && SignalUnused(acts, signal, wake) {
      var i :| 0 <= i < n && UnusedAt(acts, signal, wake, i);
      UnusedAtAfter(acts, a, signal, wake, i);
    }
    if SignalUnused(acts + [a], signal, wake) {
      var i :| 0 <= i < n + 1 && UnusedAt(acts + [a], signal, wake, i);
      if i < n {
        UnusedAtAfter(acts, a, signal, wake, i);
      }
    }
  }

  lemma StepFlags(s: State, a: Action)
    requires Enabled(s, a)
    ensures Apply(s, a).dataFlag == (a == PSignal || (a != CWake && s.dataFlag))
    ensures Apply(s, a).spaceFlag == (a == CSignal || (a != PWake && s.spaceFlag))
  {
    hide WriteAccepts, ReadAccepts, View, Cell;
  }

  /** In every run a flag is up exactly if the last signal has not woken anyone yet. */
  lemma {:induction false} FlagIsUnusedSignal(capacity: size_t, mem: seq<byte>, acts: seq<Action>)
    requires ValidCapacity(capacity) && |mem| == capacity && Valid(Init(capacity, mem), acts)
    ensures var s := Run(Init(capacity, mem), acts);
      && (s.dataFlag <==> SignalUnused(acts, PSignal, CWake))
      && (s.spaceFlag <==> SignalUnused(acts, CSignal, PWake))
    decreases |acts|
  {
    hide Enabled, Apply;
    if acts == [] {
    } else {
      var n := |acts| - 1;
      assert acts == acts[..n] + [acts[n]];
      RunThen(Init(capacity, mem), acts[..n], acts[n]);
      FlagIsUnusedSignal(capacity, mem, acts[..n]);
      StepFlags(Run(Init(capacity, mem), acts[..n]), acts[n]);
      UnusedAfter(acts[..n], acts[n], PSignal, CWake);
      UnusedAfter(acts[..n], acts[n], CSignal, PWake);
    }
  }

  /** A wake-up uses up a signal of its own: there is one since the last wake-up. */
  lemma WakeNeedsSignal(capacity: size_t, mem: seq<byte>, acts: seq<Action>, k: nat)
    requires ValidCapacity(capacity) && |mem| == capacity && Valid(Init(capacity, mem), acts) && k < |acts|
    ensures acts[k] == CWake ==> SignalUnused(acts[..k], PSignal, CWake)
    ensures acts[k] == PWake ==> SignalUnused(acts[..k], CSignal, PWake)
  {
    var s := Init(capacity, mem);
    assert acts == acts[..k] + acts[k..];
    RunSplit(s, acts[..k], acts[k..]);
    FlagIsUnusedSignal(capacity, mem, acts[..k]);
    assert Enabled(Run(s, acts[..k]), acts[k]);
  }
}
