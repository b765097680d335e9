/** The collection protocol as the device sees it: a device that knows nothing but
    the transfers it is sent, with their numbers on the wire. */
module CollectionWire {
  import opened CTypes
  import opened Collection

  /** What a device does that obeys transfer t: request B5 starts or stops the
      collection, request B8 writes the register in the upper byte of the value with
      its lower byte. */
  function Obey(d: Device, t: Transfer): Device {
    if t.request == 0xB5 then
      if t.value == 1 then d.(collecting := true)
      else if t.value == 0 then d.(collecting := false)
      else d
    else if t.request == 0xB8 then
      if t.value / 256 == 0x10 then d.(testMode := t.value % 256)
      else if t.value / 256 == 0x12 then d.(decimation := t.value % 256)
      else d
    else d
  }

  /** What a device answers to a register read, request B7. */
  function Answer(d: Device, t: Transfer): Option<uint8> {
    if t == Transfer(0xB7, 0x10) then Some(d.testMode)
    else if t == Transfer(0xB7, 0x12) then Some(d.decimation)
    else None
  }

  /** An acknowledged collection request was obeyed; anything else may or may not
      have been. */
  predicate TakesEffect(f: Fate, t: Transfer) {
    f.effect || (t.request == 0xB5 && f.ok)
  }

  /** The device after the transfers of the log from number lo on. */
  function Replay(w: Wire, d: Device, log: seq<Transfer>, lo: nat): Device
    requires lo <= |log|
    decreases |log|
  {
    if |log| == lo then d
    else
      var n := |log| - 1;
      var before := Replay(w, d, log[..n], lo);
      if TakesEffect(w.fate(n), log[n]) then Obey(before, log[n]) else before
  }

  /** From b to c the log grew, and the device did what the new entries say. */
  ghost predicate Replays(w: Wire, b: Bus, c: Bus) {
    b.log <= c.log && c.device == Replay(w, b.device, c.log, |b.log|)
  }

  lemma ReplaysNothing(w: Wire, b: Bus)
    ensures Replays(w, b, b)
  {
  }

  lemma {:induction false} ReplayThrough(w: Wire, d: Device, log: seq<Transfer>, lo: nat, mid: nat)
    requires lo <= mid <= |log|
    ensures Replay(w, d, log, lo) == Replay(w, Replay(w, d, log[..mid], lo), log, mid)
    decreases |log|
  {
    if mid == |log| {
      assert log[..mid] == log;
    } else {
      var n := |log| - 1;
      ReplayThrough(w, d, log[..n], lo, mid);
      assert log[..n][..mid] == log[..mid];
    }
  }

  lemma ReplaysOn(w: Wire, a: Bus, b: Bus, c: Bus)
    requires Replays(w, a, b) && Replays(w, b, c)
    ensures Replays(w, a, c)
  {
    assert c.log[..|b.log|] == b.log;
    ReplayThrough(w, a.device, c.log, |a.log|, |b.log|);
  }

  /** Every transfer changes the device exactly as its numbers on the wire say. */
  lemma TransferIsObeyed(w: Wire, b: Bus, on: bool, address: uint8, value: uint8)
    requires address == 0x10 || address == 0x12
    ensures Replays(w, b, Collected(w, b, on))
    ensures Replays(w, b, Written(w, b, address, value))
    ensures Replays(w, b, Read(b, address)) && Replays(w, b, Read(b, 0))
  {
    OneTransfer(w, b, Collected(w, b, on));
    OneTransfer(w, b, Read(b, address));
    OneTransfer(w, b, Read(b, 0));
    assert WriteOf(address, value).value / 256 == address && WriteOf(address, value).value % 256 == value;
    OneTransfer(w, b, Written(w, b, address, value));
  }

  lemma OneTransfer(w: Wire, b: Bus, c: Bus)
    requires |c.log| == |b.log| + 1 && b.log <= c.log
    requires var t := c.log[|b.log|];
      c.device == if TakesEffect(w.fate(|b.log|), t) then Obey(b.device, t) else b.device
    ensures Replays(w, b, c)
  {
    assert c.log[..|b.log|] == b.log;
    ReplaysNothing(w, b);
  }

  lemma RestoreIsObeyed(w: Wire, b: Bus)
    ensures Replays(w, b, Restored(w, b).0)
  {
    hide Replays, Written, Read;
    var b1 := Written(w, b, 0x10, 0);
    var b2 := Written(w, b1, 0x12, 1);
    var b3 := Read(b2, 0x10);
    TransferIsObeyed(w, b, true, 0x10, 0);
    TransferIsObeyed(w, b1, true, 0x12, 1);
    TransferIsObeyed(w, b2, true, 0x10, 0);
    TransferIsObeyed(w, b3, true, 0x12, 0);
    ReplaysOn(w, b, b1, b2);
    ReplaysOn(w, b, b2, b3);
    ReplaysOn(w, b, b3, Read(b3, 0x12));
  }

  lemma RollbackIsObeyed(w: Wire, s: System)
    ensures Replays(w, s.bus, RolledBack(w, s).0.bus)
  {
    hide Replays, Restored, Collected;
    ReplaysNothing(w, s.bus);
    var b := Collected(w, s.bus, false);
    TransferIsObeyed(w, s.bus, false, 0x10, 0);
    RestoreIsObeyed(w, s.bus);
    RestoreIsObeyed(w, b);
    ReplaysOn(w, s.bus, b, Restored(w, b).0);
  }

  lemma ConfigureIsObeyed(w: Wire, b: Bus, test: bool, factor: uint8)
    ensures Replays(w, b, Configured(w, b, test, factor).0)
  {
    hide Replays, Written, Read;
    var v := TestValue(test);
    var b1 := Written(w, b, 0x10, v);
    var b2 := Written(w, b1, 0x12, factor);
    var b3 := Read(b2, 0x10);
    TransferIsObeyed(w, b, true, 0x10, v);
    TransferIsObeyed(w, b1, true, 0x12, factor);
    TransferIsObeyed(w, b2, true, 0x10, 0);
    TransferIsObeyed(w, b3, true, 0x12, 0);
    ReplaysOn(w, b, b1, b2);
    ReplaysOn(w, b, b2, b3);
    ReplaysOn(w, b, b3, Read(b3, 0x12));
  }

  lemma ApproachIsObeyed(w: Wire, s: System, test: bool, factor: uint8)
    ensures Replays(w, s.bus, Approached(w, s, test, factor).0.bus)
  {
    hide Replays, Configured, RolledBack, Read, IdentitySupported;
    var b := Read(s.bus, 0);
    TransferIsObeyed(w, s.bus, true, 0x10, 0);
    ConfigureIsObeyed(w, b, test, factor);
    var c := Configured(w, b, test, factor).0;
    ReplaysOn(w, s.bus, b, c);
    var s' := System(s.host.(identity := w.identity), c);
    RollbackIsObeyed(w, s');
    ReplaysOn(w, s.bus, c, RolledBack(w, s').0.bus);
  }

  lemma LaunchIsObeyed(w: Wire, s: System)
    ensures Replays(w, s.bus, Launched(w, s).0.bus)
  {
    hide Replays, RolledBack, Collected;
    var s1 := System(s.host.(configured := true, startAttempted := true), Collected(w, s.bus, true));
    TransferIsObeyed(w, s.bus, true, 0x10, 0);
    RollbackIsObeyed(w, s1);
    ReplaysOn(w, s.bus, s1.bus, RolledBack(w, s1).0.bus);
  }

  lemma CallIsObeyed(w: Wire, s: System, call: Call)
    ensures Replays(w, s.bus, Performed(w, s, call).0.bus)
  {
    hide Replays, RolledBack, Approached, Launched, Collected;
    ReplaysNothing(w, s.bus);
    if call.CallStart? {
      var s0 := s.(host := Prepared(call.test, call.factor));
      var s1 := Approached(w, s0, call.test, call.factor).0;
      ApproachIsObeyed(w, s0, call.test, call.factor);
      LaunchIsObeyed(w, s1);
      ReplaysOn(w, s.bus, s1.bus, Launched(w, s1).0.bus);
    } else if call.CallStop? {
      TransferIsObeyed(w, s.bus, false, 0x10, 0);
    } else {
      RollbackIsObeyed(w, s);
    }
  }

  /** Over every run, whatever becomes of the transfers, the device is what a device
      becomes that sees only the wire: the fold of the transfers that took effect. */
  lemma {:induction false} RunIsObeyed(w: Wire, s: System, calls: seq<Call>)
    ensures Replays(w, s.bus, RunOf(w, s, calls).bus)
    decreases |calls|
  {
    hide Replays, Performed;
    if calls == [] {
      ReplaysNothing(w, s.bus);
    } else {
      var s1 := Performed(w, s, calls[0]).0;
      CallIsObeyed(w, s, calls[0]);
      RunIsObeyed(w, s1, calls[1..]);
      ReplaysOn(w, s.bus, s1.bus, RunOf(w, s1, calls[1..]).bus);
    }
  }

  // ----- The orders and conditions in numbers -----

  /** The documented orders, as they go over the wire. */
  lemma OrdersOnTheWire(test: bool, factor: uint8)
    ensures var t := if test then 1 else 0;
      StartOrder(test, factor) == [
        Transfer(0xB7, 0x00), Transfer(0xB8, 0x1000 + t), Transfer(0xB8, 0x1200 + factor),
        Transfer(0xB7, 0x10), Transfer(0xB7, 0x12), Transfer(0xB5, 1)]
    ensures STOP == Transfer(0xB5, 0)
    ensures RESTORE == [
      Transfer(0xB8, 0x1000), Transfer(0xB8, 0x1201), Transfer(0xB7, 0x10), Transfer(0xB7, 0x12)]
  {
  }

  predicate KnownIdentity(id: seq<uint8>) {
    |id| >= 12 && id[0] == 0x44 && id[1] == 2 && id[11] == 1
  }

  /** How far the configuration got and why it ended there: the transfers are a prefix
      of the order, all but the last were acknowledged, a control failure means that
      the last was not, and a mismatch that the device answered something else than
      what was written. */
  lemma ConfigureEndsExactly(w: Wire, b: Bus, test: bool, factor: uint8)
    ensures var (b', r) := Configured(w, b, test, factor); var k, n := |b'.log| - |b.log|, |b'.log|;
      && 1 <= k <= 4
      && b'.log == b.log + ConfigureOrder(test, factor)[..k]
      && (forall i :: |b.log| <= i < n - 1 ==> w.fate(i).ok)
      && (r == ControlFailure <==> !w.fate(n - 1).ok)
      && (r == ReadbackMismatch <==>
            && w.fate(n - 1).ok
            && Answer(b'.device, b'.log[n - 1])
              != (if k < 3 then None else if k == 3 then Some(TestValue(test)) else Some(factor)))
      && (r == OK ==> k == 4 && Answer(b'.device, b'.log[n - 2]) == Some(TestValue(test)))
      && (r == OK || r == ControlFailure || r == ReadbackMismatch)
  {
    var order := ConfigureOrder(test, factor);
    assert order[..1] == [order[0]] && order[..2] == [order[0], order[1]];
    assert order[..3] == [order[0], order[1], order[2]] && order[..4] == order;
  }

  /** The result codes of a start that does not reach the configuration, and all that
      a successful one leaves with the host. */
  lemma StartResultExact(w: Wire, s: System, test: bool, factor: uint8)
    ensures var (s', r) := Started(w, s, test, factor); var n := |s.bus.log|;
      && (r == UnsupportedDecimation <==> factor != 1 && factor != 2)
      && (r == UnsupportedDecimation ==> s'.bus == s.bus && s'.host == Host(
            ProtocolV1, factor, 0, test, false, false, false, false, false, []))
      && (r == IdentityMismatch <==> (factor == 1 || factor == 2) && w.fate(n).ok && !KnownIdentity(w.identity))
      && (r == IdentityMismatch ==> s'.bus.log == s.bus.log + [Transfer(0xB7, 0)])
      && (r == OK ==> KnownIdentity(w.identity) && s'.host == Host(
            ProtocolV1, factor, 40_000_000 / factor, test, true, true, true, false, false, w.identity))
  {
    hide Configured, RolledBack, Collected;
    ConfigureEndsExactly(w, Read(s.bus, 0), test, factor);
    IdentityInNumbers(w.identity);
  }

  lemma IdentityInNumbers(id: seq<uint8>)
    ensures IdentitySupported(id) <==> KnownIdentity(id)
  {
  }

  /** Safe defaults in numbers: not collecting, no test mode, full rate. */
  lemma SafeDefaultsInNumbers(d: Device)
    ensures AtSafeDefaults(d) <==> d == Device(0, 1, false)
  {
  }

  predicate AllAcked(w: Wire, lo: nat, hi: nat) {
    forall i :: lo <= i < hi ==> w.fate(i).ok
  }

  /** Stop in full: one request exactly if a start was attempted, and a host that
      forgets it exactly if the request was acknowledged. */
  lemma StopExact(w: Wire, s: System)
    ensures var (s', r) := Stopped(w, s); var h := s.host;
      var send := h.profile == ProtocolV1 && (h.startAttempted || h.active);
      && s'.bus.log == s.bus.log + (if send then [Transfer(0xB5, 0)] else [])
      && r == (if h.profile != ProtocolV1 then UnsupportedProfile
               else if send && !w.fate(|s.bus.log|).ok then ControlFailure
               else OK)
      && s'.host == (if send && r == OK then h.(startAttempted := false, active := false) else h)
  {
  }

  /** Rollback in full, for a host that started something or not. */
  lemma RollbackExact(w: Wire, s: System)
    requires s.host.profile == ProtocolV1
    ensures var (s', r) := RolledBack(w, s); var h, n := s.host, |s.bus.log|;
      var stop := h.startAttempted || h.active;
      && s'.bus.log == s.bus.log + (if stop then [Transfer(0xB5, 0)] else []) + [
           Transfer(0xB8, 0x1000), Transfer(0xB8, 0x1201), Transfer(0xB7, 0x10), Transfer(0xB7, 0x12)]
      && r == (if !AllAcked(w, n, |s'.bus.log|) then ControlFailure
               else if s'.bus.device.testMode == 0 && s'.bus.device.decimation == 1 then OK
               else ReadbackMismatch)
      && s'.host == h.(rollbackAttempted := true, configured := false, rollbackSucceeded := r == OK,
                       startAttempted := h.startAttempted && !w.fate(n).ok, active := h.active && !w.fate(n).ok)
  {
    hide Collected, Written, Read;
    var h, n := s.host, |s.bus.log|;
    var stop := h.startAttempted || h.active;
    var b := if stop then Collected(w, s.bus, false) else s.bus;
    SentOnce(w, s.bus);
    RestoredExact(w, b);
    if stop {
      AckedFrom(w, n, n + 5);
    }
  }

  lemma SentOnce(w: Wire, b: Bus)
    ensures Collected(w, b, false).log == b.log + [Transfer(0xB5, 0)]
  {
  }

  lemma AckedFrom(w: Wire, lo: nat, hi: nat)
    requires lo < hi
    ensures AllAcked(w, lo, hi) <==> w.fate(lo).ok && AllAcked(w, lo + 1, hi)
  {
  }

  lemma RestoredExact(w: Wire, b: Bus)
    ensures var (b', r) := Restored(w, b); var n := |b.log|;
      && b'.log == b.log + [
           Transfer(0xB8, 0x1000), Transfer(0xB8, 0x1201), Transfer(0xB7, 0x10), Transfer(0xB7, 0x12)]
      && r == (if !AllAcked(w, n, n + 4) then ControlFailure
               else if b'.device.testMode == 0 && b'.device.decimation == 1 then OK
               else ReadbackMismatch)
  {
    var n := |b.log|;
    AckedFrom(w, n, n + 4);
    AckedFrom(w, n + 1, n + 4);
    AckedFrom(w, n + 2, n + 4);
    AckedFrom(w, n + 3, n + 4);
  }

  /** All transfers of a start that read a known identity: a failed configuration goes
      on with the restoring transfers, an unacknowledged start request with a stop and
      the restoring transfers. */
  lemma StartLogExact(w: Wire, s: System, test: bool, factor: uint8)
    requires factor == 1 || factor == 2
    requires w.fate(|s.bus.log|).ok && KnownIdentity(w.identity)
    ensures var (s', r) := Started(w, s, test, factor);
      var b := Bus(s.bus.device, s.bus.log + [Transfer(0xB7, 0)]);
      var (c, configured) := Configured(w, b, test, factor);
      && (r == OK <==> configured == OK && w.fate(|c.log|).ok)
      && (configured != OK ==> r == configured && s'.bus.log == c.log + RESTORE)
      && (configured == OK && r != OK ==>
            r == ControlFailure && s'.bus.log == c.log + [Transfer(0xB5, 1), Transfer(0xB5, 0)] + RESTORE)
  {
    hide Configured, Restored;
    IdentityInNumbers(w.identity);
    var b := Read(s.bus, 0);
    var (c, configured) := Configured(w, b, test, factor);
    RestoredExact(w, c);
    var c1 := Collected(w, c, true);
    RestoredExact(w, Collected(w, c1, false));
    assert c1.log + [STOP] + RESTORE == c.log + [Transfer(0xB5, 1), Transfer(0xB5, 0)] + RESTORE;
  }
}
