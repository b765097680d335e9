/** Collection start, stop and rollback of ddd_protocol.c over control transfers
    that may fail, and that may or may not have taken effect when they do. */
module Collection {
  import opened CTypes

  const REQUEST_COLLECTION: uint8 := 0xB5
  const REQUEST_REGISTER_READ: uint8 := 0xB7
  const REQUEST_REGISTER_WRITE: uint8 := 0xB8
  const REGISTER_IDENTITY: uint8 := 0x00
  const REGISTER_MAP_VERSION: uint8 := 0x01
  const REGISTER_IMAGE_ROLE: uint8 := 0x0B
  const REGISTER_TEST_MODE: uint8 := 0x10
  const REGISTER_DECIMATION: uint8 := 0x12
  const IDENTITY_VALUE: uint8 := 0x44
  const SUPPORTED_REGISTER_MAP: uint8 := 2
  const APPLICATION_IMAGE_ROLE: uint8 := 1
  const FULL_RATE: uint8 := 1
  const HALF_RATE: uint8 := 2

  datatype Profile = NotDdd | ProtocolV1

  datatype Result =
    | OK | UnsupportedProfile | UnsupportedDecimation
    | ControlFailure | IdentityMismatch | ReadbackMismatch

  /** A request as it goes over the wire. */
  datatype Transfer = Transfer(request: uint8, value: uint16)

  /** What becomes of a transfer. A failed one may still have taken effect, and an
      acknowledged register write may have been ignored: only reading back tells. An
      acknowledged collection request is taken to have been obeyed. */
  datatype Fate = Fate(ok: bool, effect: bool)

  function RegisterWrite(address: uint8, value: uint8): uint16 {
    address * 256 + value
  }

  predicate DecimationSupported(factor: uint8) {
    factor == FULL_RATE || factor == HALF_RATE
  }

  predicate IdentitySupported(id: seq<uint8>) {
    |id| >= 12 && id[REGISTER_IDENTITY] == IDENTITY_VALUE
    && id[REGISTER_MAP_VERSION] == SUPPORTED_REGISTER_MAP
    && id[REGISTER_IMAGE_ROLE] == APPLICATION_IMAGE_ROLE
  }

  function TestValue(testMode: bool): uint8 {
    if testMode then 1 else 0
  }

  const STOP: Transfer := Transfer(REQUEST_COLLECTION, 0)
  const START: Transfer := Transfer(REQUEST_COLLECTION, 1)

  function WriteOf(address: uint8, value: uint8): Transfer {
    Transfer(REQUEST_REGISTER_WRITE, RegisterWrite(address, value))
  }

  function ReadOf(address: uint8): Transfer {
    Transfer(REQUEST_REGISTER_READ, address)
  }

  /** The restore sequence: test mode off, full rate, and both read back. */
  const RESTORE: seq<Transfer> := [
    WriteOf(REGISTER_TEST_MODE, 0), WriteOf(REGISTER_DECIMATION, FULL_RATE),
    ReadOf(REGISTER_TEST_MODE), ReadOf(REGISTER_DECIMATION)]

  /** Configuration and verification. */
  function ConfigureOrder(testMode: bool, factor: uint8): seq<Transfer> {
    [WriteOf(REGISTER_TEST_MODE, TestValue(testMode)), WriteOf(REGISTER_DECIMATION, factor),
     ReadOf(REGISTER_TEST_MODE), ReadOf(REGISTER_DECIMATION)]
  }

  /** The six transfers of a successful start, in the documented order. */
  function StartOrder(testMode: bool, factor: uint8): seq<Transfer> {
    [ReadOf(REGISTER_IDENTITY),
     WriteOf(REGISTER_TEST_MODE, TestValue(testMode)), WriteOf(REGISTER_DECIMATION, factor),
     ReadOf(REGISTER_TEST_MODE), ReadOf(REGISTER_DECIMATION),
     START]
  }

  // ----- The protocol on values -----

  datatype Device = Device(testMode: uint8, decimation: uint8, collecting: bool)

  /** The device and everything that was sent to it. */
  datatype Bus = Bus(device: Device, log: seq<Transfer>)

  /** What the device answers, and the fates dealt out to transfers by number. */
  datatype Wire = Wire(identity: seq<uint8>, fate: nat -> Fate)

  /** ddd_collection_state_t. */
  datatype Host = Host(
    profile: Profile,
    decimationFactor: uint8,
    sampleRateHz: int,
    testMode: bool,
    configured: bool,
    startAttempted: bool,
    active: bool,
    rollbackAttempted: bool,
    rollbackSucceeded: bool,
    identity: seq<uint8>)

  datatype System = System(host: Host, bus: Bus)

  /** Whether the next transfer will be acknowledged. */
  predicate Acked(w: Wire, b: Bus) {
    w.fate(|b.log|).ok
  }

  function Collected(w: Wire, b: Bus, on: bool): Bus {
    var f := w.fate(|b.log|);
    Bus(if f.ok || f.effect then b.device.(collecting := on) else b.device, b.log + [if on then START else STOP])
  }

  function Written(w: Wire, b: Bus, address: uint8, value: uint8): Bus {
    var d := b.device;
    Bus(if !w.fate(|b.log|).effect then d
        else if address == REGISTER_TEST_MODE then d.(testMode := value)
        else if address == REGISTER_DECIMATION then d.(decimation := value)
        else d,
        b.log + [WriteOf(address, value)])
  }

  function Read(b: Bus, address: uint8): Bus {
    b.(log := b.log + [ReadOf(address)])
  }

  function Restored(w: Wire, b: Bus): (Bus, Result) {
    var b1 := Written(w, b, REGISTER_TEST_MODE, 0);
    var b2 := Written(w, b1, REGISTER_DECIMATION, FULL_RATE);
    var b3 := Read(b2, REGISTER_TEST_MODE);
    var b4 := Read(b3, REGISTER_DECIMATION);
    (b4,
     if !(Acked(w, b) && Acked(w, b1) && Acked(w, b2) && Acked(w, b3)) then ControlFailure
     else if b4.device.testMode == 0 && b4.device.decimation == FULL_RATE then OK
     else ReadbackMismatch)
  }

  function RolledBack(w: Wire, s: System): (System, Result) {
    var h := s.host;
    if h.profile != ProtocolV1 then (s, UnsupportedProfile)
    else
      var stop := h.startAttempted || h.active;
      var stopOk := !stop || Acked(w, s.bus);
      var (b, restore) := Restored(w, if stop then Collected(w, s.bus, false) else s.bus);
      var r := if stopOk then restore else ControlFailure;
      (System(h.(rollbackAttempted := true, configured := false, rollbackSucceeded := r == OK,
                 startAttempted := h.startAttempted && !stopOk, active := h.active && !stopOk),
              b), r)
  }

  /** What ddd_collection_state_init and the first assignments make of any state. */
  function Prepared(test: bool, factor: uint8): Host {
    Host(ProtocolV1, factor, SampleRate(factor), test, false, false, false, false, false, [])
  }

  function SampleRate(factor: uint8): int {
    if factor == 1 then 40_000_000 else if factor == 2 then 20_000_000 else 0
  }

  function Configured(w: Wire, b: Bus, test: bool, factor: uint8): (Bus, Result) {
    var b1 := Written(w, b, REGISTER_TEST_MODE, TestValue(test));
    if !Acked(w, b) then (b1, ControlFailure)
    else
      var b2 := Written(w, b1, REGISTER_DECIMATION, factor);
      if !Acked(w, b1) then (b2, ControlFailure)
      else
        var b3 := Read(b2, REGISTER_TEST_MODE);
        if !Acked(w, b2) then (b3, ControlFailure)
        else if b3.device.testMode != TestValue(test) then (b3, ReadbackMismatch)
        else
          var b4 := Read(b3, REGISTER_DECIMATION);
          if !Acked(w, b3) then (b4, ControlFailure)
          else if b4.device.decimation != factor then (b4, ReadbackMismatch)
          else (b4, OK)
  }

  function Launched(w: Wire, s: System): (System, Result) {
    var s1 := System(s.host.(configured := true, startAttempted := true), Collected(w, s.bus, true));
    if Acked(w, s.bus) then (s1.(host := s1.host.(active := true)), OK)
    else (RolledBack(w, s1).0, ControlFailure)
  }

  function Approached(w: Wire, s: System, test: bool, factor: uint8): (System, Result) {
    var b := Read(s.bus, REGISTER_IDENTITY);
    if !Acked(w, s.bus) then (s.(bus := b), ControlFailure)
    else if !IdentitySupported(w.identity) then (s.(bus := b), IdentityMismatch)
    else
      var (b', r) := Configured(w, b, test, factor);
      var s' := System(s.host.(identity := w.identity), b');
      if r == OK then (s', OK) else (RolledBack(w, s').0, r)
  }

  function Started(w: Wire, s: System, test: bool, factor: uint8): (System, Result) {
    var s0 := s.(host := Prepared(test, factor));
    if !DecimationSupported(factor) then (s0, UnsupportedDecimation)
    else
      var (s1, r) := Approached(w, s0, test, factor);
      if r == OK then Launched(w, s1) else (s1, r)
  }

  function Stopped(w: Wire, s: System): (System, Result) {
    var h := s.host;
    if h.profile != ProtocolV1 then (s, UnsupportedProfile)
    else if !h.startAttempted && !h.active then (s, OK)
    else
      var b := Collected(w, s.bus, false);
      if Acked(w, s.bus) then (System(h.(startAttempted := false, active := false), b), OK)
      else (s.(bus := b), ControlFailure)
  }

  predicate AtSafeDefaults(d: Device) {
    !d.collecting && d.testMode == 0 && d.decimation == FULL_RATE
  }

  /** The host knows about a device that may be collecting, and what it reports
      about its own state is true. */
  predicate IsTracked(s: System) {
    && (s.bus.device.collecting ==> s.host.startAttempted)
    && (s.host.active ==> s.host.startAttempted)
    && (s.host.rollbackSucceeded ==> AtSafeDefaults(s.bus.device) && !s.host.startAttempted)
  }

  lemma RolledBackTracks(w: Wire, s: System)
    ensures var (s', r) := RolledBack(w, s);
      && (IsTracked(s) ==> IsTracked(s'))
      && (r == OK && IsTracked(s) ==>
            AtSafeDefaults(s'.bus.device) && !s'.host.startAttempted && !s'.host.active)
  {
  }

  // ----- The protocol on a device -----

  /** The device behind the control endpoint, and the fates it deals out. */
  class Link {
    const identity: seq<uint8>
    const fate: nat -> Fate
    var testMode: uint8
    var decimation: uint8
    var collecting: bool
    var log: seq<Transfer>

    constructor (identity: seq<uint8>, fate: nat -> Fate, testMode: uint8, decimation: uint8)
      ensures this.identity == identity && this.fate == fate && !collecting && log == []
      ensures this.testMode == testMode && this.decimation == decimation
    {
      this.identity, this.fate := identity, fate;
      this.testMode, this.decimation, collecting, log := testMode, decimation, false, [];
    }

    function AsWire(): Wire {
      Wire(identity, fate)
    }

    function AsBus(): Bus
      reads this
    {
      Bus(Device(testMode, decimation, collecting), log)
    }

    predicate SafeDefaults()
      reads this
    {
      AtSafeDefaults(AsBus().device)
    }

    /** ddd_control_out with B5. */
    method Collect(on: bool) returns (ok: bool)
      modifies this
      ensures testMode == old(testMode) && decimation == old(decimation)
      ensures log == old(log) + [if on then START else STOP]
      ensures ok <==> fate(|old(log)|).ok
      ensures ok ==> collecting == on
      ensures collecting == on || collecting == old(collecting)
      ensures AsBus() == Collected(AsWire(), old(AsBus()), on) && ok == Acked(AsWire(), old(AsBus()))
    {
      var f := fate(|log|);
      log := log + [if on then START else STOP];
      if f.ok || f.effect {
        collecting := on;
      }
      return f.ok;
    }

    /** ddd_write_register. */
    method WriteRegister(address: uint8, value: uint8) returns (ok: bool)
      modifies this
      ensures collecting == old(collecting)
      ensures log == old(log) + [WriteOf(address, value)]
      ensures ok <==> fate(|old(log)|).ok
      ensures testMode == if address == REGISTER_TEST_MODE && fate(|old(log)|).effect then value else old(testMode)
      ensures decimation
        == if address == REGISTER_DECIMATION && fate(|old(log)|).effect then value else old(decimation)
      ensures AsBus() == Written(AsWire(), old(AsBus()), address, value) && ok == Acked(AsWire(), old(AsBus()))
    {
      var f := fate(|log|);
      log := log + [WriteOf(address, value)];
      if f.effect {
        if address == REGISTER_TEST_MODE {
          testMode := value;
        } else if address == REGISTER_DECIMATION {
          decimation := value;
        }
      }
      return f.ok;
    }

    /** ddd_read_register; the value means nothing after a failure. */
    method ReadRegister(address: uint8) returns (ok: bool, value: uint8)
      modifies this`log
      ensures log == old(log) + [ReadOf(address)]
      ensures ok <==> fate(|old(log)|).ok
      ensures ok && address == REGISTER_TEST_MODE ==> value == testMode
      ensures ok && address == REGISTER_DECIMATION ==> value == decimation
      ensures AsBus() == Read(old(AsBus()), address) && ok == Acked(AsWire(), old(AsBus()))
    {
      var f := fate(|log|);
      log := log + [ReadOf(address)];
      value := if address == REGISTER_TEST_MODE then testMode
               else if address == REGISTER_DECIMATION then decimation
               else 0;
      return f.ok, value;
    }

    method ReadIdentity() returns (ok: bool, id: seq<uint8>)
      modifies this`log
      ensures log == old(log) + [ReadOf(REGISTER_IDENTITY)]
      ensures ok <==> fate(|old(log)|).ok
      ensures ok ==> id == identity
      ensures AsBus() == Read(old(AsBus()), REGISTER_IDENTITY) && ok == Acked(AsWire(), old(AsBus()))
    {
      var f := fate(|log|);
      log := log + [ReadOf(REGISTER_IDENTITY)];
      return f.ok, identity;
    }

    /** Every transfer from number lo up to hi was acknowledged. */
    ghost predicate AllOk(lo: nat, hi: nat) {
      forall i :: lo <= i < hi ==> fate(i).ok
    }

    lemma AllOkFrom(n: nat, m: nat, k: nat)
      requires m == n || m == n + 1 <= k
      ensures AllOk(n, k) <==> (m == n || fate(n).ok) && AllOk(m, k)
    {
    }

    /** ddd_restore_safe_defaults: all four transfers are tried whatever fails. */
    method RestoreSafeDefaults() returns (r: Result)
      modifies this
      ensures collecting == old(collecting)
      ensures log == old(log) + RESTORE
      ensures r == if !AllOk(|old(log)|, |log|) then ControlFailure
                   else if testMode == 0 && decimation == FULL_RATE then OK
                   else ReadbackMismatch
      ensures (AsBus(), r) == Restored(AsWire(), old(AsBus()))
    {
      var transferFailed, mismatch := false, false;
      ghost var n := |log|;
      var ok := WriteRegister(REGISTER_TEST_MODE, 0);
      if !ok {
        transferFailed := true;
      }
      assert ok <==> fate(n).ok;
      ok := WriteRegister(REGISTER_DECIMATION, FULL_RATE);
      if !ok {
        transferFailed := true;
      }
      assert ok <==> fate(n + 1).ok;
      var value;
      ok, value := ReadRegister(REGISTER_TEST_MODE);
      if !ok {
        transferFailed := true;
      } else if value != 0 {
        mismatch := true;
      }
      assert ok <==> fate(n + 2).ok;
      ok, value := ReadRegister(REGISTER_DECIMATION);
      if !ok {
        transferFailed := true;
      } else if value != FULL_RATE {
        mismatch := true;
      }
      assert ok <==> fate(n + 3).ok;
      if transferFailed {
        return ControlFailure;
      }
      return if mismatch then ReadbackMismatch else OK;
    }
  }

  /** ddd_collection_state_t. */
  class Session {
    const link: Link
    var profile: Profile
    var decimationFactor: uint8
    var sampleRateHz: int
    var testMode: bool
    var configured: bool
    var startAttempted: bool
    var active: bool
    var rollbackAttempted: bool
    var rollbackSucceeded: bool
    var identity: seq<uint8>

    constructor (link: Link)
      ensures this.link == link && profile == NotDdd
      ensures !startAttempted && !active && !rollbackSucceeded && !configured
    {
      this.link := link;
      profile, decimationFactor, sampleRateHz, testMode := NotDdd, 0, 0, false;
      configured, startAttempted, active, rollbackAttempted, rollbackSucceeded := false, false, false, false, false;
      identity := [];
    }

    function AsSystem(): System
      reads this, link
    {
      System(Host(profile, decimationFactor, sampleRateHz, testMode, configured, startAttempted, active,
                  rollbackAttempted, rollbackSucceeded, identity), link.AsBus())
    }

    predicate Tracked()
      reads this, link
    {
      IsTracked(AsSystem())
    }

    /** ddd_collection_rollback_v1. Stop goes out only if a start was attempted; the
        four restoring transfers always do. */
    method Rollback() returns (r: Result)
      modifies this`configured, this`startAttempted, this`active, this`rollbackAttempted, this`rollbackSucceeded, link
      ensures profile != ProtocolV1 ==>
        r == UnsupportedProfile && link.log == old(link.log)
        && Tracked() == old(Tracked()) && startAttempted == old(startAttempted) && active == old(active)
        && link.collecting == old(link.collecting)
      ensures profile == ProtocolV1 ==>
        link.log == old(link.log) + (if old(startAttempted || active) then [STOP] else []) + RESTORE
      ensures profile == ProtocolV1 ==> (rollbackSucceeded <==> r == OK)
      ensures profile == ProtocolV1 ==> (r == OK <==>
        link.AllOk(|old(link.log)|, |link.log|) && link.testMode == 0 && link.decimation == FULL_RATE)
      ensures old(Tracked()) ==> Tracked()
      ensures r == OK && old(Tracked()) ==> link.SafeDefaults() && !startAttempted && !active
      ensures profile == ProtocolV1 && !old(startAttempted) && !old(active) ==>
        link.collecting == old(link.collecting) && !startAttempted && !active
      ensures !configured || profile != ProtocolV1
      ensures (AsSystem(), r) == RolledBack(link.AsWire(), old(AsSystem()))
    {
      hide Restored, Collected, IsTracked, AtSafeDefaults, Link.AllOk;
      RolledBackTracks(link.AsWire(), AsSystem());
      r := OK;
      var stopOk := true;
      if profile != ProtocolV1 {
        return UnsupportedProfile;
      }
      rollbackAttempted := true;
      ghost var n := |link.log|;
      if startAttempted || active {
        stopOk := link.Collect(false);
        if !stopOk {
          r := ControlFailure;
        }
      }
      ghost var m := |link.log|;
      var restore := link.RestoreSafeDefaults();
      link.AllOkFrom(n, m, |link.log|);
      if r == OK && restore != OK {
        r := restore;
      }
      if stopOk {
        startAttempted := false;
        active := false;
      }
      configured := false;
      rollbackSucceeded := r == OK;
    }

    /** ddd_collection_state_init and the fields set before the first transfer. */
    method Prepare(test: bool, factor: uint8)
      modifies this
      ensures profile == ProtocolV1 && !configured && !startAttempted && !active && !rollbackSucceeded
      ensures testMode == test && decimationFactor == factor
      ensures AsSystem() == old(AsSystem()).(host := Prepared(test, factor))
    {
      configured, startAttempted, active, rollbackAttempted, rollbackSucceeded := false, false, false, false, false;
      identity := [];
      profile := ProtocolV1;
      testMode := test;
      decimationFactor := factor;
      sampleRateHz := SampleRate(factor);
    }

    /** The four transfers of ddd_collection_start_v1 that configure the device and
        verify it by reading back, up to the first that fails. */
    method Configure(test: bool, factor: uint8) returns (r: Result)
      modifies link
      ensures link.collecting == old(link.collecting)
      ensures r == OK || r == ControlFailure || r == ReadbackMismatch
      ensures r == OK ==> link.testMode == TestValue(test) && link.decimation == factor
      ensures r == OK ==> link.log == old(link.log) + ConfigureOrder(test, factor)
      ensures old(link.log) <= link.log && NoStart(link.log[|old(link.log)|..])
      ensures (link.AsBus(), r) == Configured(link.AsWire(), old(link.AsBus()), test, factor)
    {
      var ok := link.WriteRegister(REGISTER_TEST_MODE, TestValue(test));
      if ok {
        ok := link.WriteRegister(REGISTER_DECIMATION, factor);
      }
      if !ok {
        return ControlFailure;
      }
      var readback;
      ok, readback := link.ReadRegister(REGISTER_TEST_MODE);
      if !ok {
        return ControlFailure;
      }
      if readback != TestValue(test) {
        return ReadbackMismatch;
      }
      ok, readback := link.ReadRegister(REGISTER_DECIMATION);
      if !ok {
        return ControlFailure;
      }
      if readback != factor {
        return ReadbackMismatch;
      }
      return OK;
    }

    /** The start request itself, once the device is configured. */
    method Launch() returns (r: Result)
      requires profile == ProtocolV1 && !active && !rollbackSucceeded
      modifies this`configured, this`startAttempted, this`active, this`rollbackAttempted, this`rollbackSucceeded, link
      ensures r == OK || r == ControlFailure
      ensures r == OK ==> link.collecting && configured && active && startAttempted && !rollbackSucceeded
      ensures r == OK ==> link.testMode == old(link.testMode) && link.decimation == old(link.decimation)
      ensures link.log == old(link.log) + [START] + if r == OK then [] else [STOP] + RESTORE
      ensures r != OK ==> !configured
      ensures Tracked()
      ensures (AsSystem(), r) == Launched(link.AsWire(), old(AsSystem()))
    {
      hide RolledBack;
      configured := true;
      startAttempted := true;
      var ok := link.Collect(true);
      if !ok {
        var _ := Rollback();
        return ControlFailure;
      }
      active := true;
      return OK;
    }

    /** Everything before the start request: identity, configuration, verification.
        A failure to configure rolls back without a stop, since nothing was started. */
    method Approach(test: bool, factor: uint8) returns (r: Result)
      requires profile == ProtocolV1 && !configured && !active && !startAttempted && !rollbackSucceeded
      requires DecimationSupported(factor)
      modifies this`identity, this`configured, this`startAttempted, this`active,
               this`rollbackAttempted, this`rollbackSucceeded, link
      ensures link.collecting == old(link.collecting) && !configured && !active && !startAttempted
      ensures r == OK ==> IdentitySupported(link.identity) && identity == link.identity && !rollbackSucceeded
      ensures r == OK ==> link.testMode == TestValue(test) && link.decimation == factor
      ensures r == OK ==> link.log == old(link.log) + ([ReadOf(REGISTER_IDENTITY)] + ConfigureOrder(test, factor))
      ensures old(link.log) <= link.log && NoStart(link.log[|old(link.log)|..])
      ensures Tracked() <==> !old(link.collecting)
      ensures (AsSystem(), r) == Approached(link.AsWire(), old(AsSystem()), test, factor)
    {
      hide Configured, RolledBack, IdentitySupported;
      ghost var log0 := link.log;
      var ok, id := link.ReadIdentity();
      if !ok {
        return ControlFailure;
      }
      if !IdentitySupported(id) {
        return IdentityMismatch;
      }
      identity := id;
      ghost var log1 := link.log;
      r := Configure(test, factor);
      ghost var log2 := link.log;
      assert log2[|log0|..] == [ReadOf(REGISTER_IDENTITY)] + log2[|log1|..];
      if r != OK {
        // Each failing step rolls back and then returns its own code.
        var _ := Rollback();
        assert link.log[|log0|..] == log2[|log0|..] + RESTORE;
      }
    }

    /** ddd_collection_start_v1. It forgets what the host knew, so afterwards the
        host knows about a collecting device if and only if the device was not
        collecting before or the start request went out this time. */
    method Start(test: bool, factor: uint8) returns (r: Result)
      modifies this, link
      ensures |old(link.log)| <= |link.log|
      ensures r == OK ==> link.log == old(link.log) + StartOrder(test, factor)
      ensures r == OK ==> DecimationSupported(factor) && IdentitySupported(link.identity) && identity == link.identity
      ensures r == OK ==> link.collecting && link.testMode == TestValue(test) && link.decimation == factor
      ensures r == OK ==> configured && active && startAttempted && !rollbackSucceeded
      ensures r != OK ==> !configured
      ensures !DecimationSupported(factor) ==> r == UnsupportedDecimation && link.log == old(link.log)
      ensures Tracked() <==> !old(link.collecting) || !NoStart(link.log[|old(link.log)|..])
      ensures old(Tracked()) && !old(startAttempted) ==> Tracked()
      ensures (AsSystem(), r) == Started(link.AsWire(), old(AsSystem()), test, factor)
    {
      hide Approached, Launched, Prepared;
      Prepare(test, factor);
      if !DecimationSupported(factor) {
        return UnsupportedDecimation;
      }
      ghost var log0 := link.log;
      r := Approach(test, factor);
      if r != OK {
        return;
      }
      ghost var log1 := link.log;
      assert log1[|log0|..] == [ReadOf(REGISTER_IDENTITY)] + ConfigureOrder(test, factor);
      r := Launch();
      assert link.log[|log1|] == START;
      assert link.log[|log0|..][|log1| - |log0|] == START;
    }

    /** ddd_collection_stop_v1. */
    method Stop() returns (r: Result)
      modifies this`startAttempted, this`active, link
      ensures profile != ProtocolV1 ==> r == UnsupportedProfile && link.log == old(link.log)
      ensures old(Tracked()) ==> Tracked()
      ensures r == OK && old(Tracked()) ==> !link.collecting && !startAttempted && !active
      ensures r == ControlFailure ==> startAttempted == old(startAttempted) && active == old(active)
      ensures (AsSystem(), r) == Stopped(link.AsWire(), old(AsSystem()))
    {
      if profile != ProtocolV1 {
        return UnsupportedProfile;
      }
      if !startAttempted && !active {
        return OK;
      }
      var ok := link.Collect(false);
      if !ok {
        return ControlFailure;
      }
      startAttempted := false;
      active := false;
      return OK;
    }

    /** Any list of calls, with the trace of what each of them did. */
    method RunAll(calls: seq<Call>) returns (ghost trace: seq<Event>)
      modifies this, link
      ensures AsSystem() == RunOf(link.AsWire(), old(AsSystem()), calls)
      ensures trace == TraceOf(link.AsWire(), old(AsSystem()), calls)
      ensures old(Tracked()) && Disciplined(link.AsWire(), old(AsSystem()), calls) ==>
        Tracked() && forall e :: e in trace ==> Kept(e)
    {
      hide Started, Stopped, RolledBack, IsTracked, Kept;
      trace := [];
      ghost var w, start := link.AsWire(), AsSystem();
      var i := 0;
      while i < |calls|
        invariant 0 <= i <= |calls|
        invariant RunOf(w, start, calls) == RunOf(w, AsSystem(), calls[i..])
        invariant TraceOf(w, start, calls) == trace + TraceOf(w, AsSystem(), calls[i..])
      {
        ghost var before := AsSystem();
        var r;
        match calls[i] {
          case CallStart(test, factor) => r := Start(test, factor);
          case CallStop => r := Stop();
          case CallRollback => r := Rollback();
        }
        assert calls[i..][0] == calls[i] && calls[i..][1..] == calls[i + 1..];
        ghost var e := Event(calls[i], r, before, AsSystem());
        ghost var rest := TraceOf(w, AsSystem(), calls[i + 1..]);
        assert trace + ([e] + rest) == trace + [e] + rest;
        trace := trace + [e];
        i := i + 1;
      }
      if IsTracked(start) && Disciplined(w, start, calls) {
        RunKeepsTrack(w, start, calls);
      }
    }
  }

  // ----- Runs -----

  datatype Call = CallStart(test: bool, factor: uint8) | CallStop | CallRollback

  function Performed(w: Wire, s: System, call: Call): (System, Result) {
    match call
    case CallStart(test, factor) => Started(w, s, test, factor)
    case CallStop => Stopped(w, s)
    case CallRollback => RolledBack(w, s)
  }

  function RunOf(w: Wire, s: System, calls: seq<Call>): System
    decreases |calls|
  {
    if calls == [] then s else RunOf(w, Performed(w, s, calls[0]).0, calls[1..])
  }

  /** One call of a run. */
  datatype Event = Event(call: Call, result: Result, before: System, after: System)

  function TraceOf(w: Wire, s: System, calls: seq<Call>): seq<Event>
    decreases |calls|
  {
    if calls == [] then []
    else
      var (s', r) := Performed(w, s, calls[0]);
      [Event(calls[0], r, s, s')] + TraceOf(w, s', calls[1..])
  }

  /** The host starts only when it believes that nothing is started. */
  predicate Disciplined(w: Wire, s: System, calls: seq<Call>)
    decreases |calls|
  {
    calls == []
    || ((calls[0].CallStart? ==> !s.host.startAttempted && !s.host.active)
        && Disciplined(w, Performed(w, s, calls[0]).0, calls[1..]))
  }

  /** What the protocol promises of one call: a collecting device stays known, and a
      reported success means what it says. */
  predicate Kept(e: Event) {
    var d, h := e.after.bus.device, e.after.host;
    && IsTracked(e.after)
    && (e.result == OK ==>
          match e.call
          case CallStart(test, factor) =>
            && e.after.bus.log == e.before.bus.log + StartOrder(test, factor)
            && d == Device(TestValue(test), factor, true)
            && h.active && h.startAttempted && h.configured
          case CallStop =>
            && e.before.host.profile == ProtocolV1
            && !d.collecting && !h.startAttempted && !h.active
          case CallRollback =>
            && e.after.bus.log == e.before.bus.log + (if e.before.host.startAttempted then [STOP] else []) + RESTORE
            && AtSafeDefaults(d) && !h.startAttempted && !h.active && h.rollbackSucceeded)
  }

  lemma RolledBackKeeps(w: Wire, s: System)
    requires IsTracked(s)
    ensures var (s', r) := RolledBack(w, s); Kept(Event(CallRollback, r, s, s'))
  {
  }

  lemma StoppedKeeps(w: Wire, s: System)
    requires IsTracked(s)
    ensures var (s', r) := Stopped(w, s); Kept(Event(CallStop, r, s, s'))
  {
  }

  lemma ConfiguredFacts(w: Wire, b: Bus, test: bool, factor: uint8)
    ensures var (b', r) := Configured(w, b, test, factor);
      && b'.device.collecting == b.device.collecting
      && (r == OK ==> b'.device == Device(TestValue(test), factor, b.device.collecting))
      && (r == OK ==> b'.log == b.log + ConfigureOrder(test, factor))
  {
  }

  lemma ApproachedFacts(w: Wire, s: System, test: bool, factor: uint8)
    requires s.host == Prepared(test, factor)
    ensures var (s', r) := Approached(w, s, test, factor); var d, h := s'.bus.device, s'.host;
      && d.collecting == s.bus.device.collecting
      && h.profile == ProtocolV1 && !h.startAttempted && !h.active
      && (!d.collecting ==> IsTracked(s'))
      && (r == OK ==> d == Device(TestValue(test), factor, d.collecting) && !h.rollbackSucceeded)
      && (r == OK ==> s'.bus.log == s.bus.log + ([ReadOf(REGISTER_IDENTITY)] + ConfigureOrder(test, factor)))
  {
    hide Configured, IdentitySupported;
    ConfiguredFacts(w, Read(s.bus, REGISTER_IDENTITY), test, factor);
  }

  lemma LaunchedFacts(w: Wire, s: System)
    requires var h := s.host; h.profile == ProtocolV1 && !h.startAttempted && !h.active && !h.rollbackSucceeded
    ensures var (s', r) := Launched(w, s);
      && IsTracked(s')
      && (r == OK ==> s'.bus == Bus(s.bus.device.(collecting := true), s.bus.log + [START]))
      && (r == OK ==> s'.host.active && s'.host.startAttempted && s'.host.configured)
  {
  }

  /** A start on a device that is not collecting. */
  lemma StartedKeeps(w: Wire, s: System, test: bool, factor: uint8)
    requires !s.bus.device.collecting
    ensures var (s', r) := Started(w, s, test, factor); Kept(Event(CallStart(test, factor), r, s, s'))
  {
    hide Approached, Launched;
    var s0 := s.(host := Prepared(test, factor));
    ApproachedFacts(w, s0, test, factor);
    var (s1, r) := Approached(w, s0, test, factor);
    if r == OK {
      LaunchedFacts(w, s1);
      assert s.bus.log + ([ReadOf(REGISTER_IDENTITY)] + ConfigureOrder(test, factor)) + [START]
        == s.bus.log + StartOrder(test, factor);
    }
  }

  /** A host that starts only when it believes that nothing is started keeps track of
      the device over every run, whatever becomes of the transfers, and every
      success that it reports is true. */
  lemma {:induction false} RunKeepsTrack(w: Wire, s: System, calls: seq<Call>)
    requires IsTracked(s) && Disciplined(w, s, calls)
    ensures IsTracked(RunOf(w, s, calls)) && forall e :: e in TraceOf(w, s, calls) ==> Kept(e)
    decreases |calls|
  {
    hide Started, Stopped, RolledBack;
    if calls != [] {
      match calls[0] {
        case CallStart(test, factor) => StartedKeeps(w, s, test, factor);
        case CallStop => StoppedKeeps(w, s);
        case CallRollback => RolledBackKeeps(w, s);
      }
      RunKeepsTrack(w, Performed(w, s, calls[0]).0, calls[1..]);
    }
  }

  // ----- Starting while the device collects -----

  /** Exact condition: whatever becomes of its transfers, a start leaves no collecting
      device unknown to the host, if and only if the device is not collecting. */
  lemma StartKeepsTrackExactly(s: System, identity: seq<uint8>, test: bool, factor: uint8)
    ensures !s.bus.device.collecting
      <==> forall fate: nat -> Fate :: IsTracked(Started(Wire(identity, fate), s, test, factor).0)
  {
    if s.bus.device.collecting {
      var nothing: nat -> Fate := _ => Fate(false, false);
      assert !IsTracked(Started(Wire(identity, nothing), s, test, factor).0);
    } else {
      forall fate: nat -> Fate ensures IsTracked(Started(Wire(identity, fate), s, test, factor).0) {
        StartedKeeps(Wire(identity, fate), s, test, factor);
      }
    }
  }

  /** A host state that can be right about some device. */
  predicate Consistent(h: Host) {
    (h.active ==> h.startAttempted) && (h.rollbackSucceeded ==> !h.startAttempted)
  }

  /** Exact condition on the host's own state: whatever the device that it is right
      about, and whatever becomes of the transfers, a start leaves no collecting device
      unknown, if and only if the host has attempted no start. */
  lemma HostStartsSafelyExactly(h: Host, identity: seq<uint8>, test: bool, factor: uint8)
    requires Consistent(h)
    ensures !h.startAttempted
      <==> forall b: Bus, fate: nat -> Fate | IsTracked(System(h, b)) ::
             IsTracked(Started(Wire(identity, fate), System(h, b), test, factor).0)
  {
    if h.startAttempted {
      var b := Bus(Device(0, FULL_RATE, true), []);
      var nothing: nat -> Fate := _ => Fate(false, false);
      assert IsTracked(System(h, b));
      assert !IsTracked(Started(Wire(identity, nothing), System(h, b), test, factor).0);
    } else {
      forall b: Bus, fate: nat -> Fate | IsTracked(System(h, b))
        ensures IsTracked(Started(Wire(identity, fate), System(h, b), test, factor).0)
      {
        StartedKeeps(Wire(identity, fate), System(h, b), test, factor);
      }
    }
  }

  /** A run that gets there on a faultless wire: after a successful start, a start
      with an unsupported factor makes the host forget it. From then on stop reports
      success without sending anything, and rollback reports success, while the
      device goes on collecting. */
  lemma ForgottenSession(s: System, identity: seq<uint8>, test: bool)
    requires IdentitySupported(identity)
    ensures var w := Wire(identity, _ => Fate(true, true));
      var (s1, r1) := Started(w, s, test, FULL_RATE);
      var (s2, r2) := Started(w, s1, test, 3);
      var (s3, r3) := Stopped(w, s2);
      var (s4, r4) := RolledBack(w, s3);
      && r1 == OK && r2 == UnsupportedDecimation
      && s2.bus.device.collecting && !s2.host.startAttempted
      && r3 == OK && s3 == s2
      && r4 == OK && s4.host.rollbackSucceeded && s4.bus.device.collecting
  {
  }

  /** No start request among these transfers. */
  predicate NoStart(log: seq<Transfer>) {
    START !in log
  }
}
