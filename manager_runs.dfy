/** Sequences of manager operations: what repeated calls do, and the
    ownership accounting that holds over any run from boot (a netif or an
    event loop is only ever destroyed by the module that created it, and at
    most one station netif is alive at a time). */
module ManagerRuns {
  import opened EspIdf
  import opened CStrings
  import opened AuthModes
  import opened ManagerSpec

  /** One call into the manager, with the driver results it meets. */
  datatype Op =
    | InitOp(io: InitOutcomes)
    | DeinitOp(d: DeinitOutcomes)
    | ScanOp(room: Room, so: ScanOutcomes)
    | EventOp(base: EventBase, id: int32)
    | ConnectOp(name: seq<uint8>, key: seq<uint8>, configResult: EspErr, connectResult: EspErr)

  function Apply(m: Manager, op: Op): (r: Step)
    requires Valid(m)
    ensures Valid(r.m)
  {
    match op
    case InitOp(o) => InitStep(m, o)
    case DeinitOp(o) => DeinitStep(m, o)
    case ScanOp(room, o) => ScanWithCapacity(m, o, room)
    case EventOp(b, id) => Step(HandleEvent(m, b, id), Ok, [])
    case ConnectOp(s, p, a, c) => ConnectStep(m, s, p, a, c)
  }

  /** A scan in a run is either program's scan: room 0 is the scan as
      written, room ApListCapacity the corrected one. */
  lemma ScanOpIsEitherScan(m: Manager, o: ScanOutcomes)
    requires Valid(m)
    ensures Apply(m, ScanOp(0, o)) == ScanStepAsWritten(m, o)
    ensures Apply(m, ScanOp(ApListCapacity, o)) == ScanStep(m, o)
  {
  }

  /** The operations one after another; an abort ends the run, as abort()
      ends the program. The status is that of the last operation run. */
  function Run(m: Manager, ops: seq<Op>): (r: Step)
    requires Valid(m)
    ensures Valid(r.m)
    decreases |ops|
  {
    if ops == [] then Step(m, Ok, [])
    else
      var s := Apply(m, ops[0]);
      if s.status.Abort? || |ops| == 1 then s
      else
        var rest := Run(s.m, ops[1..]);
        Step(rest.m, rest.status, s.calls + rest.calls)
  }

  // ---------------------------------------------------------------------
  // Repeated init
  // ---------------------------------------------------------------------

  /** One init per outcome, in order. */
  function InitOps(os: seq<InitOutcomes>): (ops: seq<Op>)
    ensures |ops| == |os|
    ensures forall i :: 0 <= i < |os| ==> ops[i] == InitOp(os[i])
  {
    if os == [] then [] else [InitOp(os[0])] + InitOps(os[1..])
  }

  /** Once initialised, any number of inits is a silent success. */
  lemma {:induction false} InitsWhenInitedAreNoOps(m: Manager, os: seq<InitOutcomes>)
    requires Valid(m) && m.wifiInited
    ensures Run(m, InitOps(os)) == Step(m, Ok, [])
  {
    if os != [] {
      assert InitOps(os)[1..] == InitOps(os[1..]);
      InitsWhenInitedAreNoOps(m, os[1..]);
    }
  }

  /** Any sequence of inits with no deinit between them brings the radio up
      at most once: the whole run makes the first init's calls and no more,
      and ends in the state the first init left. */
  lemma RepeatedInitSingleBringUp(m: Manager, os: seq<InitOutcomes>)
    requires Valid(m) && |os| >= 1
    ensures var first := InitStep(m, os[0]);
      var r := Run(m, InitOps(os));
      && r.m == first.m && r.calls == first.calls
      && r.status == (if |os| == 1 || first.status.Abort? then first.status else Ok)
  {
    var first := InitStep(m, os[0]);
    InitLeavesInited(m, os[0], os[0]);
    if |os| > 1 && !first.status.Abort? {
      assert InitOps(os)[1..] == InitOps(os[1..]);
      InitsWhenInitedAreNoOps(first.m, os[1..]);
    }
  }

  // ---------------------------------------------------------------------
  // Ownership accounting
  // ---------------------------------------------------------------------

  /** The changes to the resources the manager tracks that a call can make. */
  datatype Event = NetifCreated | NetifDestroyed | LoopCreated | LoopDeleted

  /** A non-null netif created, a netif destroyed, a default loop created
      or deleted successfully; no other call changes the resources. */
  predicate Records(c: DriverCall, e: Event)
  {
    match e
    case NetifCreated => c.CreateDefaultWifiSta? && c.created != Null
    case NetifDestroyed => c.NetifDestroy?
    case LoopCreated => c.EventLoopCreateDefault? && c.result == EspOk
    case LoopDeleted => c.EventLoopDeleteDefault? && c.result == EspOk
  }

  /** A call that changes none of the resources. */
  predicate Plain(c: DriverCall)
  {
    !c.CreateDefaultWifiSta? && !c.NetifDestroy? && !c.EventLoopCreateDefault? && !c.EventLoopDeleteDefault?
  }

  /** How many of the calls record `e`. */
  function Count(cs: seq<DriverCall>, e: Event): nat
  {
    if cs == [] then 0 else (if Records(cs[0], e) then 1 else 0) + Count(cs[1..], e)
  }

  lemma {:induction false} CountAppend(a: seq<DriverCall>, b: seq<DriverCall>, e: Event)
    ensures Count(a + b, e) == Count(a, e) + Count(b, e)
  {
    if a == [] {
      assert a + b == b;
    } else {
      assert (a + b)[1..] == a[1..] + b;
      CountAppend(a[1..], b, e);
    }
  }

  lemma {:induction false} CountPlain(cs: seq<DriverCall>, e: Event)
    requires forall c :: c in cs ==> Plain(c)
    ensures Count(cs, e) == 0
  {
    if cs != [] {
      assert cs[0] in cs;
      CountPlain(cs[1..], e);
    }
  }

  lemma CountOne(c: DriverCall, e: Event)
    ensures Count([c], e) == if Records(c, e) then 1 else 0
  {
    assert [c][1..] == [];
  }

  /** 1 when a station netif is held, 0 when not. */
  function Held(h: Handle): nat
  {
    if h == Null then 0 else 1
  }

  /** 1 when this module owns the default event loop. */
  function Owned(b: bool): nat
  {
    if b then 1 else 0
  }

  /** Going from m to n through the calls cs adds what cs creates to what
      m holds and takes away what cs destroys. */
  predicate Balanced(m: Manager, cs: seq<DriverCall>, n: Manager)
  {
    && Held(n.netif) + Count(cs, NetifDestroyed) == Held(m.netif) + Count(cs, NetifCreated)
    && Owned(n.eventLoopCreated) + Count(cs, LoopDeleted) == Owned(m.eventLoopCreated) + Count(cs, LoopCreated)
  }

  /** A step whose calls account for its change of resources. */
  predicate Accounted(m: Manager, r: Step)
  {
    Balanced(m, r.calls, r.m)
  }

  /** Balances compose along a run. */
  lemma BalancedChain(m: Manager, a: seq<DriverCall>, k: Manager, b: seq<DriverCall>, n: Manager)
    requires Balanced(m, a, k) && Balanced(k, b, n)
    ensures Balanced(m, a + b, n)
  {
    CountAppend(a, b, NetifCreated);
    CountAppend(a, b, NetifDestroyed);
    CountAppend(a, b, LoopCreated);
    CountAppend(a, b, LoopDeleted);
  }

  /** Plain calls keep the balance of a state with itself. */
  lemma PlainBalanced(m: Manager, cs: seq<DriverCall>)
    requires forall c :: c in cs ==> Plain(c)
    ensures Balanced(m, cs, m)
  {
    CountPlain(cs, NetifCreated);
    CountPlain(cs, NetifDestroyed);
    CountPlain(cs, LoopCreated);
    CountPlain(cs, LoopDeleted);
  }

  /** The balance of a single call. */
  lemma OneBalanced(m: Manager, c: DriverCall, n: Manager)
    requires Held(n.netif) + (if Records(c, NetifDestroyed) then 1 else 0) == Held(m.netif) + (if Records(c, NetifCreated) then 1 else 0)
    requires Owned(n.eventLoopCreated) + (if Records(c, LoopDeleted) then 1 else 0) == Owned(m.eventLoopCreated) + (if Records(c, LoopCreated) then 1 else 0)
    ensures Balanced(m, [c], n)
  {
    CountOne(c, NetifCreated);
    CountOne(c, NetifDestroyed);
    CountOne(c, LoopCreated);
    CountOne(c, LoopDeleted);
  }

  lemma ChecksArePlain(m: Manager, steps: seq<(DriverCall, EspErr)>)
    requires forall i :: 0 <= i < |steps| ==> Plain(steps[i].0)
    ensures Balanced(m, Checked(steps).1, m)
  {
    var cs := Checked(steps).1;
    forall c | c in cs ensures Plain(c) {
      var i :| 0 <= i < |cs| && cs[i] == c;
    }
    PlainBalanced(m, cs);
  }

  lemma RadioPlain(m: Manager, o: InitOutcomes)
    ensures Accounted(m, RadioStage(m, o))
  {
    PlainBalanced(m, RadioStage(m, o).calls);
  }

  lemma StationAccounted(m: Manager, o: InitOutcomes)
    ensures Accounted(m, StationStage(m, o))
  {
    if m.netif == Null {
      var n := m.(netif := o.staNetif);
      var t := RadioStage(n, o);
      RadioPlain(n, o);
      OneBalanced(m, CreateDefaultWifiSta(o.staNetif), n);
      BalancedChain(m, [CreateDefaultWifiSta(o.staNetif)], n, t.calls, n);
    } else {
      RadioPlain(m, o);
    }
  }

  lemma EventLoopAccounted(m: Manager, o: InitOutcomes)
    ensures Accounted(m, EventLoopStage(m, o))
  {
    var c := EventLoopCreateDefault(o.loopCreate);
    if m.eventLoopCreated {
      StationAccounted(m, o);
    } else if o.loopCreate == EspOk || o.loopCreate == ErrInvalidState {
      var n := m.(eventLoopCreated := o.loopCreate == EspOk);
      var t := StationStage(n, o);
      StationAccounted(n, o);
      OneBalanced(m, c, n);
      BalancedChain(m, [c], n, t.calls, t.m);
    } else {
      OneBalanced(m, c, m);
    }
  }

  lemma InitAccounted(m: Manager, o: InitOutcomes)
    ensures Accounted(m, InitStep(m, o))
  {
    if !m.wifiInited {
      var nvs := NvsBringUp(o);
      var m1 := m.(wifiInited := true, scanDoneBit := false);
      PlainBalanced(m, nvs.0);
      PlainBalanced(m1, nvs.0);
      PlainBalanced(m1, [NetifInit]);
      if nvs.1 == EspOk {
        if o.netifInit == EspOk {
          var e := EventLoopStage(m1, o);
          EventLoopAccounted(m1, o);
          BalancedChain(m1, [NetifInit], m1, e.calls, e.m);
        }
        var t := TcpipStage(m1, o);
        BalancedChain(m, nvs.0, m1, t.calls, t.m);
      }
    }
  }

  lemma LoopTeardownAccounted(m: Manager, o: DeinitOutcomes)
    ensures Accounted(m, LoopTeardown(m, o))
  {
    var r := LoopTeardown(m, o);
    if m.eventLoopCreated {
      OneBalanced(m, EventLoopDeleteDefault(o.loopDelete), r.m);
    }
  }

  lemma NetifTeardownAccounted(m: Manager, o: DeinitOutcomes)
    ensures Accounted(m, NetifTeardown(m, o))
  {
    if m.netif != Null {
      var n := m.(netif := Null);
      var t := LoopTeardown(n, o);
      LoopTeardownAccounted(n, o);
      OneBalanced(m, NetifDestroy(m.netif), n);
      BalancedChain(m, [NetifDestroy(m.netif)], n, t.calls, t.m);
    } else {
      LoopTeardownAccounted(m, o);
    }
  }

  lemma DeinitAccounted(m: Manager, o: DeinitOutcomes)
    ensures Accounted(m, DeinitStep(m, o))
  {
    var head := Checked([(WifiStop, o.stop), (WifiDeinit, o.deinit)]);
    ChecksArePlain(m, [(WifiStop, o.stop), (WifiDeinit, o.deinit)]);
    if m.wifiInited && head.0 == Ok {
      var n := m.(wifiInited := false);
      var t := NetifTeardown(n, o);
      ChecksArePlain(n, [(WifiStop, o.stop), (WifiDeinit, o.deinit)]);
      NetifTeardownAccounted(n, o);
      BalancedChain(m, head.1, n, t.calls, t.m);
    }
  }

  lemma ApplyAccounted(m: Manager, op: Op)
    requires Valid(m)
    ensures Accounted(m, Apply(m, op))
  {
    var r := Apply(m, op);
    match op
    case InitOp(o) => InitAccounted(m, o);
    case DeinitOp(o) => DeinitAccounted(m, o);
    case ScanOp(room, o) =>
      PlainBalanced(m, r.calls);
      PlainBalanced(r.m, r.calls);
    case EventOp(b, id) =>
    case ConnectOp(s, p, a, c) =>
      ChecksArePlain(m, [(SetStaConfig(StationConfig(s, p)), a), (WifiConnect, c)]);
  }

  /** Over any run, the netif and the event loop held at the end are those
      held at the start plus those the run created minus those it destroyed. */
  lemma {:induction false} RunAccounted(m: Manager, ops: seq<Op>)
    requires Valid(m)
    decreases |ops|
    ensures Balanced(m, Run(m, ops).calls, Run(m, ops).m)
  {
    if ops != [] {
      var s := Apply(m, ops[0]);
      ApplyAccounted(m, ops[0]);
      if !s.status.Abort? && |ops| > 1 {
        var rest := Run(s.m, ops[1..]);
        RunAccounted(s.m, ops[1..]);
        BalancedChain(m, s.calls, s.m, rest.calls, rest.m);
      }
    }
  }

  /** From boot, whatever the calls and the driver's answers: the netifs
      created and not destroyed are exactly the one s_netif holds, so
      there are never two; and deinit has never deleted more default loops
      than this module created, the difference being s_event_loop_created. */
  lemma OwnershipFromBoot(ops: seq<Op>)
    ensures var r := Run(Initial, ops);
      && Count(r.calls, NetifCreated) - Count(r.calls, NetifDestroyed) == Held(r.m.netif) <= 1
      && Count(r.calls, LoopCreated) - Count(r.calls, LoopDeleted) == Owned(r.m.eventLoopCreated) <= 1
  {
    RunAccounted(Initial, ops);
  }

  // ---------------------------------------------------------------------
  // The Wi-Fi switch of the settings screen
  // ---------------------------------------------------------------------

  /** The SSID each cached record shows on its list button. */
  function Ssids(recs: seq<ApRecord>): (r: seq<seq<uint8>>)
    ensures |r| == |recs|
    ensures forall i :: 0 <= i < |recs| ==> r[i] == CString(recs[i].ssid)
  {
    if recs == [] then [] else [CString(recs[0].ssid)] + Ssids(recs[1..])
  }

  /** The switch turned on: init, a scan only when init returned OK (with
      the fetch told `capacity`), then one button per cached record, shown
      whether or not the scan worked. The pair holds the manager's step and
      the SSIDs listed; an abort ends the program before anything is
      listed. */
  function SwitchOnWith(m: Manager, io: InitOutcomes, so: ScanOutcomes, capacity: nat): (r: (Step, seq<seq<uint8>>))
    requires Valid(m) && capacity <= ApListCapacity
    ensures Valid(r.0.m)
  {
    var i := InitStep(m, io);
    if i.status.Abort? then (i, [])
    else
      var s := if i.status == Ok then ScanWithCapacity(i.m, so, capacity) else Step(i.m, i.status, []);
      (Step(s.m, s.status, i.calls + s.calls), Ssids(Cached(s.m)))
  }

  /** The list shows exactly the cached records, in order and within
      ap_list's bounds, even after a failed init or scan; when init failed
      no scan was attempted. */
  lemma SwitchOnListsCache(m: Manager, io: InitOutcomes, so: ScanOutcomes, capacity: nat)
    requires Valid(m) && capacity <= ApListCapacity
    ensures var r := SwitchOnWith(m, io, so, capacity);
      && !r.0.status.Abort? ==> r.1 == Ssids(Cached(r.0.m)) && |r.1| == r.0.m.apCount <= ApListCapacity
    ensures var r := SwitchOnWith(m, io, so, capacity);
      InitStep(m, io).status.Err? ==> ScanStart !in r.0.calls && r.0.m == InitStep(m, io).m
  {
    var i := InitStep(m, io);
    if i.status.Err? {
      assert SwitchOnWith(m, io, so, capacity).0.calls == i.calls;
      forall c | c in i.calls ensures c != ScanStart {
        var k :| 0 <= k < |i.calls| && i.calls[k] == c;
        if !m.wifiInited {
          var nvs := NvsBringUp(io);
          assert k < |nvs.0| + 2;
        }
      }
    }
  }

  // ---------------------------------------------------------------------
  // The scan finding, on a concrete run
  // ---------------------------------------------------------------------

  /** A 33-byte ssid buffer holding `name`. */
  function SsidBuffer(name: seq<uint8>): (b: seq<uint8>)
    requires |name| < 33 && forall i :: 0 <= i < |name| ==> name[i] != 0
    ensures |b| == 33 && CString(b) == name
  {
    CStringOfTerminated(name, seq(32 - |name|, _ => 0 as uint8));
    assert name + seq(33 - |name|, _ => 0 as uint8) == name + [0] + seq(32 - |name|, _ => 0 as uint8);
    name + seq(33 - |name|, _ => 0 as uint8)
  }

  const Net1: seq<uint8> := [78, 101, 116, 49]
  const Net2: seq<uint8> := [78, 101, 116, 50]
  const Net3: seq<uint8> := [78, 101, 116, 51]

  function Network(name: seq<uint8>, mode: nat): ApRecord
    requires |name| < 33 && forall i :: 0 <= i < |name| ==> name[i] != 0
  {
    ApRecord(seq(6, _ => 0 as uint8), SsidBuffer(name), 0, 0, mode, 0, 0)
  }

  /** Every driver call succeeds; the station netif comes back as handle 1. */
  const AllOk: InitOutcomes := InitOutcomes(EspOk, EspOk, EspOk, EspOk, EspOk, Ptr(1), EspOk, EspOk, EspOk, EspOk, EspOk)

  /** The radio finds "Net1" (open), "Net2" (WPA2-PSK) and "Net3" (WPA3-PSK). */
  function ThreeNetworks(): ScanOutcomes
  {
    ScanOutcomes(EspOk, EspOk, [Network(Net1, AuthOpen), Network(Net2, AuthWpa2Psk), Network(Net3, AuthWpa3Psk)])
  }

  /** As written, switching Wi-Fi on at boot with three networks in range
      lists none of them: the fetch is told there is room for 0 records. */
  lemma SwitchOnAsWrittenListsNothing()
    ensures var r := SwitchOnWith(Initial, AllOk, ThreeNetworks(), 0);
      r.0.status == Ok && r.0.m.apCount == 0 && r.1 == []
  {
  }

  /** Corrected, the same run lists the three networks, their count is 3 and
      the second one is labelled "WPA2_PSK". */
  lemma SwitchOnListsThreeNetworks()
    ensures var r := SwitchOnWith(Initial, AllOk, ThreeNetworks(), ApListCapacity);
      && r.0.status == Ok && r.0.m.apCount == 3
      && r.1 == [Net1, Net2, Net3]
      && AuthModeStr(Cached(r.0.m)[1].authMode) == "WPA2_PSK"
  {
    var r := SwitchOnWith(Initial, AllOk, ThreeNetworks(), ApListCapacity);
    var init := InitStep(Initial, AllOk);
    assert init.status == Ok;
    ScanCachesFoundRecords(init.m, ThreeNetworks());
    assert Cached(r.0.m) == ThreeNetworks().found;
  }
}
