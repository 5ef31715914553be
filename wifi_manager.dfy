/** The Wi-Fi manager with its statics as the fields of one object, each
    public function of example/main/wifi_manager.c as a method that updates
    them in place. Every method is proved to do exactly what the matching
    step function of ManagerSpec says. */
module WifiManagerImpl {
  import opened EspIdf
  import opened CStrings
  import opened ManagerSpec

  class WifiManager {
    /** static wifi_ap_record_t ap_list[50] */
    var apList: array<ApRecord>
    /** static uint16_t ap_count */
    var apCount: nat
    var wifiInited: bool
    var eventLoopCreated: bool
    var netif: Handle
    /** SCAN_DONE_BIT of wifi_event_group */
    var scanDoneBit: bool

    ghost predicate Valid()
      reads this
    {
      apList.Length == ApListCapacity && apCount <= ApListCapacity
    }

    /** The statics as a ManagerSpec value. */
    ghost function Model(): (m: Manager)
      reads this, apList
      requires Valid()
      ensures ManagerSpec.Valid(m)
    {
      Manager(apList[..], apCount, wifiInited, eventLoopCreated, netif, scanDoneBit)
    }

    /** The statics at program start. */
    constructor ()
      ensures Valid() && fresh(apList) && Model() == Initial
    {
      apList := new ApRecord[ApListCapacity](_ => ZeroApRecord);
      apCount := 0;
      wifiInited := false;
      eventLoopCreated := false;
      netif := Null;
      scanDoneBit := false;
    }

    /** wifi_manager_event_handler */
    method EventHandler(base: EventBase, id: int32)
      requires Valid()
      modifies this`scanDoneBit
      ensures Valid() && Model() == HandleEvent(old(Model()), base, id)
    {
      if base == WifiEvent && id == WifiEventScanDone {
        scanDoneBit := true;
      }
    }

    /** wifi_manager_init */
    method Init(o: InitOutcomes) returns (status: Status, calls: seq<DriverCall>)
      requires Valid()
      modifies this`wifiInited, this`eventLoopCreated, this`netif, this`scanDoneBit
      ensures Valid() && Step(Model(), status, calls) == InitStep(old(Model()), o)
    {
      if wifiInited {
        return Ok, [];
      }
      wifiInited := true;
      var ret;
      ret, calls := StorageBringUp(o);
      if ret != EspOk {
        return Abort(ret), calls;
      }
      scanDoneBit := false;
      var rest;
      status, rest := BringUpTcpip(o);
      calls := calls + rest;
    }

    /** Line 62 of init onwards. */
    method BringUpTcpip(o: InitOutcomes) returns (status: Status, calls: seq<DriverCall>)
      requires Valid()
      modifies this`eventLoopCreated, this`netif
      ensures Valid() && Step(Model(), status, calls) == TcpipStage(old(Model()), o)
    {
      calls := [NetifInit];
      if o.netifInit != EspOk {
        return Abort(o.netifInit), calls;
      }
      var rest;
      status, rest := BringUpEventLoop(o);
      calls := calls + rest;
    }

    /** Lines 65-75 of init onwards. */
    method BringUpEventLoop(o: InitOutcomes) returns (status: Status, calls: seq<DriverCall>)
      requires Valid()
      modifies this`eventLoopCreated, this`netif
      ensures Valid() && Step(Model(), status, calls) == EventLoopStage(old(Model()), o)
    {
      calls := [];
      if !eventLoopCreated {
        calls := [EventLoopCreateDefault(o.loopCreate)];
        if o.loopCreate == EspOk {
          eventLoopCreated := true;
        } else if o.loopCreate == ErrInvalidState {
          eventLoopCreated := false;
        } else {
          return Err(o.loopCreate), calls;
        }
      }
      var rest;
      status, rest := BringUpStation(o);
      calls := calls + rest;
    }

    /** Lines 77-104 of init. */
    method BringUpStation(o: InitOutcomes) returns (status: Status, calls: seq<DriverCall>)
      requires Valid()
      modifies this`netif
      ensures Valid() && Step(Model(), status, calls) == StationStage(old(Model()), o)
    {
      calls := [];
      if netif == Null {
        calls := [CreateDefaultWifiSta(o.staNetif)];
        netif := o.staNetif;
      }
      var radio;
      status, radio := RadioBringUp(o);
      calls := calls + radio;
    }

    /** wifi_manager_deinit */
    method Deinit(o: DeinitOutcomes) returns (status: Status, calls: seq<DriverCall>)
      requires Valid()
      modifies this`wifiInited, this`eventLoopCreated, this`netif
      ensures Valid() && Step(Model(), status, calls) == DeinitStep(old(Model()), o)
    {
      if !wifiInited {
        return Ok, [];
      }
      calls := [WifiStop];
      if o.stop != EspOk {
        return Abort(o.stop), calls;
      }
      calls := calls + [WifiDeinit];
      if o.deinit != EspOk {
        CheckedStopsAt([(WifiStop, o.stop), (WifiDeinit, o.deinit)], 1);
        return Abort(o.deinit), calls;
      }
      wifiInited := false;
      if netif != Null {
        calls := calls + [NetifDestroy(netif)];
        netif := Null;
      }
      if eventLoopCreated {
        calls := calls + [EventLoopDeleteDefault(o.loopDelete)];
        if o.loopDelete != EspOk {
          return Abort(o.loopDelete), calls;
        }
        eventLoopCreated := false;
      }
      return Ok, calls;
    }

    /** wifi_manager_scan, with the record fetch told `room`: 0 as written
        (lines 196-197), the size of ap_list once corrected. */
    method Scan(o: ScanOutcomes, room: Room) returns (status: Status, calls: seq<DriverCall>)
      requires Valid()
      modifies this`apCount, apList
      ensures Valid() && Step(Model(), status, calls) == ScanWithCapacity(old(Model()), o, room)
    {
      calls := [ScanStart];
      if o.startErr != EspOk {
        return Err(o.startErr), calls;
      }
      apCount := 0;
      calls := calls + [ScanGetApRecords(room)];
      if o.fetchErr != EspOk {
        return Err(o.fetchErr), calls;
      }
      ghost var before := apList[..];
      var recs := DriverRecords(o.found, room);
      forall i | 0 <= i < |recs| {
        apList[i] := recs[i];
      }
      assert apList[..] == recs + before[|recs|..];
      apCount := |recs|;
      var _ := PrintScanResults();
      return Ok, calls;
    }

    /** wifi_manager_print_scan_results: what is logged for each cached
        record, in order. */
    method PrintScanResults() returns (lines: seq<ApReport>)
      requires Valid()
      ensures |lines| == apCount
      ensures forall i :: 0 <= i < apCount ==> lines[i] == Report(apList[i])
    {
      lines := [];
      var i := 0;
      while i < apCount
        invariant 0 <= i <= apCount
        invariant |lines| == i
        invariant forall k :: 0 <= k < i ==> lines[k] == Report(apList[k])
      {
        lines := lines + [Report(apList[i])];
        i := i + 1;
      }
    }

    /** wifi_manager_get_ap_count */
    function GetApCount(): (n: nat)
      reads this, apList
      requires Valid()
      ensures n == |Cached(Model())| && n <= ApListCapacity
    {
      apCount
    }

    /** wifi_manager_get_ap_list: the static buffer itself, not a copy; its
        first ap_count entries are the cached records. */
    function GetApList(): (a: array<ApRecord>)
      reads this, apList
      requires Valid()
      ensures a == apList && a.Length == ApListCapacity
      ensures a[..GetApCount()] == Cached(Model())
    {
      apList
    }

    /** wifi_manager_connect: touches no static. The configuration is a
        zero-filled local whose ssid and password fields receive strncpy of
        at most size - 1 bytes. */
    method Connect(ssid: seq<uint8>, password: seq<uint8>, setConfigResult: EspErr, connectResult: EspErr)
      returns (status: Status, calls: seq<DriverCall>)
      requires Valid()
      ensures Step(Model(), status, calls) == ConnectStep(Model(), ssid, password, setConfigResult, connectResult)
    {
      var ssidField := new uint8[SsidFieldSize](_ => 0);
      var passwordField := new uint8[PasswordFieldSize](_ => 0);
      StrNCpy(ssidField, ssid, SsidFieldSize - 1);
      StrNCpy(passwordField, password, PasswordFieldSize - 1);
      var config := StaConfig(ssidField[..], passwordField[..]);
      assert ssidField[..] == ssidField[..SsidFieldSize - 1] + ssidField[SsidFieldSize - 1..];
      assert passwordField[..] == passwordField[..PasswordFieldSize - 1] + passwordField[PasswordFieldSize - 1..];
      assert config == StationConfig(ssid, password);
      calls := [SetStaConfig(config)];
      if setConfigResult != EspOk {
        return Abort(setConfigResult), calls;
      }
      calls := calls + [WifiConnect];
      if connectResult != EspOk {
        CheckedStopsAt([(SetStaConfig(config), setConfigResult), (WifiConnect, connectResult)], 1);
        return Abort(connectResult), calls;
      }
      return Ok, calls;
    }
  }

  /** strncpy(dst, src, n): the bytes of src up to its first NUL, at most n
      of them, then NULs up to n; dst beyond n is not written. */
  method StrNCpy(dst: array<uint8>, src: seq<uint8>, n: nat)
    requires n <= dst.Length
    modifies dst
    ensures dst[..n] == StrNCopy(src, n)
    ensures dst[n..] == old(dst[n..])
  {
    ghost var c := CString(src);
    var i := 0;
    while i < n && i < |src| && src[i] != 0
      invariant 0 <= i <= n && i <= |src|
      invariant forall j :: 0 <= j < i ==> src[j] != 0 && dst[j] == src[j]
      invariant dst[i..] == old(dst[i..])
    {
      dst[i] := src[i];
      i := i + 1;
    }
    assert i == Min(|c|, n);
    while i < n
      invariant Min(|c|, n) <= i <= n
      invariant forall j :: 0 <= j < Min(|c|, n) ==> dst[j] == c[j]
      invariant forall j :: Min(|c|, n) <= j < i ==> dst[j] == 0
      invariant dst[i..] == old(dst[i..])
    {
      dst[i] := 0;
      i := i + 1;
    }
  }

  /** Lines 51-56 of init: nvs_flash_init, and one erase and retry when it
      reports no free pages or a new version; the code handed to
      ESP_ERROR_CHECK and the calls made. */
  method StorageBringUp(o: InitOutcomes) returns (ret: EspErr, calls: seq<DriverCall>)
    ensures (calls, ret) == NvsBringUp(o)
  {
    ret := o.nvsInit;
    calls := [NvsFlashInit];
    if ret == ErrNvsNoFreePages || ret == ErrNvsNewVersionFound {
      calls := [NvsFlashInit, NvsFlashErase];
      if o.nvsErase != EspOk {
        return o.nvsErase, calls;
      }
      ret := o.nvsRetry;
      calls := [NvsFlashInit, NvsFlashErase, NvsFlashInit];
    }
  }

  /** Lines 83-104 of init: the radio bring-up, each call but
      esp_wifi_set_ps passed to ESP_ERROR_CHECK. */
  method RadioBringUp(o: InitOutcomes) returns (status: Status, calls: seq<DriverCall>)
    ensures (status, calls) == Radio(o)
  {
    calls := [WifiInit];
    if o.wifiInit != EspOk {
      assert calls == RadioCalls[..1];
      return Abort(o.wifiInit), calls;
    }
    calls := calls + [WifiSetPs, HandlerRegister];
    if o.handlerRegister != EspOk {
      assert calls == RadioCalls[..3];
      return Abort(o.handlerRegister), calls;
    }
    calls := calls + [WifiSetMode];
    if o.setMode != EspOk {
      assert calls == RadioCalls[..4];
      return Abort(o.setMode), calls;
    }
    calls := calls + [WifiStart];
    if o.start != EspOk {
      assert calls == RadioCalls[..5];
      return Abort(o.start), calls;
    }
    calls := calls + [WifiSetCountry];
    assert calls == RadioCalls;
    if o.setCountry != EspOk {
      return Abort(o.setCountry), calls;
    }
    return Ok, calls;
  }
}
