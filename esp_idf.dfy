/** The part of the ESP-IDF platform the Wi-Fi manager is written against:
    fixed-width integers, the esp_err_t codes it tests for, Wi-Fi event
    identifiers, authentication-mode codes, access-point records, netif
    handles and the driver calls it issues. The driver itself is not
    modelled: every call's result is supplied by the caller of the model. */
module EspIdf {

  newtype uint8 = x: int | 0 <= x < 0x100
  newtype int8 = x: int | -0x80 <= x < 0x80
  newtype int32 = x: int | -0x8000_0000 <= x < 0x8000_0000

  /** esp_err_t */
  type EspErr = int32

  const EspOk: EspErr := 0
  /** ESP_ERR_INVALID_STATE, returned by esp_event_loop_create_default when the loop exists */
  const ErrInvalidState: EspErr := 0x103
  /** ESP_ERR_NVS_NO_FREE_PAGES (ESP_ERR_NVS_BASE 0x1100 + 0x0d) */
  const ErrNvsNoFreePages: EspErr := 0x110d
  /** ESP_ERR_NVS_NEW_VERSION_FOUND (ESP_ERR_NVS_BASE 0x1100 + 0x10) */
  const ErrNvsNewVersionFound: EspErr := 0x1110

  /** What a manager operation ends with: the esp_err_t it returns (Ok for
      ESP_OK, Err otherwise), or the abort raised by ESP_ERROR_CHECK on the
      non-OK code it was given. */
  datatype Status = Ok | Err(code: EspErr) | Abort(code: EspErr)

  /** An esp_netif_t pointer. */
  datatype Handle = Null | Ptr(addr: nat)

  /** esp_event_base_t: the manager only distinguishes WIFI_EVENT from the rest. */
  datatype EventBase = WifiEvent | OtherEventBase(name: string)

  /** wifi_event_t identifiers the handler has a case for */
  const WifiEventScanDone: int32 := 1
  const WifiEventStaStart: int32 := 2
  const WifiEventStaDisconnected: int32 := 5

  /** wifi_auth_mode_t values with a label of their own; 5
      (WIFI_AUTH_ENTERPRISE) and everything from 8 on have none. */
  const AuthOpen: nat := 0
  const AuthWep: nat := 1
  const AuthWpaPsk: nat := 2
  const AuthWpa2Psk: nat := 3
  const AuthWpaWpa2Psk: nat := 4
  const AuthWpa3Psk: nat := 6
  const AuthWpa2Wpa3Psk: nat := 7

  /** wifi_ap_record_t, reduced to the fields the manager and its callers
      read; ssid is the 33-byte buffer. */
  datatype ApRecord = ApRecord(
    bssid: seq<uint8>,
    ssid: seq<uint8>,
    primary: uint8,
    rssi: int8,
    authMode: nat,
    pairwiseCipher: nat,
    groupCipher: nat)

  /** The all-zero record a static array starts out with. */
  const ZeroApRecord: ApRecord :=
    ApRecord(seq(6, _ => 0 as uint8), seq(33, _ => 0 as uint8), 0, 0, AuthOpen, 0, 0)

  /** The station half of wifi_config_t as handed to esp_wifi_set_config:
      the 32-byte ssid and 64-byte password fields. */
  datatype StaConfig = StaConfig(ssid: seq<uint8>, password: seq<uint8>)

  /** One ESP-IDF call made by the manager, with the result or handle where
      the manager's bookkeeping depends on it. */
  datatype DriverCall =
    | NvsFlashInit
    | NvsFlashErase
    | NetifInit
    | EventLoopCreateDefault(result: EspErr)
    | CreateDefaultWifiSta(created: Handle)
    | WifiInit
    | WifiSetPs
    | HandlerRegister
    | WifiSetMode
    | WifiStart
    | WifiSetCountry
    | WifiStop
    | WifiDeinit
    | NetifDestroy(destroyed: Handle)
    | EventLoopDeleteDefault(result: EspErr)
    | ScanStart
    | ScanGetApRecords(capacity: nat)
    | SetStaConfig(config: StaConfig)
    | WifiConnect

  function Min(a: nat, b: nat): (r: nat)
    ensures r <= a && r <= b && (r == a || r == b)
  {
    if a <= b then a else b
  }
}
