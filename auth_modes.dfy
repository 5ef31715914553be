/** The display label of a wifi_auth_mode_t value. */
module AuthModes {
  import opened EspIdf

  /** The seven authentication modes that have a label of their own. */
  const NamedModes: seq<nat> :=
    [AuthOpen, AuthWep, AuthWpaPsk, AuthWpa2Psk, AuthWpaWpa2Psk, AuthWpa3Psk, AuthWpa2Wpa3Psk]

  /** The labels of NamedModes, position by position. */
  const NamedLabels: seq<string> :=
    ["OPEN", "WEP", "WPA_PSK", "WPA2_PSK", "WPA_WPA2_PSK", "WPA3_PSK", "WPA2_WPA3_PSK"]

  /** wifi_manager_get_auth_mode_str: total, never empty, and "UNKNOWN"
      exactly for the modes without a label of their own. */
  function AuthModeStr(mode: nat): (s: string)
    ensures s != []
    ensures s == "UNKNOWN" <==> mode !in NamedModes
    ensures forall i :: 0 <= i < |NamedModes| && NamedModes[i] == mode ==> s == NamedLabels[i]
  {
    if mode == AuthOpen then "OPEN"
    else if mode == AuthWep then "WEP"
    else if mode == AuthWpaPsk then "WPA_PSK"
    else if mode == AuthWpa2Psk then "WPA2_PSK"
    else if mode == AuthWpaWpa2Psk then "WPA_WPA2_PSK"
    else if mode == AuthWpa3Psk then "WPA3_PSK"
    else if mode == AuthWpa2Wpa3Psk then "WPA2_WPA3_PSK"
    else "UNKNOWN"
  }

  /** Different named modes get different labels, so a label names its mode. */
  lemma NamedLabelsDistinct(a: nat, b: nat)
    requires a in NamedModes && b in NamedModes
    ensures AuthModeStr(a) == AuthModeStr(b) ==> a == b
  {
  }
}
