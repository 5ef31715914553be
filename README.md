# Wi-Fi manager of the ESP32-8048S070C LVGL example, in Dafny

This project models the Wi-Fi lifecycle manager of `example/main/wifi_manager.c` and proves properties of the model. The manager is a small sequential state machine over module-level statics:

- `s_wifi_inited`
- `s_event_loop_created`
- `s_netif`
- the scan cache `ap_list[50]` / `ap_count`
- the `SCAN_DONE_BIT` of `wifi_event_group`

It brings the radio up (`wifi_manager_init`) and tears it down (`wifi_manager_deinit`). It scans and caches access points (`wifi_manager_scan`), exposes the cache (`get_ap_count` / `get_ap_list` / `print_scan_results`) and connects (`wifi_manager_connect`). It turns radio events into the scan-done bit (`wifi_manager_event_handler`).

The ESP-IDF and FreeRTOS calls are not modelled as behaviour. Every result a call reports becomes an input of the model: `InitOutcomes`, `DeinitOutcomes`, `ScanOutcomes`, and the two results given to connect. Every operation also yields the list of ESP-IDF calls it issued (`DriverCall`). Statements such as "no driver call is made" or "no netif is created" are therefore statements about that list. `ESP_ERROR_CHECK` on a non-OK code becomes the status `Abort(code)`, and a run of operations stops there, as `abort()` stops the program.

Files:

- `esp_idf.dfy` (module `EspIdf`): units of the platform the manager is written against.
  - fixed-width integers and `esp_err_t` codes (`ESP_ERR_INVALID_STATE` = 0x103, `ESP_ERR_NVS_NO_FREE_PAGES` = 0x110d, `ESP_ERR_NVS_NEW_VERSION_FOUND` = 0x1110)
  - event identifiers, `wifi_auth_mode_t` codes
  - `wifi_ap_record_t` reduced to the fields the code reads
  - the station configuration and the calls the manager issues
- `auth_modes.dfy` (module `AuthModes`): `wifi_manager_get_auth_mode_str`.
- `c_strings.dfy` (module `CStrings`): NUL-terminated byte strings, and the bytes `strncpy` writes.
- `manager_spec.dfy` (module `ManagerSpec`): the statics as a `Manager` value. Each operation is a step function `Manager × outcomes → Step(new statics, status, calls)`, with the lemmas about each operation.
- `manager_runs.dfy` (module `ManagerRuns`): sequences of operations.
  - repeated init
  - ownership accounting of the netif and of the default event loop over any run from boot, with the scan as written or corrected
  - the Wi-Fi switch of `example/main/wifi_settings.c` as a scenario
- `wifi_manager.dfy` (module `WifiManagerImpl`): imperative code.
  - The class `WifiManager` holds the statics as fields, with `ap_list` as an `array` of 50 records.
  - The C functions that change statics are methods that update those fields in place: init (with its stages `BringUpTcpip`, `BringUpEventLoop` and `BringUpStation`), deinit, scan and the event handler. Each is proved to end in exactly the state, status and calls of the matching step function.
  - `print_scan_results` and `connect` are methods that change no field. `get_ap_count` and `get_ap_list` are functions reading the fields. The storage and radio parts of init are the stateless methods `StorageBringUp` and `RadioBringUp`.
  - `get_auth_mode_str` reads no static and is the function `AuthModes.AuthModeStr`.
  - `strncpy` into the zero-filled `wifi_config_t` fields is the in-place method `StrNCpy`.

Behaviour of the code that the model keeps as it is:

- A failed init does not clear `s_wifi_inited` (set at line 47), so every later init is a silent success until a deinit.
- A scan whose record fetch fails has already set `ap_count` to 0 (line 196), so it empties the cache. A scan whose start fails (lines 189-193) keeps the cache.
- Connect checks neither that the manager is initialised nor the length of its input; `strncpy` truncates silently (lines 238-240).
- `get_ap_list` returns the static buffer itself, a mutable alias (line 231).
- The only state is the flags and the cache above; there is no separate state for an init, scan or connect in progress.
- Init ends with `esp_wifi_set_country` (lines 96-104), one more `ESP_ERROR_CHECK`'ed call.
- Runs of operations (`ManagerRuns.Run`) and the class's `Scan` take a scan with the room its fetch is told: 0 for the scan as written, 50 for the corrected one (see Findings), so every result about runs holds for both programs.

## Model

| member | source | states |
|---|---|---|
| AuthModes.AuthModeStr | example/main/wifi_manager.c:137-157 | total on every mode code; never empty; "UNKNOWN" exactly for codes outside the seven named modes; each named mode gets its own label |
| AuthModes.NamedLabelsDistinct | example/main/wifi_manager.c:139-153 | the seven named modes have seven different labels |
| CStrings.CString | example/main/wifi_manager.c:212 | the C string of a buffer is its longest NUL-free prefix, ended by a NUL or by the buffer end |
| CStrings.StrNCopy | example/main/wifi_manager.c:239-240 | strncpy writes exactly n bytes: the source's C string cut to n, then NUL padding |
| CStrings.CopiedField | example/main/wifi_manager.c:238-240 | a zeroed field after strncpy of size - 1 bytes has its full size and a NUL last byte |
| CStrings.CStringOfTerminated | example/main/wifi_manager.c:238-240 | a NUL ends the C string whatever follows it |
| CStrings.FieldReadsBack | example/main/wifi_manager.c:238-240 | a copied field reads back as the input's C string truncated to size - 1 bytes, and as the whole input when that fits |
| ManagerSpec.Cached | example/main/wifi_manager.c:224-232 | the records a caller can read are the first ap_count entries, never more than 50 |
| ManagerSpec.Checked | example/main/wifi_manager.c:118-119 | a chain of ESP_ERROR_CHECKs issues calls in order up to the first failure; it is Ok iff every result is OK, and otherwise aborts with the first failing code |
| ManagerSpec.CheckedStopsAt | example/main/wifi_manager.c:242-243 | when call k is the first to fail, the chain issues exactly k + 1 calls and aborts with call k's code |
| ManagerSpec.BootState | example/main/wifi_manager.c:16-20 | the boot statics satisfy `Valid` (50 entries, count at most 50), cache nothing, hold no netif, and have every flag clear and every entry zeroed |
| ManagerSpec.NvsBringUp | example/main/wifi_manager.c:51-56 | storage bring-up starts with nvs_flash_init, makes at most three calls, erases iff the first code is one of the two recoverable ones, and comes up iff the first init or the retry after a good erase returned OK |
| ManagerSpec.InitStep | example/main/wifi_manager.c:41-107 | every init leaves s_wifi_inited set and the cache untouched; it makes no call iff already initialised; a first init that returns OK has started the radio |
| ManagerSpec.TcpipStage | example/main/wifi_manager.c:62 | the stage starts with esp_netif_init, keeps the flag, the bit and the cache, aborts with no further call when it fails, and starts the radio whenever it returns OK |
| ManagerSpec.EventLoopStage | example/main/wifi_manager.c:65-75 | afterwards this module owns the loop iff it did before or creation returned OK; the stage returns an error iff creation was tried and gave a code other than OK and INVALID_STATE, and then changes nothing |
| ManagerSpec.StationStage | example/main/wifi_manager.c:77-79 | only s_netif may change, and a held netif is kept; the stage never returns an error, and when it returns OK the radio was started |
| ManagerSpec.RadioStage | example/main/wifi_manager.c:82-104 | the radio calls change no static, start with esp_wifi_init, make no call outside the six radio calls, and a successful bring-up makes all six |
| ManagerSpec.Radio | example/main/wifi_manager.c:82-104 | the calls are a non-empty prefix of the six radio calls; the status is Ok iff the five checked calls returned OK (set_ps is not checked) and an abort otherwise |
| ManagerSpec.DeinitStep | example/main/wifi_manager.c:109-135 | deinit returns OK or aborts, never touches the cache or the scan-done bit, makes no call iff not initialised, and after an OK return from the initialised state all flags are clear and the netif is null |
| ManagerSpec.NetifTeardown | example/main/wifi_manager.c:122-126 | the netif ends null, nothing but it and the loop flag changes, and it is destroyed iff one was held |
| ManagerSpec.LoopTeardown | example/main/wifi_manager.c:128-132 | only the loop flag may change; a call is made iff this module owns the loop, and only the loop deletion; OK iff there was nothing to delete or the deletion returned OK; an aborted deletion keeps ownership |
| ManagerSpec.HandleEvent | example/main/wifi_manager.c:22-39 | the event handler never clears the scan-done bit and keeps the cache bounds; station start and disconnect (lines 31-36) only log |
| ManagerSpec.StationConfig | example/main/wifi_manager.c:238-240 | the configuration's ssid and password fields are 32 and 64 bytes long with a NUL last byte |
| ManagerSpec.ConnectStep | example/main/wifi_manager.c:234-247 | connect changes no static, first hands the configuration to the driver, makes at most two calls, and returns OK iff both calls returned OK |
| ManagerSpec.InitWhenInitedIsNoOp | example/main/wifi_manager.c:43-46 | init when already initialised returns OK, changes no static and makes no call |
| ManagerSpec.InitLeavesInited | example/main/wifi_manager.c:47-75 | after any init, even a failed or aborted one, the flag is set, the cache is untouched, and the next init is the no-op success |
| ManagerSpec.NvsRecovery | example/main/wifi_manager.c:51-56 | only NO_FREE_PAGES / NEW_VERSION_FOUND trigger one erase and one retry; a failing init, erase or retry aborts with its code; netif init follows exactly when storage came up |
| ManagerSpec.NoEraseAfterStorage | example/main/wifi_manager.c:62-104 | after storage is up, init starts with esp_netif_init and never erases storage again |
| ManagerSpec.EventLoopOwnership | example/main/wifi_manager.c:65-75 | OK records ownership, INVALID_STATE records non-ownership and init continues to the radio; any other code is returned at once with no netif created and the radio neither initialised nor started; an owned loop is not created again |
| ManagerSpec.NetifCreatedOnlyWhenNull | example/main/wifi_manager.c:77-79 | a netif is created only while s_netif is null, and a held netif is kept |
| ManagerSpec.DeinitWhenNotInitedIsNoOp | example/main/wifi_manager.c:111-114 | deinit when not initialised returns OK, changes nothing, makes no call |
| ManagerSpec.DeinitTearsDown | example/main/wifi_manager.c:116-134 | a deinit that does not abort returns OK with all flags cleared and the netif null; it destroys the netif iff one was held, deletes the loop iff this module created it, and leaves the cache alone |
| ManagerSpec.DeinitDeletesOnlyOwnedLoop | example/main/wifi_manager.c:127-131 | esp_event_loop_delete_default is called only when s_event_loop_created is set |
| ManagerSpec.ForeignLoopNeverDeleted | example/main/wifi_manager.c:69-71 | after an init that found the loop already created elsewhere, the next deinit never deletes it |
| ManagerSpec.ScanWithCapacity | example/main/wifi_manager.c:189-201 | every scan outcome keeps ap_list at 50 entries and ap_count at most 50 |
| ManagerSpec.ScanStepAsWritten | example/main/wifi_manager.c:196-197 | the scan as written, the fetch told ap_count = 0 as its room, keeps the cache bounds |
| ManagerSpec.ScanStep | example/main/wifi_manager.c:196-197 | the scan with the fetch told the 50 entries of ap_list keeps the cache bounds |
| ManagerSpec.ScanStartFailureKeepsCache | example/main/wifi_manager.c:189-193 | a failed scan start returns its code and changes nothing |
| ManagerSpec.ScanFetchFailureEmptiesCache | example/main/wifi_manager.c:196-201 | a failed fetch returns its code with the cache already emptied and the buffer untouched |
| ManagerSpec.ScanAsWrittenCachesNothing | example/main/wifi_manager.c:196-197 | as written, a scan that starts caches no record whatever the radio found |
| ManagerSpec.ScanCachesFoundRecords | example/main/wifi_manager.c:196-206 | a successful corrected scan caches the first min(50, found) records in order, all of them when at most 50 |
| ManagerSpec.ScanTouchesOnlyCache | example/main/wifi_manager.c:171-172 | a scan changes only ap_list and ap_count, and neither reads nor writes the scan-done bit |
| ManagerSpec.Report | example/main/wifi_manager.c:211-220 | every logged record has a non-empty auth label, and its ciphers are omitted exactly when that label is "OPEN" |
| ManagerSpec.EventSetsOnlyScanDoneBit | example/main/wifi_manager.c:25-38 | the bit is set iff it was set or the event is WIFI_EVENT scan-done; nothing else changes and the bit is never cleared |
| ManagerSpec.StationConfigTruncates | example/main/wifi_manager.c:238-240 | the ssid and password fields are 32 and 64 bytes, NUL-terminated, and read back as the inputs cut to 31 and 63 bytes |
| ManagerSpec.ConnectIgnoresState | example/main/wifi_manager.c:234-247 | connect in any state sets the configuration first and connects only if that succeeded; either failure aborts; no static changes |
| ManagerRuns.Apply | example/main/wifi_manager.c:16-17 | every operation, with a scan told room 0 (as written) or 50 (corrected), keeps ap_list at 50 entries and ap_count at most 50 |
| ManagerRuns.ScanOpIsEitherScan | example/main/wifi_manager.c:196-197 | a scan in a run told room 0 is the scan as written, and one told room 50 is the corrected scan |
| ManagerRuns.Run | example/main/wifi_manager.c:16-17 | any run of operations, of either program, keeps the cache bounds that make `ap_list[i]`, i < ap_count, stay in range |
| ManagerRuns.InitsWhenInitedAreNoOps | example/main/wifi_manager.c:43-46 | once initialised, any number of inits is a silent success with no call |
| ManagerRuns.RepeatedInitSingleBringUp | example/main/wifi_manager.c:43-47 | any sequence of inits makes exactly the first init's calls and ends in the state it left |
| ManagerRuns.InitAccounted | example/main/wifi_manager.c:65-79 | init's calls account for its change of netif and loop ownership: held after + destroyed = held before + created |
| ManagerRuns.DeinitAccounted | example/main/wifi_manager.c:121-131 | deinit's calls account for its change of netif and loop ownership |
| ManagerRuns.ApplyAccounted | example/main/wifi_manager.c:41-247 | every operation's calls account for its change of netif and loop ownership |
| ManagerRuns.RunAccounted | example/main/wifi_manager.c:77-131 | over any run, the netif and loop held at the end are those held at the start plus those created minus those destroyed |
| ManagerRuns.OwnershipFromBoot | example/main/wifi_manager.c:19-20 | from boot, over any run of the code as written or corrected, netifs created minus destroyed is the one s_netif holds, so never two; loops created minus deleted is s_event_loop_created, at most one |
| ManagerRuns.Ssids | example/main/wifi_settings.c:56-61 | one SSID C string per cached record, in order |
| ManagerRuns.SwitchOnWith | example/main/wifi_settings.c:43-61 | switching Wi-Fi on keeps the cache bounds |
| ManagerRuns.SwitchOnListsCache | example/main/wifi_settings.c:43-61 | the list shows exactly the cached records, at most 50, even after a failed init or scan; after a failed init no scan is started |
| ManagerRuns.SwitchOnAsWrittenListsNothing | example/main/wifi_manager.c:196-197 | as written, switching on at boot with three networks in range succeeds and lists none |
| ManagerRuns.SwitchOnListsThreeNetworks | example/main/wifi_settings.c:43-61 | corrected, the same run lists the three networks in order, their count is 3 and the second is labelled WPA2_PSK |
| WifiManagerImpl.WifiManager.constructor | example/main/wifi_manager.c:16-20 | the statics start as the boot state: zeroed buffer, count 0, flags false, no netif |
| WifiManagerImpl.WifiManager.EventHandler | example/main/wifi_manager.c:22-39 | the new statics are HandleEvent of the old |
| WifiManagerImpl.WifiManager.Init | example/main/wifi_manager.c:41-107 | new statics, status and calls are InitStep of the old statics |
| WifiManagerImpl.WifiManager.BringUpTcpip | example/main/wifi_manager.c:62 | netif init then the rest of init, equal to TcpipStage |
| WifiManagerImpl.WifiManager.BringUpEventLoop | example/main/wifi_manager.c:65-75 | event-loop creation and the rest of init, equal to EventLoopStage |
| WifiManagerImpl.WifiManager.BringUpStation | example/main/wifi_manager.c:77-79 | netif creation and the radio, equal to StationStage |
| WifiManagerImpl.StorageBringUp | example/main/wifi_manager.c:51-56 | the calls made and the code handed to ESP_ERROR_CHECK are those of NvsBringUp, whose contract gives the one erase and retry |
| WifiManagerImpl.RadioBringUp | example/main/wifi_manager.c:82-104 | the status and calls of the radio bring-up are those of Radio |
| WifiManagerImpl.WifiManager.Deinit | example/main/wifi_manager.c:109-135 | new statics, status and calls are DeinitStep of the old statics |
| WifiManagerImpl.WifiManager.Scan | example/main/wifi_manager.c:167-207 | new statics (records written in place into ap_list), status and calls are ScanWithCapacity of the old statics for the room given: as written with room 0, corrected with room 50 |
| WifiManagerImpl.WifiManager.PrintScanResults | example/main/wifi_manager.c:209-222 | visits exactly indices 0..ap_count-1 of ap_list, in order, logging Report of each |
| WifiManagerImpl.WifiManager.GetApCount | example/main/wifi_manager.c:224-227 | the count of cached records, at most 50 |
| WifiManagerImpl.WifiManager.GetApList | example/main/wifi_manager.c:229-232 | the static buffer itself, of 50 entries, whose first ap_count entries are the cache |
| WifiManagerImpl.WifiManager.Connect | example/main/wifi_manager.c:234-247 | status and calls are ConnectStep, with the configuration built by strncpy into zeroed 32/64-byte arrays; no static changes |
| WifiManagerImpl.StrNCpy | example/main/wifi_manager.c:239-240 | the first n bytes of dst become StrNCopy(src, n); bytes beyond n are untouched |

## Left out

- ESP-IDF and FreeRTOS internals. The NVS, netif, event loop, Wi-Fi driver and event group calls are foreign code. Each call's result is an input of the model, and its effect on the driver is not modelled.
- esp_wifi_scan_get_ap_records' contract is assumed, as the definition `ManagerSpec.DriverRecords`. On success it writes the first min(room, found) records into the buffer and their number into the count. On failure it writes nothing.
- Logging (`ESP_LOGI`/`ESP_LOGW`/`ESP_LOGE`): the text is not modelled. `PrintScanResults` returns the fields each record's log lines show (`ApReport`), not strings.
- `wifi_event_group` is NULL until line 59 of the first init; a direct call of the public handler with a scan-done event before then would hand NULL to `xEventGroupSetBits`. The model treats the group as existing from boot, so `HandleEvent` sets the bit even then. The driver only calls the handler once it is registered at line 87.
- The event group as a cross-task primitive. Only its scan-done bit is kept, as a boolean that the event handler sets. `xEventGroupCreate` is modelled as a fresh, cleared bit. Concurrency between the handler and the manager is not modelled.
- The scan configuration (lines 175-184) and the Brazil country configuration (lines 96-103). These are opaque driver arguments. Setting the country is one more abort-checked call.
- The commented-out channel-bitmap helper (lines 9-10, 159-165): dead code.
- `wifi_manager_is_scan_complete`: declared in `example/main/wifi_manager.h` but defined nowhere.
- The header files: declarations only.
- The UI files `settings_tab.c`, `home_tab.c` and `info_tab.c`: LVGL widget code. The switch handler of `wifi_settings.c` appears only as the scenario `SwitchOnWith`, and its switch-off branch only through `deinit`.
- NULL `ssid`/`password` pointers passed to connect. The inputs are byte sequences. The C string is read up to the first NUL or the end of the sequence.
- `ap_count` is a `uint16_t`, modelled as a `nat`. The model keeps it at most 50, so it never wraps.
- The `wifi_ap_record_t` fields the manager never reads (country, PHY flags and so on) are omitted.

## Findings

| source | as written | input that shows it | evidently intended | confidence | as-written member | corrected member |
|---|---|---|---|---|---|---|
| example/main/wifi_manager.c:196-197 | `ap_count = 0;` then `esp_wifi_scan_get_ap_records(&ap_count, ap_list)`. The count is an in/out parameter whose input is the room in the buffer, so the driver is told there is room for 0 records. | Boot, every driver call OK, three networks in range: init and scan return OK and `ap_count` is 0, so the Wi-Fi list shows nothing | set `ap_count` to the size of `ap_list` (50) before the fetch, so up to 50 records are cached | not executed; follows from the documented in/out meaning of the count argument | ManagerSpec.ScanStepAsWritten, ManagerSpec.ScanAsWrittenCachesNothing, ManagerRuns.SwitchOnAsWrittenListsNothing | ManagerSpec.ScanStep, ManagerSpec.ScanCachesFoundRecords, ManagerRuns.SwitchOnListsThreeNetworks |
