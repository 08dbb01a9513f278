# Wifi-Network diagnostics: a verified model of the parsing, rate-limiting and display logic

Wifi-Network is a small web application. Its Express backend runs the Windows `netsh wlan`
commands, turns their text output into WiFi network records, rate-limits every request, and
offers a download speed test. Its React frontend lists the networks, sorts them by signal and
colours them by signal strength. This project models the logic of that application in Dafny
and proves what the code promises:

- `text.dfy` (module `Text`): the JavaScript character classes `\s`, `\d` and `.`,
  `String.prototype.trim`, `startsWith`, `parseInt` of a digit string, and `${n}` for a number.
- `label_pattern.dfy` (module `LabelPattern`): the regular expressions `label\s+:\s+(.+)`,
  `label\s+\d+\s+:\s+(.+)`, `label\s+:\s+(\d+)` and `label\s+:\s+(\d+)%` under
  `String.prototype.match`. `IsMatch` says what a match is. `IsFirstMatch` says which match
  `match` returns: the leftmost start, and at that start the choice backtracking tries first.
  `Find` computes it and is proved to return exactly that match.
- `blocks.dfy` (module `Blocks`): `text.split(/\r?\n\r?\n/)`.
- `wifi.dfy` (module `Wifi`): `getWifiNetworks` and `getConnectedWifiInfo` of
  `backend/src/utils/wifi.ts`.
- `rate_limit.dfy` (module `RateLimit`): the `rateLimiter` middleware. A class holds the
  `requestCounts` map. Its `Admit` method is proved equal to the function `Step`, and the
  limiter's properties are lemmas about `Step`.
- `speed_test.dfy` (module `SpeedTest`): the `/api/speed-test` handler. This covers the
  aggregation of the three downloads and the mapping from errors to HTTP statuses.
- `wifi_list.dfy` (module `WifiList`): the signal-strength colour, icon and label functions,
  the initial view state, and the list sorted by signal.
- `wifi_info.dfy` (module `WifiInfo`): the state changes of the page's `fetchWifiInfo`.
- `wrappers.dfy` (module `Wrappers`): `Option` and `Result`.

Everything outside the process is an input to the model:

- A command run is an `ExecResult`: the text it printed, or a failure.
- A download is an `Outcome`: its time and size, or the error it threw.
- The current time is the `now` parameter.
- The two fetches of the page are a `FetchOutcome`.

Notes on behaviour the model makes explicit:

- `WifiInfo.tsx` repeats the three bucket functions of `WifiList.tsx` with the same
  thresholds (`frontend/src/components/WifiInfo.tsx:68-90`). They are modelled once, in
  `WifiList`.
- The rate limiter counts every key that starts with the caller's address. A client whose
  address extends another one as a string (10.0.0.12 and 10.0.0.1) counts toward the shorter
  address's limit. This is the code as written, and `RateLimit.LongerIpCounts` proves it.
- An entry stamped exactly at the start of the window survives the purge (`<`) but is not
  counted (`>`). `RateLimit.WindowStartEntry` proves this.
- `\s` also matches line breaks. So when a block's SSID line has no name, the SSID pattern
  can read on and take the next line as the name. `Wifi.EmptySsidLineTakesNextLine` proves
  this for the two-line block `"SSID 2 : \r\n" + line`, where line is one line that does not
  start with white space and does not trim to "SSID": the block is not dropped and its name
  is line, trimmed.
- The program's `Promise.all` reports the download that fails first in time. The model
  instead reports the first failed download in list order (see "## Left out").

## Model

| member | source | states |
|---|---|---|
| Text.Trim | backend/src/utils/wifi.ts:39 | the trimmed text is a slice of the input with only white space before and after it; it starts and ends with a non-space character; it is empty exactly when the input is all white space |
| Text.TrimIdempotent | backend/src/utils/wifi.ts:44-46 | trimming a trimmed field changes nothing |
| Text.NatToString | backend/src/index.ts:53 | `${now}`: a non-empty string of decimal digits (read back by `Text.DecimalValueOfNatToString`, injective by `Text.NatToStringInjective`) |
| Text.DecimalValue | backend/src/utils/wifi.ts:43 | `parseInt` of a digit string of length k is below 10^k (it inverts `${n}` by `Text.DecimalValueOfNatToString`) |
| Text.DecimalValueOfNatToString | backend/src/index.ts:53 | `parseInt` of the numeral `${now}` gives now back |
| Text.NatToStringInjective | backend/src/index.ts:53 | distinct timestamps print as distinct numerals |
| LabelPattern.GapForced | backend/src/utils/wifi.ts:32 | before the colon the text splits into `\s+` (or `\s+\d+\s+`) in one way only, so the colon is where GapEnd puts it |
| LabelPattern.CaptureAfterGreedy | backend/src/utils/wifi.ts:32-36 | any way to finish a match after the colon has a capture that starts no later than the one computed, or starts at the same place and is no longer |
| LabelPattern.MatchAtSound | backend/src/utils/wifi.ts:32-36 | what MatchAt returns is a match of the pattern at that position |
| LabelPattern.MatchAtDominates | backend/src/utils/wifi.ts:32-36 | whenever some match starts at a position, MatchAt finds one there, and backtracking reaches MatchAt's match no later than the other |
| LabelPattern.MatchAtCorrect | backend/src/utils/wifi.ts:32-36 | MatchAt finds a match at a position exactly when one exists, and it is the greedy one |
| LabelPattern.FindFrom | backend/src/utils/wifi.ts:32-36 | the scan from position i returns the greedy match with the leftmost start at or after i, or None when no match starts there |
| LabelPattern.Find | backend/src/utils/wifi.ts:32-36 | `match` returns the first match, with leftmost start and greedy at that start; it returns null exactly when no match exists |
| LabelPattern.Capture | backend/src/utils/wifi.ts:32-36 | group 1 of the first match; never empty; holds no line terminator for `(.+)` and only digits for `(\d+)` |
| LabelPattern.CapturedText | backend/src/utils/wifi.ts:33 | the capture of any match is non-empty and of the capture's character class |
| LabelPattern.FindAtStart | backend/src/utils/wifi.ts:32 | a match at position 0 is returned when its capture starts at a non-space character and runs as far as the class allows |
| Blocks.Split | backend/src/utils/wifi.ts:29 | `split` always returns at least one block (count, round trip and cuts are `Blocks.SplitLosesNothing` and `Blocks.SplitNoBlankLine`) |
| Blocks.SepAtSound | backend/src/utils/wifi.ts:29 | a separator match is one of `\n\n`, `\r\n\n`, `\n\r\n`, `\r\n\r\n` |
| Blocks.SepAtComplete | backend/src/utils/wifi.ts:29 | each of those four strings is matched where it occurs, with its own length |
| Blocks.FirstSepFromLeftmost | backend/src/utils/wifi.ts:29 | the separator search returns the leftmost match; when it finds none, no separator is left |
| Blocks.SplitCount | backend/src/utils/wifi.ts:29 | the text splits into one more block than there are separators |
| Blocks.SplitRoundTrip | backend/src/utils/wifi.ts:29 | the blocks, interleaved with the separators they were cut at, give back the text |
| Blocks.SplitLosesNothing | backend/src/utils/wifi.ts:29 | one more block than separators; every separator is a blank line; joining gives back the text |
| Blocks.SeparatorsAreSeparators | backend/src/utils/wifi.ts:29 | every cut is made at one of the four blank-line strings |
| Blocks.SplitNoBlankLine | backend/src/utils/wifi.ts:29 | no block contains a separator |
| Blocks.SplitWithoutBlankLine | backend/src/utils/wifi.ts:29 | text without a blank line is a single block, so "" splits into [""] |
| Wifi.ConnectedSsid | backend/src/utils/wifi.ts:24-25 | the trimmed SSID capture of the interfaces output; null exactly when the SSID pattern matches nowhere |
| Wifi.TextField | backend/src/utils/wifi.ts:44-46 | the trimmed capture of the label's pattern, or "Unknown" when it does not match |
| Wifi.NumberField | backend/src/utils/wifi.ts:43 | `parseInt` of the captured digits, or 0 when the label does not match |
| Wifi.ParseNetwork | backend/src/utils/wifi.ts:32-49 | a record it returns never has an empty name or the heading "SSID" (the full case analysis is `Wifi.ParseNetworkSpec`) |
| Wifi.ParseNetworkSpec | backend/src/utils/wifi.ts:32-49 | a block gives a record exactly when its SSID matches and the trimmed name is neither empty nor "SSID"; each field is its capture or default; `connected` holds exactly when the name equals the connected SSID |
| Wifi.CollectNetworks | backend/src/utils/wifi.ts:28-51 | the loop pushes exactly the records ParsedNetworks lists, in block order |
| Wifi.GetWifiNetworks | backend/src/utils/wifi.ts:15-57 | it fails with "Failed to get WiFi networks" exactly when either command fails; otherwise it returns the records of the blocks of the scan, flagged against the connected SSID |
| Wifi.KeptOrigin | backend/src/utils/wifi.ts:38-49 | each kept value comes from a position that holds it, and the positions increase |
| Wifi.KeptComplete | backend/src/utils/wifi.ts:38-49 | every position that holds a value is kept |
| Wifi.KeptBound | backend/src/utils/wifi.ts:38-49 | there are no more kept values than positions |
| Wifi.ParsedNetworksOrigin | backend/src/utils/wifi.ts:31-51 | each record is the parse of its own block, and the records are in block order |
| Wifi.ParsedNetworksComplete | backend/src/utils/wifi.ts:31-51 | every block that names a network contributes its record |
| Wifi.ParsedNetworksBound | backend/src/utils/wifi.ts:31-51 | a scan yields at most one record per block |
| Wifi.ParsedNetworksRecords | backend/src/utils/wifi.ts:38-48 | every record has a non-empty, trimmed name other than "SSID"; its text fields are trimmed; it is connected exactly when its name is the connected SSID, and never when there is none |
| Wifi.TextFieldTrimmed | backend/src/utils/wifi.ts:44-46 | a text field never has white space at its ends |
| Wifi.AtMostOneConnected | backend/src/utils/wifi.ts:47 | when the names are pairwise distinct, at most one record is flagged connected |
| Wifi.EmptySsidLineTakesNextLine | backend/src/utils/wifi.ts:32-40 | the two-line block `"SSID 2 : \r\n" + line`, with line one line that does not start with white space and is not "SSID" once trimmed, is not dropped, and its name is line trimmed (no connected SSID given) |
| Wifi.SsidAfterEmptyLine | backend/src/utils/wifi.ts:32 | in that two-line block the SSID capture is the whole second line |
| Wifi.ParseConnectedInfo | backend/src/utils/wifi.ts:71-87 | null exactly when the SSID pattern matches nowhere; otherwise the trimmed SSID, each number field as `parseInt` or 0, and each text field trimmed or "Unknown" |
| Wifi.GetConnectedWifiInfo | backend/src/utils/wifi.ts:60-92 | a failed command gives the error "Failed to get connected WiFi information", unlike a null result; otherwise the parse of the output |
| RateLimit.ClientIdentity | backend/src/index.ts:29 | the request's address when it is present and non-empty, and "unknown" otherwise; never empty |
| RateLimit.RequestKey | backend/src/index.ts:53 | the key `${ip}-${now}` starts with ip followed by "-", so the count at line 42 includes it (its numeral part is `Text.NatToString`) |
| RateLimit.Step | backend/src/index.ts:28-55 | one call on the map: only the request's own key can be added; every other entry left keeps its timestamp; an admitted request is recorded at now (the decision itself is `RateLimit.StepDecision`) |
| RateLimit.Purge | backend/src/index.ts:33-38 | exactly the entries stamped at or after the window start are kept, with their timestamps |
| RateLimit.CountRecent | backend/src/index.ts:41-43 | the count is the number of keys that start with the address and are stamped strictly after the window start |
| RateLimit.RateLimiter.constructor | backend/src/index.ts:24 | the limiter starts with an empty map |
| RateLimit.RateLimiter.Admit | backend/src/index.ts:28-55 | the address is `req.ip`, or "unknown" when that is missing or empty; the decision and the new map are those of Step on the old map for that address: purge, count, then reject with 429 or record `${ip}-${now}` |
| RateLimit.StepLeavesNoStaleEntry | backend/src/index.ts:33-38 | after a call, no entry is older than that call's window |
| RateLimit.RecentKeysSurvivePurge | backend/src/index.ts:33-43 | the purge never removes an entry the count would include |
| RateLimit.StepDecision | backend/src/index.ts:41-51 | a request is rejected exactly when at least 60 keys starting with its address are stamped within the last 60000 ms |
| RateLimit.WindowStartEntry | backend/src/index.ts:35-42 | an entry stamped exactly at the window start is kept but not counted |
| RateLimit.RejectOnlyPurges | backend/src/index.ts:45-51 | a rejected request records nothing; only the purge changes the map |
| RateLimit.AdmitRecordsOneKey | backend/src/index.ts:53 | an admitted request adds exactly the key `${ip}-${now}` at now; other entries keep their timestamps; the map grows by at most one |
| RateLimit.SameMillisecondOverwrites | backend/src/index.ts:53 | a second admitted request from one address in the same millisecond overwrites the first's key and leaves the map as it was |
| RateLimit.RequestKeysDistinct | backend/src/index.ts:53 | requests of one address in different milliseconds get different keys |
| RateLimit.OtherKeysDoNotMatter | backend/src/index.ts:42 | entries whose keys do not start with the address never change its decision |
| RateLimit.LongerIpCounts | backend/src/index.ts:42 | a recent key of an address that extends ip as a string is counted for ip |
| RateLimit.FreshIdentityAdmitted | backend/src/index.ts:41-54 | an address with no key starting with it is admitted |
| SpeedTest.ProbeAll | backend/src/index.ts:93-116 | every result, in test-file order, when all downloads succeed; otherwise the error of the first failing download |
| SpeedTest.AnyFailureFailsAll | backend/src/index.ts:93-116 | one failed download fails the whole test |
| SpeedTest.TotalSize | backend/src/index.ts:125 | the summed size is at least every single file's size |
| SpeedTest.TotalSizeAppend | backend/src/index.ts:125 | the total over two lists laid end to end is the sum of their totals |
| SpeedTest.MaxTime | backend/src/index.ts:124 | the reported time is at least every download's time and equals one of them |
| SpeedTest.Classify | backend/src/index.ts:129-155 | the error chain in order: ECONNABORTED gives 408; else a reply gives its own status with its statusText; else a request with no reply gives 503; else 500 with the axios message; a non-axios error gives 500 "An unexpected error occurred" |
| SpeedTest.ClassifiedStatus | backend/src/index.ts:131-155 | a status other than 408, 503 and 500 can only be the remote reply's own status |
| SpeedTest.RunSpeedTest | backend/src/index.ts:84-157 | success exactly when every download succeeds; the report then lists the three files in order, the summed size and the longest time; otherwise the classified error of the first failure |
| SpeedTest.ExampleReport | backend/src/index.ts:122-128 | downloads of 100, 200 and 300 bytes in 50, 100 and 150 ms report 600 bytes and 150 ms |
| WifiList.InitialListState | frontend/src/components/WifiList.tsx:22-23 | the list starts in list view and sorted by signal |
| WifiList.SignalStrengthColor | frontend/src/components/WifiList.tsx:25-31 | one of the five colours, strongest first (which one is `WifiList.SameBucket`) |
| WifiList.SignalStrengthIcon | frontend/src/components/WifiList.tsx:33-39 | one of the five bar icons (which one is `WifiList.SameBucket`) |
| WifiList.SignalStrengthLabel | frontend/src/components/WifiList.tsx:41-47 | one of "Excellent", "Good", "Fair", "Poor", "Very Poor" (which one is `WifiList.SameBucket`) |
| WifiList.SameBucket | frontend/src/components/WifiList.tsx:25-47 | colour, icon and label always pick the entry of the same strength band |
| WifiList.BucketMonotone | frontend/src/components/WifiList.tsx:25-47 | a stronger signal never falls into a weaker band |
| WifiList.BucketThresholds | frontend/src/components/WifiInfo.tsx:68-90 | the bands break at 80, 60, 40 and 20, each inclusive from below |
| WifiList.SortedBySignal | frontend/src/components/WifiList.tsx:49 | the sorted list is a permutation of the networks |
| WifiList.SortedBySignalOrdered | frontend/src/components/WifiList.tsx:49-52 | in signal mode the list is non-increasing in signal |
| WifiList.SortedBySignalStable | frontend/src/components/WifiList.tsx:49-52 | networks of equal signal keep their input order |
| WifiList.StableSortUnique | frontend/src/components/WifiList.tsx:49-52 | two lists ordered by signal that agree on the order of each signal's networks are equal |
| WifiList.SortedBySignalIsTheStableSort | frontend/src/components/WifiList.tsx:49-52 | any ordering that is non-increasing and keeps equal-signal networks in input order is exactly the sorted list |
| WifiInfo.InitialViewState | frontend/src/components/WifiInfo.tsx:27-30 | no networks, no connected network, no error, loading |
| WifiInfo.FetchWifiInfo | frontend/src/components/WifiInfo.tsx:32-59 | loading always ends. The error is cleared exactly when the networks reply is ok and the connected reply is ok or 404. The networks change only on an ok networks reply, and the connected network only when both replies are ok. A rejection keeps the message of the Error thrown, or otherwise uses the generic one |

## Left out

- Running `netsh wlan show networks mode=bssid` and `netsh wlan show interfaces`: the commands are inputs, as their printed text or a failure. The layout of netsh's output is not modelled; the parsers are proved for any text.
- The logging by `console.error` and `console.log`: it has no effect on results.
- `axios.get` downloads, their 10-second timeout, the no-cache headers and `Date.now()`: each download is an input, given as its elapsed time and byte count or as its error, and the clock is the `now` parameter.
- SpeedTest.RunSpeedTest: the per-file and average `downloadSpeed` are floating-point divisions (index.ts:107, 119-120) and are not modelled; the report keeps only the integer fields.
- SpeedTest.RunSpeedTest: the ISO `timestamp` (index.ts:126) comes from the clock and is not modelled.
- SpeedTest.ProbeAll: `Promise.all` runs the downloads concurrently and rejects with whichever failure happens first in time. The model takes the first failure in list order.
- WifiInfo.FetchWifiInfo: the two fetches are one input, both replies or a rejection. A body that is not valid JSON (`.json()` throwing) is not modelled.
- WifiInfo.FetchWifiInfo: the intermediate `isLoading = true` render is not visible in the result. Only the final state is stated.
- The 30-second polling with `setInterval` and all React rendering, animation and markup: these are UI effects with no logic to verify.
- Sorting by name with `localeCompare` (WifiList.tsx:53): it is a library collation the model cannot see. Only signal mode is modelled.
- `/api/network-info`, `/health`, Express, helmet, CORS and `app.listen`: framework wiring with no logic of the model's own.
- The status mapping of `/api/wifi/networks` and `/api/wifi/connected` (index.ts:164-194): thin wrappers that send `getWifiNetworks` and `getConnectedWifiInfo` results as JSON, 404 for null and 500 for an error.
- `frontend/src/components/SpeedTest.tsx`, `frontend/src/app/page.tsx` and the two `config.ts` files are not part of this model.
- Wifi.NumberField: `parseInt` is exact here. JavaScript numbers lose precision above 2^53, which the model does not reproduce.
- Text.Trim: strings are sequences of Unicode characters. JavaScript strings are UTF-16 code units, which differ only outside the Basic Multilingual Plane.
- The network record's `type` field is named `networkType`, because `type` is a Dafny keyword.
