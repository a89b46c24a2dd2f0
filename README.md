# check_thecus_nas in Dafny

A model of `ThecusChecker`, the Nagios plugin class in `check_thecus_nas.php`
that queries a Thecus NAS over its web administration interface. The model
covers these parts, and proves properties about them:

* **The status aggregator.** This is one status code, an ordered list of status
  texts and an ordered list of performance-data entries.
  `addStatusInfo` merges one contribution into it, `setStatusInfo` replaces it,
  and `getCheckOutput` renders it as the plugin's output line.
  The name of each code is given by `statusCodeToText`.
* **The threshold table.** These are `getThreshold` and `setThreshold`, the
  constructor's defaults, and the three-way comparison of a measured value
  with a warning and a critical threshold.
* **The check routines.** These are the system health check (CPU fan and a
  numbered sequence of system fans), the RAID health check, the per-disk
  health check with its SMART evaluation, the CPU usage check and the disk
  usage check. The disk usage check parses the capacity text with the
  `preg_match` pattern.
* **The request layer.** `checkError` classifies every transfer. `jsonRequest`
  logs in once and retries when it is refused. The layer also covers the
  `login` form post and the cookie file name.
* **The driver.** This is the check type option (`setCheckType`), `checkOpts`,
  and `check()` with its exception handler.

## Module layout

| module | contents |
|---|---|
| `Wrappers` | `Option` and `Result` |
| `Text` | the PHP string builtins the checker uses: `implode`, `explode`, `strpos`, suffix compare, `trim`, `strtolower`, integer printing, `urlencode` |
| `Json` | a decoded device reply as a tree of PHP values, the property read `$v->name`, `isset`, `intval`, string conversion and PHP 8 loose comparison with the literals the checker uses |
| `Status` | status codes, the aggregate `StatusInfo`, `Add` (addStatusInfo), `Set` (setStatusInfo), `Render` (getCheckOutput) |
| `Thresholds` | the threshold table, its defaults and `Evaluate` |
| `Session` | `CheckError`, `JsonRequest` and `Login` as functions on a network value, the login form, the cookie file name |
| `Capacity` | the capacity pattern `([0-9.]+) ?([KMGTP]B)[^0-9.]+([0-9.]+) ?([KMGTP]B)` as a function |
| `Checks` | one specification function per check routine: the report it contributes, and the run it makes (new aggregate, network, exception) |
| `Checker` | class `ThecusChecker` with the source's fields, whose methods update them in place and are proved against the `Checks` functions; the loops of the routines as methods on values |

The device is modelled as a network value. Its first part is an oracle
`replies: nat -> Outcome`: transfer n receives `replies(n)`, which holds curl's
error text, the body, the effective URL after redirects, and what
`json_decode` makes of the body. Its second part is the log `sent` of the
requests made so far. A routine's result is a `Run`: the new aggregate, the
network after it, and the exception it raised, if any.

## Model

| member | source | states |
|---|---|---|
| Checker.ThecusChecker.constructor | check_thecus_nas.php:112-141 | credentials are stored only when given and non-empty; the thresholds are exactly the default table; the result starts as OK with no texts and no perfdata; no check type; cookie directory /tmp; nothing has been sent yet |
| Checker.ThecusChecker.SetDefaultThresholds | check_thecus_nas.php:124-141 | the twelve setter calls turn an empty table into the default table and change no other field |
| Checker.ThecusChecker.SetThreshold | check_thecus_nas.php:453-460 | the table afterwards is `Thresholds.Set` of the old one; the result, the credentials and the network are unchanged |
| Checker.ThecusChecker.GetThreshold | check_thecus_nas.php:437-444 | returns the stored value, or null when the type or the level was never set |
| Checker.ThecusChecker.AddStatusInfo | check_thecus_nas.php:300-315 | the new code is the maximum of the old code and the given code; a given text and a given perfdata entry are appended; nothing else changes |
| Checker.ThecusChecker.SetStatusInfo | check_thecus_nas.php:264-285 | the result is replaced: the code as given, a text list and a perfdata list that are empty exactly when the argument is empty |
| Checker.ThecusChecker.SetCheckType | check_thecus_nas.php:509-524 | a recognised type is stored; anything else raises "Invalid check type" and leaves the stored type as it was |
| Checker.ThecusChecker.JsonRequest | check_thecus_nas.php:1251-1286 | the result and the network afterwards are those of `Session.JsonRequest` on the stored credentials; the result and the configuration are unchanged |
| Checker.ThecusChecker.Login | check_thecus_nas.php:1208-1225 | the result and the network afterwards are those of `Session.Login` |
| Checker.ThecusChecker.CheckSystemHealth | check_thecus_nas.php:788-831 | the new result, network and exception are those of the system-health specification `Checks.SystemHealthRun`; the configuration is unchanged |
| Checker.ThecusChecker.CheckRaidHealth | check_thecus_nas.php:837-888 | agrees with `Checks.RaidHealthRun`: access status first, then the RAID list, then one contribution |
| Checker.ThecusChecker.CheckSmartInfo | check_thecus_nas.php:1046-1117 | makes exactly the SMART request; if it fails, the exception is returned; if it succeeds, the report is `SmartReport` of the reply under the current thresholds; the result is unchanged |
| Checker.ThecusChecker.CheckDiskHealth | check_thecus_nas.php:893-913 | the loop over the disk list agrees with `Checks.DiskHealthRun`; an exception in any SMART request stops the loop |
| Checker.ThecusChecker.CheckHealth | check_thecus_nas.php:772-783 | agrees with `Checks.HealthRun`: the system, RAID and disk checks in order; the first exception stops the run |
| Checker.ThecusChecker.CheckCpuUsage | check_thecus_nas.php:918-941 | agrees with `Checks.CpuRun`; no contribution when the device gives no system status |
| Checker.ThecusChecker.CheckDiskUsage | check_thecus_nas.php:946-1002 | agrees with `Checks.DiskUsageRun` |
| Checker.ThecusChecker.CheckOpts | check_thecus_nas.php:711-722 | raises exactly the exception `OptsError` assigns to the stored credentials and check type |
| Checker.ThecusChecker.ApplyOptions | check_thecus_nas.php:572-573 | a -t argument that does not parse raises "Invalid check type" and changes nothing; otherwise the type is stored and `checkOpts` decides the exception |
| Checker.ThecusChecker.RunSelected | check_thecus_nas.php:577-583 | runs the health, CPU or disk-usage routine that the stored check type selects |
| Checker.ThecusChecker.Check | check_thecus_nas.php:569-591 | the final result is `Final` of the whole run, so an exception replaces everything by UNKNOWN and its message; the output line is the rendering of the final result; the exit code is the final status code; credentials, thresholds and cookie directory are unchanged |
| Checker.ParseCheckTypeMeaning | check_thecus_nas.php:509-524 | a type parses as `ct` exactly when the trimmed, lower-cased argument is `ct`'s name; it fails, with "Invalid check type", exactly when it names no type |
| Checker.ParseCheckTypeNames | check_thecus_nas.php:511-518 | the trimmed, lower-cased argument equals a name exactly when it parses to that type |
| Checker.ParseCheckTypeRoundTrip | check_thecus_nas.php:511-518 | every type's name, with any surrounding whitespace, parses back to that type |
| Checker.OptsErrorMeaning | check_thecus_nas.php:711-722 | no exception exactly when hostname, username, password and check type are all present; a missing field raises its own message, and the hostname is checked first, then the username, then the password, then the check type |
| Checker.ExceptionDiscardsResult | check_thecus_nas.php:584-586 | after an exception the result is UNKNOWN, its only text is the message (none when the message is empty) and it has no perfdata, whatever was aggregated before |
| Checker.AddKeepsCode | check_thecus_nas.php:302-304 | merging two valid status codes (0 to 3) gives a valid status code |
| Checker.SystemKeepsCode | check_thecus_nas.php:788-831 | the system-health check keeps the status code valid |
| Checker.RaidKeepsCode | check_thecus_nas.php:837-888 | the RAID check keeps the status code valid |
| Checker.DiskStepKeepsCode | check_thecus_nas.php:897-911 | one disk of the disk-health loop keeps the status code valid |
| Checker.DiskRunKeepsCode | check_thecus_nas.php:893-913 | the whole disk-health loop keeps the status code valid |
| Checker.HealthKeepsCode | check_thecus_nas.php:772-783 | the health check keeps the status code valid |
| Checker.UsageKeepsCode | check_thecus_nas.php:946-1002 | the disk-usage check keeps the status code valid, including its UNKNOWN abort |
| Checker.ExitCodeAgreesWithOutput | check_thecus_nas.php:569-591 | the exit code of every run is a valid status code, and it is the code whose name opens the output line |
| Checker.SystemStatus | check_thecus_nas.php:788-829 | the loop computes `Checks.SystemReport` of the device's system status |
| Checker.NumberedFans | check_thecus_nas.php:807-818 | the fan loop appends one failure text per failing fan numbered 2 and up; the code is CRITICAL exactly when there is a failure text |
| Checker.RaidStatus | check_thecus_nas.php:839-886 | the loop over the RAID list computes `Checks.RaidReport` |
| Checker.SmartStatus | check_thecus_nas.php:1048-1108 | computes `Checks.SmartReport` |
| Checker.ReallocStage | check_thecus_nas.php:1058-1069 | the reallocated-sector step escalates the code by that attribute's level and adds its text when the level is not OK |
| Checker.TempStage | check_thecus_nas.php:1071-1083 | the temperature step escalates the code and adds the text and the temperature perfdata |
| Checker.PendingStage | check_thecus_nas.php:1085-1096 | the pending-sector step escalates the code and adds its text |
| Checker.Measure | check_thecus_nas.php:1062-1068 | one threshold comparison: CRITICAL when the critical threshold is reached, else at least WARNING when the warning one is; the text is added exactly when either is reached |
| Checker.UsageStatus | check_thecus_nas.php:948-999 | the loop over the RAID list computes `Checks.DiskUsageReport` |
| Checker.UsageEntry | check_thecus_nas.php:961-986 | one RAID of the loop: abort with the parse or unit message, or the usage step's new code, texts and perfdata |
| Checks.FanNameInjective | check_thecus_nas.php:807-817 | distinct fan numbers give distinct property names |
| Checks.FanProbeShrinks | check_thecus_nas.php:809-818 | every probe of a present fan leaves fewer unprobed properties, so the fan loop ends on every reply |
| Checks.FanFailuresSound | check_thecus_nas.php:809-818 | every fan failure text names a present fan, in the numbered sequence, whose value is not "OK" |
| Checks.FanFailuresComplete | check_thecus_nas.php:809-818 | every failing fan reached by the unbroken numbered sequence is reported |
| Checks.SystemReportMeaning | check_thecus_nas.php:788-831 | CRITICAL exactly when some fan fails, OK exactly when none does; a text is always given and is "Hardware working fine" when nothing fails; no perfdata; a device without system status is OK |
| Checks.CpuFanCritical | check_thecus_nas.php:797-800 | a CPU fan that is not OK makes the check CRITICAL and is the first text |
| Checks.RaidCode | check_thecus_nas.php:863-871 | the code of a RAID status is always a valid status code |
| Checks.RaidCodeCases | check_thecus_nas.php:863-871 | Damaged is CRITICAL, Degraded is WARNING, Healthy is OK, and any other status is UNKNOWN |
| Checks.ScanRaidsMeaning | check_thecus_nas.php:862-876 | after the loop the code is that of the last RAID, not the worst one; the texts are the earlier texts followed by one entry per non-OK RAID, in order |
| Checks.RaidReportCode | check_thecus_nas.php:837-888 | the code is the last RAID's when there is one, else the access status's, else OK with "RAID Healthy"; a text is always given |
| Checks.RaidTextsOfLast | check_thecus_nas.php:873-880 | a non-OK last RAID always leaves a text |
| Checks.DegradedHiddenByLater | check_thecus_nas.php:862-880 | a Degraded md0 followed by a Healthy md1 reports OK: "RAID md0 status: Degraded, Healthy" |
| Checks.DegradedThenHealthy | check_thecus_nas.php:862-886 | the same for any list and RAID values with those fields |
| Checks.DegradedThenHealthyScan | check_thecus_nas.php:862-876 | the loop over those two RAIDs ends with code OK and one text |
| Checks.ReportOfHealthyScan | check_thecus_nas.php:878-886 | an OK scan appends "Healthy" and prefixes "RAID " |
| Checks.SmartReportMeaning | check_thecus_nas.php:1046-1117 | the SMART code is the maximum of the status level and the three attribute levels, it lies between OK and CRITICAL, and a text is given exactly when it is not OK |
| Checks.SmartTemperatureGuard | check_thecus_nas.php:1071-1083 | the temperature perfdata is present exactly when ATTR197 is set, and then is "Disk<tray>_temp=<ATTR194>;<warn>;<crit>" |
| Checks.SmartHealthyDisk | check_thecus_nas.php:1046-1117 | a healthy disk at 38 degrees under the defaults reports OK with no text and perfdata "Disk2_temp=38;55;60" |
| Checks.SmartQuietDisk | check_thecus_nas.php:1046-1117 | the same for any table holding default values for the three SMART types |
| Checks.DiskStepMeaning | check_thecus_nas.php:897-911 | N/A disks are skipped; Critical disks add CRITICAL and "Disk <tray> status: Critical" without a request; Warning disks add their SMART result raised to at least WARNING; other disks add their SMART result; a failed SMART request stops with its exception |
| Checks.CriticalDiskNoRequest | check_thecus_nas.php:900-902 | a Critical disk sends nothing and adds exactly one CRITICAL text |
| Checks.DiskRunKeepsTexts | check_thecus_nas.php:893-913 | the disk loop never removes a text |
| Checks.HealthyTextNeverAdded | check_thecus_nas.php:778-782 | "System healthy" is never added, because the system-health check always leaves a text |
| Checks.ThresholdTextFree | check_thecus_nas.php:937 | a printed threshold never contains a ';' |
| Checks.CpuPerfFields | check_thecus_nas.php:937 | the CPU perfdata splits on ';' into the usage, the warning and critical thresholds, 0 and 100 |
| Checks.CpuDefaults | check_thecus_nas.php:918-941 | under the defaults a 97% load is WARNING with "CPU usage: 97%" and "CPU=97;95;98;0;100", and 98% is CRITICAL |
| Checks.CpuAtDefaults | check_thecus_nas.php:918-941 | the same for any table holding the default CPU thresholds |
| Checks.CpuWithoutThresholds | check_thecus_nas.php:928-937 | with both CPU thresholds null the check is OK and the thresholds print as empty fields |
| Checks.FirstFailureMeaning | check_thecus_nas.php:959-986 | there is no failure exactly when every RAID's capacity parses with equal units; otherwise the failure is that of a RAID whose predecessors all parse |
| Checks.ScanUsageAborts | check_thecus_nas.php:959-986 | the loop aborts exactly when some RAID fails to parse, and with the first such failure's message |
| Checks.ScanUsageLists | check_thecus_nas.php:959-987 | without an abort, the loop appends one text and one perfdata entry per RAID, in list order |
| Checks.ScanUsageTextList | check_thecus_nas.php:982 | the text part of the above |
| Checks.ScanUsagePerfList | check_thecus_nas.php:974 | the perfdata part of the above |
| Checks.UsageListsLength | check_thecus_nas.php:959-987 | exactly one text and one perfdata entry per RAID |
| Checks.ScanUsageCode | check_thecus_nas.php:968-972 | the code is at least the start code and every RAID's level, and it is one of them |
| Checks.AbortDiscardsEarlierRaids | check_thecus_nas.php:975-986 | one unparseable RAID anywhere makes the contribution UNKNOWN with only the parse or unit message; what the earlier RAIDs found is not reported |
| Checks.DifferentUnitsAbort | check_thecus_nas.php:964-979 | "512.00 GB / 1.00 TB" gives the different-units abort |
| Checks.DiskUsageReportScanned | check_thecus_nas.php:946-1002 | without an abort the text is "Disk usage: " and the joined RAID texts, the perfdata the space-joined entries (none for an empty list), and the code is the worst RAID level or OK |
| Session.CheckErrorPriority | check_thecus_nas.php:1297-1322 | a transfer raises nothing exactly when there is no curl error, no logout page in the body and no redirect to the unauthorized or in-use page; a curl error wins; a logout page wins over the redirects; each class carries its fixed message |
| Session.LoginFieldsFree | check_thecus_nas.php:1210-1216 | no login form field contains '&' |
| Session.LoginFormRoundTrip | check_thecus_nas.php:1210-1216 | the form splits on '&' into its seven fields, and the username and password fields decode back to the credentials |
| Session.SingleTransfer | check_thecus_nas.php:1268-1285 | without re-login a request is exactly one transfer; it returns the decoded reply or raises that transfer's exception |
| Session.LoginShape | check_thecus_nas.php:1208-1225 | login posts the form once and succeeds exactly when the transfer is clean and the reply's success field is "true" |
| Session.RequestTrace | check_thecus_nas.php:1268-1282 | a request makes one transfer, or, only after a refusal with re-login allowed, the request and a login, or the request, a login and one retry; never more than three |
| Session.OtherErrorsPropagate | check_thecus_nas.php:1268-1282 | an exception other than a refusal, or any exception with re-login off, propagates after one transfer |
| Session.LoginFailureStops | check_thecus_nas.php:1271-1274 | a failed re-login ends the request without a retry |
| Session.RetryRefusedPropagates | check_thecus_nas.php:1271-1274 | a retry that is refused again raises "Not authorized" with no second login |
| Session.CookieFilenameInjective | check_thecus_nas.php:1329-1334 | for host names without '-', distinct host and user pairs get distinct cookie files |
| Session.CookieFilenameCollision | check_thecus_nas.php:1329-1334 | with a '-' in the host name two different pairs share one cookie file |
| Status.AddIsMonotone | check_thecus_nas.php:300-315 | a contribution never lowers the code, and it keeps every earlier text and perfdata entry in place |
| Status.AddAllAggregates | check_thecus_nas.php:300-315 | after any sequence of contributions, the code is the maximum of the initial code and every contribution's code; texts and perfdata are all the contributions' entries, in order, none lost or duplicated |
| Status.AddAllCode | check_thecus_nas.php:302-304 | the code part of the above |
| Status.AddAllLists | check_thecus_nas.php:306-312 | the list part of the above |
| Status.CodeIgnoresOrder | check_thecus_nas.php:302-304 | the final code does not depend on the order of the contributions |
| Status.SetForgets | check_thecus_nas.php:264-285 | setting a single message leaves exactly that code, that message (none if empty) and no perfdata |
| Status.RenderStatusWord | check_thecus_nas.php:483-502 | the output line opens with the name of the code, and a code other than 0 to 3 is named UNKNOWN |
| Status.RenderPipe | check_thecus_nas.php:549-552 | when no text contains a pipe character, the output line contains one exactly when there is perfdata |
| Status.RenderDefaultText | check_thecus_nas.php:543-547 | without texts and perfdata the line is "<CODE> - System working fine" and a newline |
| Thresholds.GetSet | check_thecus_nas.php:437-460 | a stored value reads back, and no other type or level changes |
| Thresholds.SetterChainIsDefaults | check_thecus_nas.php:124-141 | the constructor's setter calls, in order, build exactly the default table |
| Thresholds.DefaultValues | check_thecus_nas.php:51-72 | the defaults read back as 95/98, 80/90, 55/60, 32/320, 1/1, and for uptime 300 under WARNING and 1200 under CRITICAL |
| Thresholds.DefaultsAt | check_thecus_nas.php:124-141 | every type has a WARNING and a CRITICAL default and no other level |
| Thresholds.Evaluate | check_thecus_nas.php:928-934 | the comparison always gives OK, WARNING or CRITICAL |
| Thresholds.NullNeverTriggers | check_thecus_nas.php:1062-1068 | a null threshold never triggers its level |
| Thresholds.Bands | check_thecus_nas.php:928-934 | with warn ≤ crit the comparison gives OK below warn, WARNING from warn to crit, and CRITICAL from crit up |
| Thresholds.EvaluateMonotone | check_thecus_nas.php:968-972 | a larger value never gives a lower level |
| Thresholds.EscalateIsMax | check_thecus_nas.php:1062-1068 | the SMART update of the code is the maximum with the level found |
| Capacity.RunEnd | check_thecus_nas.php:948 | a character-class run ends just before the first character outside the class |
| Capacity.FirstMatch | check_thecus_nas.php:948 | the search stops at the leftmost position where the pattern matches |
| Capacity.MatchIff | check_thecus_nas.php:961 | the pattern matches exactly when it matches at some position |
| Capacity.MatchAtShape | check_thecus_nas.php:948 | a match captures two non-empty amounts of digits and dots and two units of the form one of KMGTP followed by B |
| Capacity.QuantityAtFormatted | check_thecus_nas.php:948 | an amount, an optional space and a unit are read back as they were written |
| Capacity.FormatThenMatch | check_thecus_nas.php:948 | any text of the form amount, unit, separator, amount, unit is matched with those four captures |
| Capacity.MatchFromParts | check_thecus_nas.php:948 | the match is put together from the first quantity, the separator run and the second quantity |
| Capacity.TypicalCapacity | check_thecus_nas.php:961-964 | "512.00 GB / 1.00 TB" captures 512.00, GB, 1.00 and TB |
| Capacity.NoUnitNoMatch | check_thecus_nas.php:961-963 | a bare number does not match |
| Text.ContainsIff | check_thecus_nas.php:1307 | the substring search succeeds exactly when the needle occurs at some position |
| Text.HasTailIsSuffix | check_thecus_nas.php:1313 | the suffix comparison succeeds exactly when the text ends with the suffix |
| Text.TrimShape | check_thecus_nas.php:511 | trim leaves a slice that has only whitespace around it and that neither starts nor ends with whitespace |
| Text.TrimIdempotent | check_thecus_nas.php:511 | trimming twice is trimming once |
| Text.ToLower | check_thecus_nas.php:511 | lower-casing maps every character on its own and keeps the length |
| Text.ToLowerIdempotent | check_thecus_nas.php:511 | lower-casing twice is lower-casing once, and leaves no upper-case letter |
| Text.JoinHasChar | check_thecus_nas.php:544 | a joined text contains a character exactly when a piece does, or when the separator does and there are two or more pieces |
| Text.SplitJoin | check_thecus_nas.php:937 | splitting a joined text on a separator that no piece contains gives the pieces back |
| Text.NatToText | check_thecus_nas.php:812 | a printed number is a non-empty string of digits with no leading zero |
| Text.NatToTextRoundTrip | check_thecus_nas.php:812 | the digits of a printed number have that number as their value |
| Text.NatToTextInjective | check_thecus_nas.php:808 | distinct numbers print differently |
| Text.IntToTextChars | check_thecus_nas.php:936-937 | a printed integer holds only digits and '-' |
| Text.UrlRoundTrip | check_thecus_nas.php:1210-1213 | decoding an encoded string gives it back |
| Text.UrlEncodeHasNoSeparators | check_thecus_nas.php:1210-1213 | an encoded string contains no '&' and no '=' |

## Left out

- Command-line parsing (getopt, the ini file, --help) is not modelled. The only option modelled is -t, as the `typeArg` argument of `Check`; the other options are constructor or field values.
- Printing the output line and exiting are not modelled. `Check` returns the output line and the exit code instead.
- curl, the cookie jar on disk and `initCookie` are not modelled. The network is an oracle of replies plus a log of requests, and the cookie file name is a function only.
- Device numbers are integers only: `Json.Value` has no float. A float in a reply is not represented. For example, `"smart_status": 0.0` is CRITICAL in the source, because `0 !== 0.0`, and a fractional `cpu_loading` or `trayno` would print differently.
- `json_decode` and `intval`'s text parsing are not modelled. A reply is given as a decoded value, and a string value carries the integer `intval` reads from it.
- The disk usage percentage (`floatval`, division, `round(…, 2)` and its printed form) is a parameter, `Percentage`. The model does not fix its floating-point arithmetic.
- The checker reads thresholds by type through its per-type getters and setters; the model names the type with `Kind`. A threshold type the source does not define cannot be given.
- `checkUptime` is not modelled. It is not part of any check type, and it raises an exception unconditionally.
- `getNasStatus` and `logout` are not modelled, because no modelled routine calls them. The plain accessors for credentials, status and cookie directory are not modelled separately; they are field reads and writes.
- A credential that was never set (PHP null) is "" in the model, which `empty` treats the same way.
- "°C" is a Dafny string of the two characters, not the UTF-8 byte sequence the source file holds.
- Output line: PHP_EOL is "\n".
- Errors that PHP itself raises on malformed replies are not modelled, for example a property read on a non-object or a string conversion of an object. A missing list reads as empty, and an object prints as "".
- The try block of `check()` catches only ThecusException. Every exception the model raises is a Thecus exception, which the modelled handler catches. PHP engine errors are not modelled. One of them, the DivisionByZeroError described below, is not a ThecusException: it ends the program with no output line and exit code 255.
- `Json.Items` reads a JSON object as an empty list. PHP's `foreach` visits its property values in the order json_decode stored them. The model cannot state that order, because `Obj` is an unordered map. This affects three loops: the RAID loop of checkRaidHealth (line 862), the disk loop of checkDiskHealth (line 897) and the RAID loop of checkDiskUsage (line 959). A list given as a JSON array is modelled exactly.
- `Checks.UsageStep` and `Checks.Percentage`: the total may parse to zero, for example in "0 GB / 0 GB" or with "." as the amount. Then the division on line 967 raises PHP 8's DivisionByZeroError, which no handler catches. The model instead takes whatever value `percent` gives, and the run continues normally.
- CheckRaidHealth: does not promise the source's result when raid_list is a JSON object rather than an array; the model treats it as empty (see `Json.Items` above).
- RaidStatus: does not promise the source's result when raid_list is a JSON object rather than an array; the model treats it as empty (see `Json.Items` above).
- CheckDiskHealth: does not promise the source's result when disk_data is a JSON object rather than an array; the model treats it as empty (see `Json.Items` above).
- CheckDiskUsage: two gaps. When raid_list is a JSON object the model treats it as empty (see `Json.Items` above). A zero total gives an ordinary report, where the source stops with an uncaught DivisionByZeroError (see `Checks.UsageStep` above).
- UsageStatus: two gaps. When raid_list is a JSON object the model treats it as empty. A zero total gives an ordinary report, where the source stops with an uncaught DivisionByZeroError.
- UsageEntry: the source's step has a third outcome that the model leaves out. A zero total raises an uncaught DivisionByZeroError on line 967; the model records the step with `percent`'s value instead.
- Check: on a zero disk-usage total the source prints no output line and exits with code 255, not a status code. The model returns the rendered line and a status code.
- ExitCodeAgreesWithOutput: its "every run" includes the zero-total disk-usage run. The source ends that run without any output line, so the lemma's promise does not hold for it in the source.
- The code's exception handler replaces the whole aggregate rather than adding an UNKNOWN contribution; the model follows the code (`Checker.ExceptionDiscardsResult`).
- The "System healthy" text of the health check can never be added. The model keeps the check as written and proves that it never fires (`Checks.HealthyTextNeverAdded`).
- The uptime defaults are stored swapped, as written in the constructor: the warning constant is under CRITICAL (`Thresholds.DefaultValues`). No modelled routine reads the uptime thresholds.
- The SMART temperature is evaluated only when ATTR197 is set, not ATTR194, as written. The model states this and does not correct it (`Checks.SmartTemperatureGuard`).
