/**
 * The checker object: its fields, the status aggregator methods that update
 * them, the request methods, the check routines as methods with their loops,
 * and check(), which runs the selected check and replaces the whole result
 * with UNKNOWN when a Thecus exception ends it.
 *
 * Each method is tied to the function of the Checks or Session module that
 * it implements; the properties of the plugin are proved about those
 * functions and about the functions of this module.
 */
module Checker {
  import opened Wrappers
  import opened Text
  import opened Json
  import opened Status
  import opened Thresholds
  import opened Session
  import opened Checks
  import Capacity

  // ----- check types and option checks ---------------------------------------

  /** The three check types, named "health", "cpu" and "disk-usage" on the command line. */
  datatype CheckType = HealthCheck | CpuCheck | DiskUsageCheck

  function CheckTypeName(ct: CheckType): string {
    match ct
    case HealthCheck => "health"
    case CpuCheck => "cpu"
    case DiskUsageCheck => "disk-usage"
  }

  const InvalidCheckType := "Invalid check type"

  /** setCheckType's validation: the argument is trimmed and lower-cased, then compared with the three names. */
  function ParseCheckType(arg: string): Result<CheckType, Error> {
    var t := ToLower(Trim(arg));
    if t == "health" then Success(HealthCheck)
    else if t == "cpu" then Success(CpuCheck)
    else if t == "disk-usage" then Success(DiskUsageCheck)
    else Failure(Generic(InvalidCheckType))
  }

  /**
   * An argument is accepted exactly when, trimmed and lower-cased, it is the
   * name of a check type, and then it selects that type; anything else
   * raises a Thecus exception with the message "Invalid check type".
   */
  lemma ParseCheckTypeMeaning(arg: string, ct: CheckType)
    ensures ParseCheckType(arg) == Success(ct) <==> ToLower(Trim(arg)) == CheckTypeName(ct)
    ensures ParseCheckType(arg).Failure? <==>
      (forall c: CheckType :: ToLower(Trim(arg)) != CheckTypeName(c))
    ensures ParseCheckType(arg).Failure? ==> ParseCheckType(arg).error == Generic(InvalidCheckType)
  {
    if ParseCheckType(arg).Failure? {
      forall c: CheckType ensures ToLower(Trim(arg)) != CheckTypeName(c) {
        ParseCheckTypeNames(arg, c);
      }
    } else {
      ParseCheckTypeNames(arg, ParseCheckType(arg).value);
    }
  }

  lemma ParseCheckTypeNames(arg: string, c: CheckType)
    ensures ToLower(Trim(arg)) == CheckTypeName(c) <==> ParseCheckType(arg) == Success(c)
  {
  }

  /** Each name is accepted as it is written, and also with blanks around it. */
  lemma ParseCheckTypeRoundTrip(ct: CheckType, pre: string, post: string)
    requires IsBlank(pre) && IsBlank(post)
    ensures ParseCheckType(pre + CheckTypeName(ct) + post) == Success(ct)
    ensures ParseCheckType(CheckTypeName(ct)) == Success(ct)
  {
    var name := CheckTypeName(ct);
    TrimPadded(pre, name, post);
    TrimPadded([], name, []);
    assert [] + name + [] == name;
    NameIsLower(ct);
  }

  lemma NameIsLower(ct: CheckType)
    ensures ToLower(CheckTypeName(ct)) == CheckTypeName(ct)
  {
    var name := CheckTypeName(ct);
    assert forall i :: 0 <= i < |name| ==> LowerChar(name[i]) == name[i];
    assert ToLower(name) == name;
  }

  /** Trimming a word that neither starts nor ends with a blank removes exactly the blanks around it. */
  lemma TrimPadded(pre: string, w: string, post: string)
    requires IsBlank(pre) && IsBlank(post) && w != [] && !IsTrimChar(w[0]) && !IsTrimChar(w[|w| - 1])
    ensures Trim(pre + w + post) == w
  {
    TrimStartPadded(pre, w + post);
    assert pre + w + post == pre + (w + post);
    TrimEndPadded(w, post);
  }

  lemma {:induction false} TrimStartPadded(pre: string, s: string)
    requires IsBlank(pre) && s != [] && !IsTrimChar(s[0])
    ensures TrimStart(pre + s) == s
    decreases |pre|
  {
    if pre != [] {
      assert (pre + s)[1..] == pre[1..] + s;
      TrimStartPadded(pre[1..], s);
    } else {
      assert pre + s == s;
    }
  }

  lemma {:induction false} TrimEndPadded(s: string, post: string)
    requires IsBlank(post) && s != [] && !IsTrimChar(s[|s| - 1])
    ensures TrimEnd(s + post) == s
    decreases |post|
  {
    if post != [] {
      assert (s + post)[..|s + post| - 1] == s + post[..|post| - 1];
      TrimEndPadded(s, post[..|post| - 1]);
    } else {
      assert s + post == s;
    }
  }

  const HostnameMissing := "Hostname missing. Use --help for usage information."
  const UsernameMissing := "Username missing. Use --help for usage information."
  const PasswordMissing := "Password missing. Use --help for usage information."
  const CheckTypeMissing := "Check type not specified. Use --help for usage information."

  /** checkOpts: the first of host name, user name, password and check type that is missing raises an exception. */
  function OptsError(cred: Credentials, checkType: Option<CheckType>): Option<Error> {
    if Empty(cred.hostname) then Some(Generic(HostnameMissing))
    else if Empty(cred.username) then Some(Generic(UsernameMissing))
    else if Empty(cred.password) then Some(Generic(PasswordMissing))
    else if checkType.None? then Some(Generic(CheckTypeMissing))
    else None
  }

  /**
   * The options pass exactly when host name, user name and password are all
   * non-empty (neither "" nor "0") and a check type is set; otherwise the
   * first missing one, in that order, is reported.
   */
  lemma OptsErrorMeaning(cred: Credentials, checkType: Option<CheckType>)
    ensures OptsError(cred, checkType).None? <==>
      !Empty(cred.hostname) && !Empty(cred.username) && !Empty(cred.password) && checkType.Some?
    ensures Empty(cred.hostname) ==> OptsError(cred, checkType) == Some(Generic(HostnameMissing))
    ensures !Empty(cred.hostname) && Empty(cred.username) ==> OptsError(cred, checkType) == Some(Generic(UsernameMissing))
    ensures !Empty(cred.hostname) && !Empty(cred.username) && Empty(cred.password) ==>
      OptsError(cred, checkType) == Some(Generic(PasswordMissing))
    ensures OptsError(cred, checkType) == Some(Generic(CheckTypeMissing)) <==>
      !Empty(cred.hostname) && !Empty(cred.username) && !Empty(cred.password) && checkType.None?
  {
  }

  // ----- check() -------------------------------------------------------------

  /** The configuration of the checker: everything but the result and the network. */
  datatype Settings = Settings(cred: Credentials, checkType: Option<CheckType>, thresholds: Table, cookieDir: string)

  function EnvOf(s: Settings): Env {
    Env(s.cred, s.thresholds)
  }

  /** The check type after the -t option (None when the option is not given), or the exception it raises. */
  function TypeAfter(checkType: Option<CheckType>, typeArg: Option<string>): Result<Option<CheckType>, Error> {
    if typeArg.None? then Success(checkType)
    else
      var parsed := ParseCheckType(typeArg.value);
      if parsed.Failure? then Failure(parsed.error) else Success(Some(parsed.value))
  }

  /** The routine the check type selects. */
  function Dispatch(env: Env, ct: CheckType, percent: Percentage, info: StatusInfo, net: Network): Run {
    match ct
    case HealthCheck => HealthRun(env, info, net)
    case CpuCheck => CpuRun(env, info, net)
    case DiskUsageCheck => DiskUsageRun(env, percent, info, net)
  }

  /** The body of check()'s try block: the check type option, checkOpts, then the selected check. */
  function CheckRun(s: Settings, typeArg: Option<string>, percent: Percentage, info: StatusInfo, net: Network): Run {
    var parsed := TypeAfter(s.checkType, typeArg);
    if parsed.Failure? then Run(info, net, Some(parsed.error))
    else
      var err := OptsError(s.cred, parsed.value);
      if err.Some? then Run(info, net, err)
      else Dispatch(EnvOf(s), parsed.value.value, percent, info, net)
  }

  /** check()'s handler: a Thecus exception replaces the whole result by UNKNOWN and the exception's message. */
  function Final(run: Run): StatusInfo {
    if run.err.Some? then Status.Set(UNKNOWN, Single(run.err.value.msg), Absent) else run.info
  }

  /**
   * An exception leaves exactly UNKNOWN with its message (no text when the
   * message is empty) and no performance data: every text and perfdata entry
   * aggregated before it is discarded.
   */
  lemma ExceptionDiscardsResult(info: StatusInfo, net: Network, e: Error)
    ensures Final(Run(info, net, Some(e))).code == UNKNOWN
    ensures Final(Run(info, net, Some(e))).texts == (if Empty(e.msg) then [] else [e.msg])
    ensures Final(Run(info, net, Some(e))).perf == []
    ensures forall other: StatusInfo :: Final(Run(other, net, Some(e))) == Final(Run(info, net, Some(e)))
  {
  }

  /** A report whose code is one of the four plugin codes keeps the aggregated code one of them. */
  lemma AddKeepsCode(info: StatusInfo, r: Report)
    requires IsStatusCode(info.code) && IsStatusCode(r.code)
    ensures IsStatusCode(Add(info, r).code)
  {
  }

  lemma SystemKeepsCode(env: Env, info: StatusInfo, net: Network)
    requires IsStatusCode(info.code)
    ensures IsStatusCode(SystemHealthRun(env, info, net).info.code)
  {
    var ex := JsonRequest(env.cred, SysStatusUri, None, true, net);
    if ex.result.Success? {
      SystemReportMeaning(ex.result.value);
    }
  }

  lemma RaidKeepsCode(env: Env, info: StatusInfo, net: Network)
    requires IsStatusCode(info.code)
    ensures IsStatusCode(RaidHealthRun(env, info, net).info.code)
  {
    var ex1 := JsonRequest(env.cred, RaidAccessUri, None, true, net);
    if ex1.result.Success? {
      var ex2 := JsonRequest(env.cred, RaidListUri, None, true, ex1.net);
      if ex2.result.Success? {
        RaidReportCode(ex1.result.value, ex2.result.value);
      }
    }
  }

  lemma DiskStepKeepsCode(env: Env, disk: Value, info: StatusInfo, net: Network)
    requires IsStatusCode(info.code)
    ensures IsStatusCode(DiskStep(env, disk, info, net).info.code)
  {
    var ex := SmartExchange(env, disk, net);
    if ex.result.Success? {
      SmartReportMeaning(env.thresholds, Field(disk, "trayno"), ex.result.value);
    }
  }

  lemma {:induction false} DiskRunKeepsCode(env: Env, disks: seq<Value>, info: StatusInfo, net: Network)
    requires IsStatusCode(info.code)
    ensures IsStatusCode(DiskRun(env, disks, info, net).info.code)
    decreases |disks|
  {
    if disks != [] {
      var step := DiskStep(env, disks[0], info, net);
      DiskStepKeepsCode(env, disks[0], info, net);
      if step.err.None? {
        DiskRunKeepsCode(env, disks[1..], step.info, step.net);
      }
    }
  }

  lemma HealthKeepsCode(env: Env, info: StatusInfo, net: Network)
    requires IsStatusCode(info.code)
    ensures IsStatusCode(HealthRun(env, info, net).info.code)
  {
    SystemKeepsCode(env, info, net);
    var r1 := SystemHealthRun(env, info, net);
    RaidKeepsCode(env, r1.info, r1.net);
    var r2 := RaidHealthRun(env, r1.info, r1.net);
    var ex3 := JsonRequest(env.cred, DiskInfoUri, None, true, r2.net);
    if ex3.result.Success? {
      DiskRunKeepsCode(env, Items(Field(ex3.result.value, "disk_data")), r2.info, ex3.net);
    }
  }

  lemma UsageKeepsCode(env: Env, percent: Percentage, info: StatusInfo, net: Network)
    requires IsStatusCode(info.code)
    ensures IsStatusCode(DiskUsageRun(env, percent, info, net).info.code)
  {
    var ex := JsonRequest(env.cred, RaidListUri, None, true, net);
    if ex.result.Success? {
      var raids := Items(Field(ex.result.value, "raid_list"));
      ScanUsageAborts(env.thresholds, Capacity.Match, percent, OK, [], [], raids);
      FirstFailureMeaning(Capacity.Match, raids);
      if AllParse(Capacity.Match, raids) {
        ScanUsageCode(env.thresholds, Capacity.Match, percent, OK, [], [], raids);
        forall i | 0 <= i < |raids| ensures RaidUsageLevel(env.thresholds, Capacity.Match, percent, raids[i]) <= CRITICAL {
        }
      }
    }
  }

  /**
   * The plugin's exit code is always one of the four Nagios codes, and the
   * status word at the start of its output line names that same code.
   */
  lemma ExitCodeAgreesWithOutput(s: Settings, typeArg: Option<string>, percent: Percentage, info: StatusInfo, net: Network)
    requires IsStatusCode(info.code)
    ensures IsStatusCode(Final(CheckRun(s, typeArg, percent, info, net)).code)
    ensures var out := Final(CheckRun(s, typeArg, percent, info, net));
      StatusWord(Render(out)) == out.code
  {
    var run := CheckRun(s, typeArg, percent, info, net);
    var parsed := TypeAfter(s.checkType, typeArg);
    if parsed.Success? && OptsError(s.cred, parsed.value).None? {
      var env := EnvOf(s);
      match parsed.value.value
      case HealthCheck => HealthKeepsCode(env, info, net);
      case CpuCheck =>
      case DiskUsageCheck => UsageKeepsCode(env, percent, info, net);
    }
    RenderStatusWord(Final(run));
  }

  // ----- the checker object --------------------------------------------------

  const DefaultCookieDir := "/tmp"

  /**
   * ThecusChecker. The fields are those of the source; a host name, user
   * name or password that was never set (PHP's null) is "" here. `net` is
   * the device as seen through curl: the replies it will give and the
   * transfers made so far.
   */
  class ThecusChecker {
    var hostname: string
    var username: string
    var password: string
    var checkType: Option<CheckType>
    var statusCode: int
    var statusText: seq<string>
    var perfData: seq<string>
    var thresholds: Table
    var cookieDir: string
    var net: Network

    /** The aggregated result held in statusCode, statusText and perfData. */
    function Info(): StatusInfo
      reads this
    {
      StatusInfo(statusCode, statusText, perfData)
    }

    function Cred(): Credentials
      reads this
    {
      Credentials(hostname, username, password)
    }

    function Config(): Settings
      reads this
    {
      Settings(Cred(), checkType, thresholds, cookieDir)
    }

    function Env(): Env
      reads this
    {
      EnvOf(Config())
    }

    /**
     * The constructor: the three optional arguments are stored only when
     * they are not empty, and the default thresholds are set in order.
     */
    constructor (host: Option<string>, user: Option<string>, pass: Option<string>, device: nat -> Outcome)
      ensures hostname == (if host.Some? && !Empty(host.value) then host.value else "")
      ensures username == (if user.Some? && !Empty(user.value) then user.value else "")
      ensures password == (if pass.Some? && !Empty(pass.value) then pass.value else "")
      ensures thresholds == Defaults()
      ensures statusCode == OK && statusText == [] && perfData == []
      ensures checkType == None && cookieDir == DefaultCookieDir
      ensures net == Network(device, [])
    {
      hostname, username, password := "", "", "";
      checkType := None;
      statusCode, statusText, perfData := OK, [], [];
      thresholds := map[];
      cookieDir := DefaultCookieDir;
      net := Network(device, []);
      new;
      SetDefaultThresholds();
      if host.Some? && !Empty(host.value) {
        hostname := host.value;
      }
      if user.Some? && !Empty(user.value) {
        username := user.value;
      }
      if pass.Some? && !Empty(pass.value) {
        password := pass.value;
      }
    }

    /** The twelve setter calls of the constructor, in its order. */
    method SetDefaultThresholds()
      requires thresholds == map[]
      modifies this
      ensures thresholds == Defaults()
      ensures hostname == old(hostname) && username == old(username) && password == old(password)
      ensures statusCode == old(statusCode) && statusText == old(statusText) && perfData == old(perfData)
      ensures checkType == old(checkType) && cookieDir == old(cookieDir) && net == old(net)
    {
      SetThreshold(CpuUsage, WARNING, Some(DefaultCpuWarn));
      SetThreshold(CpuUsage, CRITICAL, Some(DefaultCpuCrit));
      SetThreshold(DiskUsage, WARNING, Some(DefaultDiskUsageWarn));
      SetThreshold(DiskUsage, CRITICAL, Some(DefaultDiskUsageCrit));
      SetThreshold(DiskTemp, WARNING, Some(DefaultDiskTempWarn));
      SetThreshold(DiskTemp, CRITICAL, Some(DefaultDiskTempCrit));
      SetThreshold(ReallocatedSector, WARNING, Some(DefaultReallocSectWarn));
      SetThreshold(ReallocatedSector, CRITICAL, Some(DefaultReallocSectCrit));
      SetThreshold(CurrentPendingSector, WARNING, Some(DefaultCurPendingSectWarn));
      SetThreshold(CurrentPendingSector, CRITICAL, Some(DefaultCurPendingSectCrit));
      SetThreshold(Uptime, CRITICAL, Some(DefaultUptimeWarn));
      SetThreshold(Uptime, WARNING, Some(DefaultUptimeCrit));
      SetterChainIsDefaults();
    }

    /** setThreshold: stores one value, creating the type's inner table on first use. */
    method SetThreshold(kind: Kind, level: int, value: Option<int>)
      modifies this
      ensures thresholds == Thresholds.Set(old(thresholds), kind, level, value)
      ensures Info() == old(Info()) && Cred() == old(Cred()) && net == old(net)
      ensures checkType == old(checkType) && cookieDir == old(cookieDir)
    {
      if kind !in thresholds {
        thresholds := thresholds[kind := map[]];
      }
      thresholds := thresholds[kind := thresholds[kind][level := value]];
    }

    /**
     * addStatusInfo: the code is raised to the new one when that is higher,
     * and a text and a performance entry are appended when given.
     */
    method AddStatusInfo(code: int, text: Option<string>, perf: Option<string>)
      modifies this
      ensures Info() == Add(old(Info()), Report(code, text, perf))
      ensures statusCode == Max(old(statusCode), code)
      ensures statusText == old(statusText) + Present(text) && perfData == old(perfData) + Present(perf)
      ensures Config() == old(Config()) && net == old(net)
    {
      if code > statusCode {
        statusCode := code;
      }
      if text.Some? {
        statusText := statusText + [text.value];
      }
      if perf.Some? {
        perfData := perfData + [perf.value];
      }
    }

    /** setStatusInfo: the whole result is replaced. */
    method SetStatusInfo(code: int, text: TextArg, perf: TextArg)
      modifies this
      ensures Info() == Status.Set(code, text, perf)
      ensures Config() == old(Config()) && net == old(net)
    {
      statusCode := code;
      if text.Absent? || (text.Single? && Empty(text.s)) || (text.Many? && text.xs == []) {
        statusText := [];
      } else if text.Many? {
        statusText := text.xs;
      } else {
        statusText := [text.s];
      }
      if perf.Absent? || (perf.Single? && Empty(perf.s)) || (perf.Many? && perf.xs == []) {
        perfData := [];
      } else if perf.Many? {
        perfData := perf.xs;
      } else {
        perfData := [perf.s];
      }
    }

    /** setCheckType: stores the selected type, or raises "Invalid check type" and changes nothing. */
    method SetCheckType(arg: string) returns (err: Option<Error>)
      modifies this
      ensures ParseCheckType(arg).Success? ==> err == None && checkType == Some(ParseCheckType(arg).value)
      ensures ParseCheckType(arg).Failure? ==> err == Some(Generic(InvalidCheckType)) && checkType == old(checkType)
      ensures Info() == old(Info()) && Cred() == old(Cred()) && net == old(net)
      ensures thresholds == old(thresholds) && cookieDir == old(cookieDir)
    {
      var t := ToLower(Trim(arg));
      if t == CheckTypeName(HealthCheck) {
        checkType := Some(HealthCheck);
      } else if t == CheckTypeName(CpuCheck) {
        checkType := Some(CpuCheck);
      } else if t == CheckTypeName(DiskUsageCheck) {
        checkType := Some(DiskUsageCheck);
      } else {
        return Some(Generic(InvalidCheckType));
      }
      return None;
    }

    /**
     * jsonRequest: one transfer of the request, then checkError; an
     * authorization failure with autoLogin set logs in and sends the request
     * once more without autoLogin.
     */
    method JsonRequest(uri: string, post: Option<string>, autoLogin: bool) returns (r: Result<Value, Error>)
      modifies this
      decreases if autoLogin then 2 else 0
      ensures Exchange(r, net) == Session.JsonRequest(old(Cred()), uri, post, autoLogin, old(net))
      ensures Info() == old(Info()) && Config() == old(Config())
    {
      var url := Url(hostname, uri);
      var reply := net.replies(|net.sent|);
      net := net.(sent := net.sent + [Request(url, post)]);
      var err := CheckError(reply);
      if err.None? {
        return Success(reply.decoded);
      }
      if err.value.Authorization? {
        if autoLogin {
          var login := Login();
          if login.Failure? {
            return login;
          }
          r := JsonRequest(uri, post, false);
          return;
        }
      }
      return Failure(err.value);
    }

    /** login: posts the login form without automatic re-login and insists on success "true". */
    method Login() returns (r: Result<Value, Error>)
      modifies this
      decreases 1
      ensures Exchange(r, net) == Session.Login(old(Cred()), old(net))
      ensures Info() == old(Info()) && Config() == old(Config())
    {
      var form := LoginForm(Cred());
      r := JsonRequest(LoginUri, Some(form), false);
      if r.Failure? {
        return;
      }
      if !LooseEquals(Field(r.value, "success"), "true") {
        var error := ToText(Field(Field(r.value, "errormsg"), "msg"));
        return Failure(Authentication(error));
      }
    }

    /** checkSystemHealth: the hardware status from the system status reply, added to the result. */
    method CheckSystemHealth() returns (err: Option<Error>)
      modifies this
      ensures Run(Info(), net, err) == SystemHealthRun(old(Env()), old(Info()), old(net))
      ensures Config() == old(Config())
    {
      var reply := JsonRequest(SysStatusUri, None, true);
      if reply.Failure? {
        return Some(reply.error);
      }
      var r := SystemStatus(reply.value);
      AddStatusInfo(r.code, r.text, r.perf);
      return None;
    }

    /** checkRaidHealth: the access status, then the RAID list, then one report added to the result. */
    method CheckRaidHealth() returns (err: Option<Error>)
      modifies this
      ensures Run(Info(), net, err) == RaidHealthRun(old(Env()), old(Info()), old(net))
      ensures Config() == old(Config())
    {
      var access := JsonRequest(RaidAccessUri, None, true);
      if access.Failure? {
        return Some(access.error);
      }
      var list := JsonRequest(RaidListUri, None, true);
      if list.Failure? {
        return Some(list.error);
      }
      var r := RaidStatus(access.value, list.value);
      AddStatusInfo(r.code, r.text, r.perf);
      return None;
    }

    /** checkSmartInfo: the SMART request of one disk and its evaluation; the result is returned, not added. */
    method CheckSmartInfo(diskNo: Value, trayNo: Value) returns (r: Report, err: Option<Error>)
      modifies this
      ensures var ex := Session.JsonRequest(old(Cred()), SmartUri(diskNo, trayNo), None, true, old(net));
        && net == ex.net
        && (ex.result.Failure? ==> err == Some(ex.result.error))
        && (ex.result.Success? ==> err == None && r == SmartReport(old(thresholds), trayNo, ex.result.value))
      ensures Info() == old(Info()) && Config() == old(Config())
    {
      var smart := JsonRequest(SmartUri(diskNo, trayNo), None, true);
      if smart.Failure? {
        return Report(OK, None, None), Some(smart.error);
      }
      r := SmartStatus(thresholds, trayNo, smart.value);
      return r, None;
    }

    /**
     * checkDiskHealth: for each disk of the list, N/A is skipped, Critical
     * is added directly, and any other state adds its SMART result, raised to
     * at least WARNING for Warning.
     */
    method CheckDiskHealth() returns (err: Option<Error>)
      modifies this
      ensures Run(Info(), net, err) == DiskHealthRun(old(Env()), old(Info()), old(net))
      ensures Config() == old(Config())
    {
      var reply := JsonRequest(DiskInfoUri, None, true);
      if reply.Failure? {
        return Some(reply.error);
      }
      var disks := Items(Field(reply.value, "disk_data"));
      ghost var env, info1, net1 := Env(), Info(), net;
      assert disks[0..] == disks;
      for i := 0 to |disks|
        invariant Config() == old(Config()) && Env() == env
        invariant DiskRun(env, disks[i..], Info(), net) == DiskRun(env, disks, info1, net1)
      {
        var disk := disks[i];
        assert disks[i..][1..] == disks[i + 1..];
        var status := Field(disk, "s_status");
        if LooseEquals(status, "N/A") {
        } else if LooseEquals(status, "Critical") {
          AddStatusInfo(CRITICAL, Some(CriticalDiskText(disk)), None);
        } else {
          var smart, e := CheckSmartInfo(Field(disk, "diskno"), Field(disk, "trayno"));
          if e.Some? {
            return e;
          }
          if LooseEquals(status, "Warning") {
            smart := smart.(code := Max(WARNING, smart.code));
          }
          AddStatusInfo(smart.code, smart.text, smart.perf);
        }
      }
      assert disks[|disks|..] == [];
      return None;
    }

    /** checkHealth: the hardware, RAID and disk checks, then "System healthy" for an OK result without text. */
    method CheckHealth() returns (err: Option<Error>)
      modifies this
      ensures Run(Info(), net, err) == HealthRun(old(Env()), old(Info()), old(net))
      ensures Config() == old(Config())
    {
      err := CheckSystemHealth();
      if err.Some? {
        return;
      }
      err := CheckRaidHealth();
      if err.Some? {
        return;
      }
      err := CheckDiskHealth();
      if err.Some? {
        return;
      }
      if statusCode == OK && statusText == [] {
        AddStatusInfo(statusCode, Some("System healthy"), None);
      }
    }

    /** checkCpuUsage: the load from the system status against the CPU thresholds, with its performance entry. */
    method CheckCpuUsage() returns (err: Option<Error>)
      modifies this
      ensures Run(Info(), net, err) == CpuRun(old(Env()), old(Info()), old(net))
      ensures Config() == old(Config())
    {
      var crit := GetThreshold(CpuUsage, CRITICAL);
      var warn := GetThreshold(CpuUsage, WARNING);
      var sys := JsonRequest(SysStatusUri, None, true);
      if sys.Failure? {
        return Some(sys.error);
      }
      if sys.value != Null {
        var cpuUsage := IntVal(Field(sys.value, "cpu_loading"));
        var code;
        if crit.Some? && cpuUsage >= crit.value {
          code := CRITICAL;
        } else if warn.Some? && cpuUsage >= warn.value {
          code := WARNING;
        } else {
          code := OK;
        }
        var text := "CPU usage: " + IntToText(cpuUsage) + "%";
        var perf := "CPU=" + IntToText(cpuUsage) + ";" + ThresholdText(warn) + ";" + ThresholdText(crit) + ";0;100";
        AddStatusInfo(code, Some(text), Some(perf));
      }
      return None;
    }

    /** checkDiskUsage: the used space of every RAID against the disk usage thresholds. */
    method CheckDiskUsage(percent: Percentage) returns (err: Option<Error>)
      modifies this
      ensures Run(Info(), net, err) == DiskUsageRun(old(Env()), percent, old(Info()), old(net))
      ensures Config() == old(Config())
    {
      var list := JsonRequest(RaidListUri, None, true);
      if list.Failure? {
        return Some(list.error);
      }
      var r := UsageStatus(thresholds, percent, list.value);
      AddStatusInfo(r.code, r.text, r.perf);
      return None;
    }

    /** getThreshold: the stored value, or null when the type or the level was never set. */
    method GetThreshold(kind: Kind, level: int) returns (value: Option<int>)
      ensures value == Get(thresholds, kind, level)
    {
      if kind in thresholds && level in thresholds[kind] {
        return thresholds[kind][level];
      }
      return None;
    }

    /** checkOpts: the first missing option, as the exception it raises. */
    method CheckOpts() returns (err: Option<Error>)
      ensures err == OptsError(Cred(), checkType)
    {
      if Empty(hostname) {
        return Some(Generic(HostnameMissing));
      } else if Empty(username) {
        return Some(Generic(UsernameMissing));
      } else if Empty(password) {
        return Some(Generic(PasswordMissing));
      } else if checkType.None? {
        return Some(Generic(CheckTypeMissing));
      }
      return None;
    }

    /**
     * check(): the -t option, checkOpts, then the selected check; a Thecus
     * exception from any of them replaces the result by UNKNOWN and its
     * message. Returns the exit code and the line printed.
     */
    method Check(typeArg: Option<string>, percent: Percentage) returns (exitCode: int, output: string)
      modifies this
      ensures var run := CheckRun(old(Config()), typeArg, percent, old(Info()), old(net));
        Info() == Final(run) && net == run.net
      ensures var parsed := TypeAfter(old(checkType), typeArg);
        checkType == if parsed.Success? then parsed.value else old(checkType)
      ensures Cred() == old(Cred()) && thresholds == old(thresholds) && cookieDir == old(cookieDir)
      ensures output == Render(Info()) && exitCode == statusCode
    {
      var err := ApplyOptions(typeArg);
      if err.None? {
        err := RunSelected(percent);
      }
      if err.Some? {
        SetStatusInfo(UNKNOWN, Single(err.value.msg), Absent);
      }
      output := Render(Info());
      exitCode := statusCode;
    }

    /** The start of check()'s try block: the -t option, then checkOpts. */
    method ApplyOptions(typeArg: Option<string>) returns (err: Option<Error>)
      modifies this
      ensures var parsed := TypeAfter(old(checkType), typeArg);
        && (parsed.Failure? ==> err == Some(parsed.error) && checkType == old(checkType))
        && (parsed.Success? ==> checkType == parsed.value && err == OptsError(Cred(), checkType))
      ensures Info() == old(Info()) && Cred() == old(Cred()) && net == old(net)
      ensures thresholds == old(thresholds) && cookieDir == old(cookieDir)
    {
      if typeArg.Some? {
        err := SetCheckType(typeArg.value);
        if err.Some? {
          return;
        }
      }
      err := CheckOpts();
    }

    /** The dispatch of check() on the check type, which checkOpts has ensured is set. */
    method RunSelected(percent: Percentage) returns (err: Option<Error>)
      requires checkType.Some?
      modifies this
      ensures Run(Info(), net, err) == Dispatch(old(Env()), old(checkType).value, percent, old(Info()), old(net))
      ensures Config() == old(Config())
    {
      match checkType.value
      case HealthCheck =>
        err := CheckHealth();
      case CpuCheck =>
        err := CheckCpuUsage();
      case DiskUsageCheck =>
        err := CheckDiskUsage(percent);
    }
  }

  /**
   * The computation of checkSystemHealth on the reply: the CPU fan, fan 1,
   * then fans 2, 3, ... probed while sys_fan_speed<n> is set.
   */
  method SystemStatus(sys: Value) returns (r: Report)
    ensures r == SystemReport(sys)
  {
    var code := OK;
    var texts: seq<string> := [];
    if sys != Null {
      if !LooseEquals(Field(sys, "cpu_fan"), "OK") {
        code := Max(CRITICAL, code);
        texts := texts + ["CPU fan not OK"];
      }
      if IsSet(sys, "sys_fan_speed") && !LooseEquals(Field(sys, "sys_fan_speed"), "OK") {
        code := Max(CRITICAL, code);
        texts := texts + ["System fan 1 not OK"];
      }
      ghost var fixed := texts;
      assert fixed == (if LooseEquals(Field(sys, "cpu_fan"), "OK") then [] else ["CPU fan not OK"])
        + (if IsSet(sys, "sys_fan_speed") && !LooseEquals(Field(sys, "sys_fan_speed"), "OK")
           then ["System fan 1 not OK"] else []);
      code, texts := NumberedFans(sys, code, texts);
      assert texts == fixed + FanFailures(sys, 2);
    }
    ghost var failures := texts;
    assert failures == SystemFailures(sys);
    assert code == if failures == [] then OK else CRITICAL;
    if code == OK {
      texts := texts + ["Hardware working fine"];
    }
    assert texts == failures + (if code == OK then ["Hardware working fine"] else []);
    var text := if texts == [] then None else Some(Join(texts, ", "));
    assert "" + Join(texts, ", ") == Join(texts, ", ");
    assert text == Joined("", texts, ", ");
    return Report(code, text, None);
  }

  /** The loop over fans 2, 3, ... of checkSystemHealth, adding a text for each fan not reporting OK. */
  method NumberedFans(sys: Value, code0: int, texts0: seq<string>) returns (code: int, texts: seq<string>)
    requires code0 == if texts0 == [] then OK else CRITICAL
    ensures texts == texts0 + FanFailures(sys, 2)
    ensures code == if texts == [] then OK else CRITICAL
  {
    code, texts := code0, texts0;
    var fanNr: nat := 2;
    var fanName := "sys_fan_speed" + NatToText(fanNr);
    while IsSet(sys, fanName)
      invariant fanNr >= 2 && fanName == FanName(fanNr)
      invariant texts + FanFailures(sys, fanNr) == texts0 + FanFailures(sys, 2)
      invariant code == if texts == [] then OK else CRITICAL
      decreases Fields(sys).Keys - FansBelow(fanNr)
    {
      FanProbeShrinks(sys, fanNr);
      ghost var before := texts;
      var head := if LooseEquals(Field(sys, fanName), "OK") then [] else ["System fan " + NatToText(fanNr) + " not OK"];
      assert FanFailures(sys, fanNr) == head + FanFailures(sys, fanNr + 1);
      if !LooseEquals(Field(sys, fanName), "OK") {
        code := Max(CRITICAL, code);
        texts := texts + ["System fan " + NatToText(fanNr) + " not OK"];
      }
      assert texts + FanFailures(sys, fanNr + 1) == before + FanFailures(sys, fanNr);
      fanNr := fanNr + 1;
      fanName := "sys_fan_speed" + NatToText(fanNr);
    }
    assert FanFailures(sys, fanNr) == [];
    assert texts + [] == texts;
  }

  /** The computation of checkRaidHealth on its two replies, with the loop over the RAID list. */
  method RaidStatus(access: Value, list: Value) returns (r: Report)
    ensures r == RaidReport(access, list)
  {
    var code: Option<int> := None;
    var texts: seq<string> := [];
    if IsSet(access, "status") {
      var c := RaidCode(Field(access, "status"));
      code := Some(c);
      if c != OK {
        texts := texts + ["access status: " + ToText(Field(access, "status"))];
      }
    }
    assert RaidScan(code, texts) == AccessScan(access);
    var raids := Items(Field(list, "raid_list"));
    assert raids[0..] == raids;
    for i := 0 to |raids|
      invariant ScanRaids(RaidScan(code, texts), raids[i..]) == ScanRaids(AccessScan(access), raids)
    {
      var raid := raids[i];
      ghost var acc := RaidScan(code, texts);
      assert raids[i..][0] == raid && raids[i..][1..] == raids[i + 1..];
      var c := RaidCode(Field(raid, "raid_status"));
      code := Some(c);
      if c != OK {
        texts := texts + [ToText(Field(raid, "raid_id")) + " status: " + ToText(Field(raid, "raid_status"))];
      }
      assert RaidScan(code, texts) == RaidStep(acc, raid);
    }
    assert raids[|raids|..] == [];
    assert RaidScan(code, texts) == ScanRaids(AccessScan(access), raids);
    ghost var scan := ScanRaids(AccessScan(access), Items(Field(list, "raid_list")));
    assert code == scan.code && texts == scan.texts;
    // an unset code is PHP's null, which compares equal to OK and is added as 0
    var c := code.GetOr(OK);
    ghost var found := texts;
    if c == OK {
      texts := texts + ["Healthy"];
    }
    assert texts == found + if c == OK then ["Healthy"] else [];
    var text := if texts == [] then None else Some("RAID " + Join(texts, ", "));
    assert text == Joined("RAID ", texts, ", ");
    return Report(c, text, None);
  }

  /** The computation of checkSmartInfo on the SMART reply, attribute by attribute. */
  method SmartStatus(t: Table, trayNo: Value, smart: Value) returns (r: Report)
    ensures r == SmartReport(t, trayNo, smart)
  {
    var code := OK;
    var texts: seq<string> := [];
    var perf: seq<string> := [];
    if Field(smart, "smart_status") != Num(0) {
      code := CRITICAL;
      texts := texts + ["Status not OK"];
    }
    assert texts == if Field(smart, "smart_status") != Num(0) then ["Status not OK"] else [];
    code, texts := ReallocStage(t, smart, code, texts);
    code, texts, perf := TempStage(t, trayNo, smart, code, texts, perf);
    code, texts := PendingStage(t, smart, code, texts);
    assert code == SmartCode(t, smart);
    assert texts == SmartTexts(t, smart);
    assert perf == SmartPerf(t, trayNo, smart) by {
      assert [] + SmartPerf(t, trayNo, smart) == SmartPerf(t, trayNo, smart);
    }
    var text := if texts == [] then None else Some("Disk " + ToText(trayNo) + " (" + ToText(Field(smart, "model")) + ") " + Join(texts, ", "));
    var perfText := if perf == [] then None else Some(Join(perf, ";"));
    return Report(code, text, perfText);
  }

  /** The reallocated sector block of checkSmartInfo, run when ATTR5 is set. */
  method ReallocStage(t: Table, smart: Value, code0: int, texts0: seq<string>) returns (code: int, texts: seq<string>)
    ensures code == Escalate(code0, ReallocLevel(t, smart))
    ensures texts == texts0 + AttrText(ReallocLevel(t, smart), "Bad sector count: " + IntToText(IntVal(Field(smart, "ATTR5"))))
  {
    code, texts := code0, texts0;
    if IsSet(smart, "ATTR5") {
      var count := IntVal(Field(smart, "ATTR5"));
      var crit := Get(t, ReallocatedSector, CRITICAL);
      var warn := Get(t, ReallocatedSector, WARNING);
      code, texts := Measure(code, texts, count, warn, crit, "Bad sector count: " + IntToText(count));
    } else {
      assert texts0 + [] == texts0;
    }
  }

  /** The temperature block of checkSmartInfo: ATTR194 is evaluated, and its entry emitted, when ATTR197 is set. */
  method TempStage(t: Table, trayNo: Value, smart: Value, code0: int, texts0: seq<string>, perf0: seq<string>)
    returns (code: int, texts: seq<string>, perf: seq<string>)
    ensures code == Escalate(code0, TempLevel(t, smart))
    ensures texts == texts0 + AttrText(TempLevel(t, smart), "Temp: " + IntToText(IntVal(Field(smart, "ATTR194"))) + Degree)
    ensures perf == perf0 + SmartPerf(t, trayNo, smart)
  {
    code, texts, perf := code0, texts0, perf0;
    if IsSet(smart, "ATTR197") {
      var temp := IntVal(Field(smart, "ATTR194"));
      var crit := Get(t, DiskTemp, CRITICAL);
      var warn := Get(t, DiskTemp, WARNING);
      code, texts := Measure(code, texts, temp, warn, crit, "Temp: " + IntToText(temp) + Degree);
      perf := perf + ["Disk" + ToText(trayNo) + "_temp=" + IntToText(temp) + ";" + ThresholdText(warn) + ";" + ThresholdText(crit)];
    } else {
      assert texts0 + [] == texts0 && perf0 + [] == perf0;
    }
  }

  /** The current pending sector block of checkSmartInfo, run when ATTR197 is set. */
  method PendingStage(t: Table, smart: Value, code0: int, texts0: seq<string>) returns (code: int, texts: seq<string>)
    ensures code == Escalate(code0, PendingLevel(t, smart))
    ensures texts == texts0 + AttrText(PendingLevel(t, smart), "Unstable sector count: " + IntToText(IntVal(Field(smart, "ATTR197"))))
  {
    code, texts := code0, texts0;
    if IsSet(smart, "ATTR197") {
      var count := IntVal(Field(smart, "ATTR197"));
      var crit := Get(t, CurrentPendingSector, CRITICAL);
      var warn := Get(t, CurrentPendingSector, WARNING);
      code, texts := Measure(code, texts, count, warn, crit, "Unstable sector count: " + IntToText(count));
    } else {
      assert texts0 + [] == texts0;
    }
  }

  /**
   * One attribute of checkSmartInfo: CRITICAL when the critical threshold is
   * reached, else at least WARNING when the warning threshold is reached,
   * adding the text in both cases.
   */
  method Measure(code0: int, texts0: seq<string>, v: int, warn: Option<int>, crit: Option<int>, text: string)
    returns (code: int, texts: seq<string>)
    ensures code == Escalate(code0, Evaluate(v as real, warn, crit))
    ensures texts == texts0 + AttrText(Evaluate(v as real, warn, crit), text)
  {
    code, texts := code0, texts0;
    if crit.Some? && v >= crit.value {
      code := CRITICAL;
      texts := texts + [text];
    } else if warn.Some? && v >= warn.value {
      code := Max(WARNING, code);
      texts := texts + [text];
    }
  }

  /** The computation of checkDiskUsage on the RAID list: the loop, stopped by the first capacity text it cannot use. */
  method UsageStatus(t: Table, percent: Percentage, list: Value) returns (r: Report)
    ensures r == DiskUsageReport(t, percent, list)
  {
    var code := OK;
    var texts: seq<string> := [];
    var perf: seq<string> := [];
    var raids := Items(Field(list, "raid_list"));
    assert raids[0..] == raids;
    for i := 0 to |raids|
      invariant ScanUsage(t, Capacity.Match, percent, Scanned(code, texts, perf), raids[i..])
             == ScanUsage(t, Capacity.Match, percent, Scanned(OK, [], []), raids)
    {
      var raid := raids[i];
      assert raids[i..][1..] == raids[i + 1..];
      var abort;
      abort, code, texts, perf := UsageEntry(t, percent, code, texts, perf, raid);
      if abort.Some? {
        return Report(UNKNOWN, abort, None);
      }
    }
    assert raids[|raids|..] == [];
    var text := if texts == [] then None else Some("Disk usage: " + Join(texts, ", "));
    var perfText := if perf == [] then None else Some(Join(perf, " "));
    return Report(code, text, perfText);
  }

  /**
   * One RAID of checkDiskUsage's loop: the capacity text is matched, and
   * either the message that stops the check is returned or the code, the
   * text and the performance entry are updated.
   */
  method UsageEntry(t: Table, percent: Percentage, code0: int, texts0: seq<string>, perf0: seq<string>, raid: Value)
    returns (abort: Option<string>, code: int, texts: seq<string>, perf: seq<string>)
    ensures var next := UsageStep(t, Capacity.Match, percent, Scanned(code0, texts0, perf0), raid);
      && (next.Aborted? ==> abort == Some(next.msg))
      && (next.Scanned? ==> abort == None && next == Scanned(code, texts, perf))
  {
    code, texts, perf := code0, texts0, perf0;
    var crit := Get(t, DiskUsage, CRITICAL);
    var warn := Get(t, DiskUsage, WARNING);
    var found := Capacity.Match(ToText(Field(raid, "data_capacity")));
    if found.None? {
      return Some(ParseFailure), code, texts, perf;
    }
    var m := found.value;
    if m.usedUnit != m.totalUnit {
      return Some(UnitMismatch), code, texts, perf;
    }
    var pct := percent(m.used, m.total);
    if crit.Some? && pct.value >= crit.value as real {
      code := Max(CRITICAL, code);
    } else if warn.Some? && pct.value >= warn.value as real {
      code := Max(WARNING, code);
    }
    perf := perf + [ToText(Field(raid, "raid_id")) + "_usage=" + pct.text + ";" + ThresholdText(warn) + ";" + ThresholdText(crit) + ";0;100"];
    texts := texts + [ToText(Field(raid, "raid_id")) + " " + pct.text + "% (" + ToText(Field(raid, "data_capacity")) + ")"];
    return None, code, texts, perf;
  }
}
