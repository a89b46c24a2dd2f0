/**
 * The check routines of the checker as functions of the device's decoded
 * replies: what each one contributes to the aggregated result, and each
 * routine as a whole, with its requests, as a function from the result and
 * the network before it to the result, the network and the exception after it.
 */
module Checks {
  import opened Wrappers
  import opened Text
  import opened Json
  import opened Status
  import opened Thresholds
  import opened Session
  import Capacity

  const SysStatusUri := "/adm/getmain.php?fun=systatus&update=1"
  const RaidListUri := "/adm/getmain.php?fun=raid&action=getraidlist"
  const RaidAccessUri := "/adm/getmain.php?fun=raid&action=getAccessStatus"
  const DiskInfoUri := "/adm/getmain.php?fun=disks&update=1"

  /** getSmartInfo's URI for one disk. */
  function SmartUri(diskNo: Value, trayNo: Value): string {
    "/adm/getmain.php?fun=smart" + "&diskno=" + ToText(diskNo) + "&trayno=" + ToText(trayNo)
  }

  /** What the checks read from the checker: the credentials for requests and the threshold table. */
  datatype Env = Env(cred: Credentials, thresholds: Table)

  /** The state after a routine: the result, the network, and the exception that stopped it, if any. */
  datatype Run = Run(info: StatusInfo, net: Network, err: Option<Error>)

  /** A list of texts as a status text: null when empty, else joined and prefixed. */
  function Joined(prefix: string, texts: seq<string>, sep: string): Option<string> {
    if texts == [] then None else Some(prefix + Join(texts, sep))
  }

  // ----- checkSystemHealth ---------------------------------------------------

  /** The property naming fan n of the system status reply. */
  function FanName(n: nat): string {
    "sys_fan_speed" + NatToText(n)
  }

  lemma FanNameInjective(m: nat, n: nat)
    ensures FanName(m) == FanName(n) ==> m == n
  {
    if FanName(m) == FanName(n) {
      assert NatToText(m) == FanName(m)[13..];
      assert NatToText(n) == FanName(n)[13..];
      NatToTextInjective(m, n);
    }
  }

  /** The fan properties probed before fan n. */
  function FansBelow(n: nat): set<string> {
    set m | 2 <= m < n :: FanName(m)
  }

  /** Probing a present fan leaves fewer properties of the reply to probe. */
  lemma FanProbeShrinks(sys: Value, n: nat)
    requires n >= 2 && IsSet(sys, FanName(n))
    ensures Fields(sys).Keys - FansBelow(n + 1) < Fields(sys).Keys - FansBelow(n)
  {
    assert FansBelow(n + 1) == FansBelow(n) + {FanName(n)};
    forall m | 2 <= m < n ensures FanName(m) != FanName(n) {
      FanNameInjective(m, n);
    }
    assert FanName(n) !in FansBelow(n);
    assert FanName(n) in Fields(sys).Keys - FansBelow(n);
  }

  /** The texts for the fans from n on, probing sys_fan_speed<n>, <n+1>, ... until one is missing. */
  function FanFailures(sys: Value, n: nat): seq<string>
    requires n >= 2
    decreases Fields(sys).Keys - FansBelow(n)
  {
    if !IsSet(sys, FanName(n)) then []
    else
      FanProbeShrinks(sys, n);
      (if LooseEquals(Field(sys, FanName(n)), "OK") then [] else ["System fan " + NatToText(n) + " not OK"])
        + FanFailures(sys, n + 1)
  }

  /** `text` is the failure text of fan m, a fan present in the reply and not reporting OK. */
  predicate IsFanFailure(sys: Value, m: nat, text: string) {
    IsSet(sys, FanName(m)) && !LooseEquals(Field(sys, FanName(m)), "OK")
      && text == "System fan " + NatToText(m) + " not OK"
  }

  ghost predicate NamesFailingFan(sys: Value, n: nat, text: string) {
    exists m: nat :: n <= m && IsFanFailure(sys, m, text)
  }

  /** Every fan text names a fan found in the reply, from n on, that does not report OK. */
  lemma {:induction false} FanFailuresSound(sys: Value, n: nat)
    requires n >= 2
    ensures forall i :: 0 <= i < |FanFailures(sys, n)| ==> NamesFailingFan(sys, n, FanFailures(sys, n)[i])
    decreases Fields(sys).Keys - FansBelow(n)
  {
    if IsSet(sys, FanName(n)) {
      FanProbeShrinks(sys, n);
      FanFailuresSound(sys, n + 1);
      var head := if LooseEquals(Field(sys, FanName(n)), "OK") then [] else ["System fan " + NatToText(n) + " not OK"];
      var rest := FanFailures(sys, n + 1);
      assert FanFailures(sys, n) == head + rest;
      forall i | 0 <= i < |FanFailures(sys, n)|
        ensures NamesFailingFan(sys, n, FanFailures(sys, n)[i])
      {
        if i < |head| {
          assert IsFanFailure(sys, n, FanFailures(sys, n)[i]);
        } else {
          assert FanFailures(sys, n)[i] == rest[i - |head|];
          var m: nat :| n + 1 <= m && IsFanFailure(sys, m, rest[i - |head|]);
          assert IsFanFailure(sys, m, FanFailures(sys, n)[i]);
        }
      }
    } else {
      assert FanFailures(sys, n) == [];
    }
  }

  /** A present fan that does not report OK always gets its text. */
  lemma {:induction false} FanFailuresComplete(sys: Value, n: nat, m: nat)
    requires 2 <= n <= m
    requires forall k :: n <= k <= m ==> IsSet(sys, FanName(k))
    requires !LooseEquals(Field(sys, FanName(m)), "OK")
    ensures "System fan " + NatToText(m) + " not OK" in FanFailures(sys, n)
    decreases m - n
  {
    FanProbeShrinks(sys, n);
    if n < m {
      FanFailuresComplete(sys, n + 1, m);
    }
  }

  /** The failures checkSystemHealth finds: the CPU fan, fan 1, then fans 2, 3, ... */
  function SystemFailures(sys: Value): seq<string> {
    if sys == Null then []
    else
      (if LooseEquals(Field(sys, "cpu_fan"), "OK") then [] else ["CPU fan not OK"])
        + (if IsSet(sys, "sys_fan_speed") && !LooseEquals(Field(sys, "sys_fan_speed"), "OK")
           then ["System fan 1 not OK"] else [])
        + FanFailures(sys, 2)
  }

  /** checkSystemHealth's contribution for a system status reply (null when the device gives none). */
  function SystemReport(sys: Value): Report {
    var failures := SystemFailures(sys);
    var code := if failures == [] then OK else CRITICAL;
    var texts := failures + (if code == OK then ["Hardware working fine"] else []);
    Report(code, Joined("", texts, ", "), None)
  }

  /**
   * The hardware check reports CRITICAL exactly when a fan fails, always
   * with a text, saying the hardware works fine when nothing fails, and
   * never with performance data. A device without system status is fine.
   */
  lemma SystemReportMeaning(sys: Value)
    ensures SystemReport(sys).code == CRITICAL <==> SystemFailures(sys) != []
    ensures SystemReport(sys).code == OK <==> SystemFailures(sys) == []
    ensures SystemReport(sys).text.Some?
    ensures SystemFailures(sys) == [] ==> SystemReport(sys).text == Some("Hardware working fine")
    ensures SystemReport(sys).perf == None
    ensures sys == Null ==> SystemReport(sys) == Report(OK, Some("Hardware working fine"), None)
  {
    var failures := SystemFailures(sys);
    if failures == [] {
      assert failures + ["Hardware working fine"] == ["Hardware working fine"];
      assert Join(["Hardware working fine"], ", ") == "Hardware working fine";
      assert "" + "Hardware working fine" == "Hardware working fine";
    }
  }

  /** A CPU fan that is not reported as OK, a missing one included, is critical. */
  lemma CpuFanCritical(sys: Value)
    requires sys != Null && !LooseEquals(Field(sys, "cpu_fan"), "OK")
    ensures SystemReport(sys).code == CRITICAL
    ensures SystemFailures(sys)[0] == "CPU fan not OK"
  {
  }

  /** checkSystemHealth with its request. */
  function SystemHealthRun(env: Env, info: StatusInfo, net: Network): Run {
    var ex := JsonRequest(env.cred, SysStatusUri, None, true, net);
    if ex.result.Failure? then Run(info, ex.net, Some(ex.result.error))
    else Run(Add(info, SystemReport(ex.result.value)), ex.net, None)
  }

  // ----- checkRaidHealth -----------------------------------------------------

  /** The status a RAID state maps to. */
  function RaidCode(status: Value): (code: int)
    ensures IsStatusCode(code)
  {
    if LooseEquals(status, "Damaged") then CRITICAL
    else if LooseEquals(status, "Degraded") then WARNING
    else if LooseEquals(status, "Healthy") then OK
    else UNKNOWN
  }

  /** The four cases of the mapping, each stated for a state string. */
  lemma RaidCodeCases(t: string, n: int)
    ensures RaidCode(Str("Damaged", n)) == CRITICAL
    ensures RaidCode(Str("Degraded", n)) == WARNING
    ensures RaidCode(Str("Healthy", n)) == OK
    ensures t != "Damaged" && t != "Degraded" && t != "Healthy" ==> RaidCode(Str(t, n)) == UNKNOWN
    ensures RaidCode(Null) == UNKNOWN
  {
  }

  /** The local state of checkRaidHealth: its code variable (undefined until set) and its texts. */
  datatype RaidScan = RaidScan(code: Option<int>, texts: seq<string>)

  /** The access status part: it sets the code only when the reply has a status. */
  function AccessScan(access: Value): RaidScan {
    if IsSet(access, "status") then
      var code := RaidCode(Field(access, "status"));
      RaidScan(Some(code), if code != OK then ["access status: " + ToText(Field(access, "status"))] else [])
    else RaidScan(None, [])
  }

  function RaidText(raid: Value): seq<string> {
    var status := Field(raid, "raid_status");
    if RaidCode(status) != OK then [ToText(Field(raid, "raid_id")) + " status: " + ToText(status)] else []
  }

  /** One RAID of the list: the code is overwritten, a non-healthy RAID adds a text. */
  function RaidStep(acc: RaidScan, raid: Value): RaidScan {
    RaidScan(Some(RaidCode(Field(raid, "raid_status"))), acc.texts + RaidText(raid))
  }

  function ScanRaids(acc: RaidScan, raids: seq<Value>): RaidScan
    decreases |raids|
  {
    if raids == [] then acc else ScanRaids(RaidStep(acc, raids[0]), raids[1..])
  }

  /** The texts of the non-healthy RAIDs, in list order. */
  function RaidTexts(raids: seq<Value>): seq<string>
    decreases |raids|
  {
    if raids == [] then [] else RaidText(raids[0]) + RaidTexts(raids[1..])
  }

  /**
   * The code is not the worst over the RAIDs: after a non-empty list it is
   * the code of the last RAID alone; the texts of every non-healthy RAID are
   * kept, in list order, after the access status text.
   */
  lemma {:induction false} ScanRaidsMeaning(acc: RaidScan, raids: seq<Value>)
    ensures raids != [] ==> ScanRaids(acc, raids).code == Some(RaidCode(Field(raids[|raids| - 1], "raid_status")))
    ensures raids == [] ==> ScanRaids(acc, raids).code == acc.code
    ensures ScanRaids(acc, raids).texts == acc.texts + RaidTexts(raids)
    decreases |raids|
  {
    if raids != [] {
      ScanRaidsMeaning(RaidStep(acc, raids[0]), raids[1..]);
      if |raids| > 1 {
        assert raids[1..][|raids[1..]| - 1] == raids[|raids| - 1];
      }
      assert acc.texts + RaidText(raids[0]) + RaidTexts(raids[1..]) == acc.texts + RaidTexts(raids);
    }
  }

  /**
   * checkRaidHealth's contribution. Its code variable stays undefined when
   * there is no access status and no RAID; PHP's null then equals OK and
   * adds as 0, which is what OK does here.
   */
  function RaidReport(access: Value, list: Value): Report {
    var scan := ScanRaids(AccessScan(access), Items(Field(list, "raid_list")));
    var code := scan.code.GetOr(OK);
    var texts := scan.texts + (if code == OK then ["Healthy"] else []);
    Report(code, Joined("RAID ", texts, ", "), None)
  }

  /** The RAID report's code is the last RAID's, or the access status's when the list is empty. */
  lemma RaidReportCode(access: Value, list: Value)
    ensures var raids := Items(Field(list, "raid_list"));
      && (raids != [] ==> RaidReport(access, list).code == RaidCode(Field(raids[|raids| - 1], "raid_status")))
      && (raids == [] && IsSet(access, "status") ==> RaidReport(access, list).code == RaidCode(Field(access, "status")))
      && (raids == [] && !IsSet(access, "status") ==> RaidReport(access, list) == Report(OK, Some("RAID Healthy"), None))
    ensures IsStatusCode(RaidReport(access, list).code)
    ensures RaidReport(access, list).text.Some?
  {
    var raids := Items(Field(list, "raid_list"));
    ScanRaidsMeaning(AccessScan(access), raids);
    if raids != [] {
      RaidTextsOfLast(raids);
    } else if !IsSet(access, "status") {
      var scan := ScanRaids(AccessScan(access), raids);
      assert scan == RaidScan(None, []);
      assert scan.texts + ["Healthy"] == ["Healthy"];
      assert Join(["Healthy"], ", ") == "Healthy";
      assert "RAID " + "Healthy" == "RAID Healthy";
    }
  }

  lemma {:induction false} RaidTextsOfLast(raids: seq<Value>)
    requires raids != []
    ensures RaidCode(Field(raids[|raids| - 1], "raid_status")) != OK ==> RaidTexts(raids) != []
    decreases |raids|
  {
    if |raids| > 1 {
      RaidTextsOfLast(raids[1..]);
      assert raids[1..][|raids[1..]| - 1] == raids[|raids| - 1];
    }
  }

  /**
   * A degraded RAID followed by a healthy one is reported as OK: the
   * degraded RAID's text is kept but its code is overwritten.
   */
  lemma DegradedHiddenByLater()
    ensures var md0 := Obj(map["raid_id" := Str("md0", 0), "raid_status" := Str("Degraded", 0)]);
      var md1 := Obj(map["raid_id" := Str("md1", 1), "raid_status" := Str("Healthy", 0)]);
      RaidReport(Null, Obj(map["raid_list" := Arr([md0, md1])]))
        == Report(OK, Some("RAID md0 status: Degraded, Healthy"), None)
  {
    var md0 := Obj(map["raid_id" := Str("md0", 0), "raid_status" := Str("Degraded", 0)]);
    var md1 := Obj(map["raid_id" := Str("md1", 1), "raid_status" := Str("Healthy", 0)]);
    var list := Obj(map["raid_list" := Arr([md0, md1])]);
    assert Field(md0, "raid_status") == Str("Degraded", 0);
    assert Field(md0, "raid_id") == Str("md0", 0);
    assert Field(md1, "raid_status") == Str("Healthy", 0);
    assert Items(Field(list, "raid_list")) == [md0, md1];
    DegradedThenHealthy(md0, md1, list);
  }

  lemma DegradedThenHealthy(md0: Value, md1: Value, list: Value)
    requires Items(Field(list, "raid_list")) == [md0, md1]
    requires Field(md0, "raid_status") == Str("Degraded", 0) && Field(md0, "raid_id") == Str("md0", 0)
    requires Field(md1, "raid_status") == Str("Healthy", 0)
    ensures RaidReport(Null, list) == Report(OK, Some("RAID md0 status: Degraded, Healthy"), None)
  {
    assert AccessScan(Null) == RaidScan(None, []);
    DegradedThenHealthyScan(md0, md1);
    ReportOfHealthyScan(["md0 status: Degraded"]);
  }

  lemma DegradedThenHealthyScan(md0: Value, md1: Value)
    requires Field(md0, "raid_status") == Str("Degraded", 0) && Field(md0, "raid_id") == Str("md0", 0)
    requires Field(md1, "raid_status") == Str("Healthy", 0)
    ensures ScanRaids(RaidScan(None, []), [md0, md1]) == RaidScan(Some(OK), ["md0 status: Degraded"])
  {
    assert RaidCode(Str("Degraded", 0)) == WARNING;
    assert "md0" + " status: " + "Degraded" == "md0 status: Degraded";
    assert RaidText(md0) == ["md0 status: Degraded"];
    assert RaidText(md1) == [];
    var s1 := RaidStep(RaidScan(None, []), md0);
    var s2 := RaidStep(s1, md1);
    assert s2 == RaidScan(Some(OK), ["md0 status: Degraded"]);
    assert ScanRaids(s1, [md1]) == s2 by { assert ScanRaids(s2, []) == s2; }
    assert [md0, md1][1..] == [md1];
  }

  lemma ReportOfHealthyScan(texts: seq<string>)
    requires texts == ["md0 status: Degraded"]
    ensures Joined("RAID ", texts + ["Healthy"], ", ") == Some("RAID md0 status: Degraded, Healthy")
  {
    assert texts + ["Healthy"] == ["md0 status: Degraded", "Healthy"];
    JoinedPair("RAID ", "md0 status: Degraded", "Healthy", ", ");
    DegradedHealthyLiteral("md0 status: Degraded", "Healthy");
  }

  lemma DegradedHealthyLiteral(a: string, b: string)
    requires a == "md0 status: Degraded" && b == "Healthy"
    ensures "RAID " + (a + ", " + b) == "RAID md0 status: Degraded, Healthy"
  {
  }

  lemma JoinedPair(prefix: string, a: string, b: string, sep: string)
    ensures Joined(prefix, [a, b], sep) == Some(prefix + (a + sep + b))
  {
    assert [a, b][1..] == [b];
    assert Join([a, b][1..], sep) == b;
  }

  /** checkRaidHealth with its two requests: access status first, then the RAID list. */
  function RaidHealthRun(env: Env, info: StatusInfo, net: Network): Run {
    var ex1 := JsonRequest(env.cred, RaidAccessUri, None, true, net);
    if ex1.result.Failure? then Run(info, ex1.net, Some(ex1.result.error))
    else
      var ex2 := JsonRequest(env.cred, RaidListUri, None, true, ex1.net);
      if ex2.result.Failure? then Run(info, ex2.net, Some(ex2.result.error))
      else Run(Add(info, RaidReport(ex1.result.value, ex2.result.value)), ex2.net, None)
  }

  // ----- checkSmartInfo ------------------------------------------------------

  /** The level one SMART attribute gives: OK when the attribute is absent. */
  function AttrLevel(present: bool, v: int, t: Table, kind: Kind): int {
    if present then Evaluate(v as real, Get(t, kind, WARNING), Get(t, kind, CRITICAL)) else OK
  }

  function AttrText(level: int, text: string): seq<string> {
    if level != OK then [text] else []
  }

  const Degree := "°C"

  /** The level of the SMART status itself. */
  function SmartStatusLevel(smart: Value): int {
    if Field(smart, "smart_status") != Num(0) then CRITICAL else OK
  }

  /** The reallocated sector count (ATTR5) against its thresholds, when present. */
  function ReallocLevel(t: Table, smart: Value): int {
    AttrLevel(IsSet(smart, "ATTR5"), IntVal(Field(smart, "ATTR5")), t, ReallocatedSector)
  }

  /** The temperature (ATTR194) against its thresholds, evaluated only when ATTR197 is present. */
  function TempLevel(t: Table, smart: Value): int {
    AttrLevel(IsSet(smart, "ATTR197"), IntVal(Field(smart, "ATTR194")), t, DiskTemp)
  }

  /** The current pending sector count (ATTR197) against its thresholds, when present. */
  function PendingLevel(t: Table, smart: Value): int {
    AttrLevel(IsSet(smart, "ATTR197"), IntVal(Field(smart, "ATTR197")), t, CurrentPendingSector)
  }

  /** checkSmartInfo's status code: the status, then the three attributes, each escalating it. */
  function SmartCode(t: Table, smart: Value): int {
    Escalate(Escalate(Escalate(SmartStatusLevel(smart), ReallocLevel(t, smart)), TempLevel(t, smart)), PendingLevel(t, smart))
  }

  /** checkSmartInfo's texts, one per finding, in the order tested. */
  function SmartTexts(t: Table, smart: Value): seq<string> {
    (if SmartStatusLevel(smart) != OK then ["Status not OK"] else [])
      + AttrText(ReallocLevel(t, smart), "Bad sector count: " + IntToText(IntVal(Field(smart, "ATTR5"))))
      + AttrText(TempLevel(t, smart), "Temp: " + IntToText(IntVal(Field(smart, "ATTR194"))) + Degree)
      + AttrText(PendingLevel(t, smart), "Unstable sector count: " + IntToText(IntVal(Field(smart, "ATTR197"))))
  }

  /** checkSmartInfo's performance data: the temperature entry, emitted when ATTR197 is present. */
  function SmartPerf(t: Table, trayNo: Value, smart: Value): seq<string> {
    if IsSet(smart, "ATTR197") then
      ["Disk" + ToText(trayNo) + "_temp=" + IntToText(IntVal(Field(smart, "ATTR194"))) + ";"
       + ThresholdText(Get(t, DiskTemp, WARNING)) + ";" + ThresholdText(Get(t, DiskTemp, CRITICAL))]
    else []
  }

  /**
   * checkSmartInfo's result for a SMART reply: the SMART status, the
   * reallocated sectors (ATTR5), the temperature (ATTR194) and the pending
   * sectors (ATTR197). The temperature is read from ATTR194 but only when
   * ATTR197 is present, as the code tests.
   */
  function SmartReport(t: Table, trayNo: Value, smart: Value): Report {
    var texts := SmartTexts(t, smart);
    var perf := SmartPerf(t, trayNo, smart);
    Report(SmartCode(t, smart),
           if texts == [] then None else Some("Disk " + ToText(trayNo) + " (" + ToText(Field(smart, "model")) + ") " + Join(texts, ", ")),
           if perf == [] then None else Some(Join(perf, ";")))
  }

  /**
   * The SMART code is the worst of the levels of the status and the three
   * attributes, it is never UNKNOWN, and a result that is not OK always
   * carries a text explaining it.
   */
  lemma SmartReportMeaning(t: Table, trayNo: Value, smart: Value)
    ensures var r := SmartReport(t, trayNo, smart);
      var has197 := IsSet(smart, "ATTR197");
      r.code == Max(Max(SmartStatusLevel(smart), AttrLevel(IsSet(smart, "ATTR5"), IntVal(Field(smart, "ATTR5")), t, ReallocatedSector)),
                    Max(AttrLevel(has197, IntVal(Field(smart, "ATTR194")), t, DiskTemp),
                        AttrLevel(has197, IntVal(Field(smart, "ATTR197")), t, CurrentPendingSector)))
    ensures OK <= SmartReport(t, trayNo, smart).code <= CRITICAL
    ensures SmartReport(t, trayNo, smart).code != OK <==> SmartReport(t, trayNo, smart).text.Some?
  {
    var realloc := IntVal(Field(smart, "ATTR5"));
    var has197 := IsSet(smart, "ATTR197");
    var c0 := SmartStatusLevel(smart);
    var l5 := AttrLevel(IsSet(smart, "ATTR5"), realloc, t, ReallocatedSector);
    assert Escalate(c0, l5) == Max(c0, l5);
    var lt := AttrLevel(has197, IntVal(Field(smart, "ATTR194")), t, DiskTemp);
    assert Escalate(Max(c0, l5), lt) == Max(Max(c0, l5), lt);
    var lp := AttrLevel(has197, IntVal(Field(smart, "ATTR197")), t, CurrentPendingSector);
    assert Escalate(Max(Max(c0, l5), lt), lp) == Max(Max(Max(c0, l5), lt), lp);
  }

  /**
   * The temperature guard as written: without ATTR197 there is no
   * temperature reading at all, even when ATTR194 is given; with ATTR197
   * the temperature entry is always emitted, reading ATTR194 (0 when absent).
   */
  lemma SmartTemperatureGuard(t: Table, trayNo: Value, smart: Value)
    ensures !IsSet(smart, "ATTR197") ==> SmartReport(t, trayNo, smart).perf == None
    ensures IsSet(smart, "ATTR197") ==>
      (SmartReport(t, trayNo, smart).perf ==
         Some("Disk" + ToText(trayNo) + "_temp=" + IntToText(IntVal(Field(smart, "ATTR194"))) + ";"
              + ThresholdText(Get(t, DiskTemp, WARNING)) + ";" + ThresholdText(Get(t, DiskTemp, CRITICAL))))
  {
  }

  /** A healthy SMART reply under the default thresholds: OK, no text, only the temperature entry. */
  lemma SmartHealthyDisk()
    ensures var smart := Obj(map["smart_status" := Num(0), "ATTR5" := Num(0), "ATTR194" := Num(38), "ATTR197" := Num(0),
                                 "model" := Str("WD30EFRX", 0)]);
      SmartReport(Defaults(), Str("2", 2), smart) == Report(OK, None, Some("Disk2_temp=38;55;60"))
  {
    var smart := Obj(map["smart_status" := Num(0), "ATTR5" := Num(0), "ATTR194" := Num(38), "ATTR197" := Num(0),
                         "model" := Str("WD30EFRX", 0)]);
    assert Field(smart, "smart_status") == Num(0);
    assert Field(smart, "ATTR5") == Num(0) && Field(smart, "ATTR194") == Num(38) && Field(smart, "ATTR197") == Num(0);
    DefaultValues();
    SmartQuietDisk(Defaults(), smart);
  }

  lemma SmartQuietDisk(t: Table, smart: Value)
    requires Get(t, ReallocatedSector, WARNING) == Some(32) && Get(t, ReallocatedSector, CRITICAL) == Some(320)
    requires Get(t, DiskTemp, WARNING) == Some(55) && Get(t, DiskTemp, CRITICAL) == Some(60)
    requires Get(t, CurrentPendingSector, WARNING) == Some(1) && Get(t, CurrentPendingSector, CRITICAL) == Some(1)
    requires Field(smart, "smart_status") == Num(0)
    requires Field(smart, "ATTR5") == Num(0) && Field(smart, "ATTR194") == Num(38) && Field(smart, "ATTR197") == Num(0)
    ensures SmartReport(t, Str("2", 2), smart) == Report(OK, None, Some("Disk2_temp=38;55;60"))
  {
    assert AttrLevel(true, 0, t, ReallocatedSector) == OK;
    assert AttrLevel(true, 38, t, DiskTemp) == OK;
    assert AttrLevel(true, 0, t, CurrentPendingSector) == OK;
    QuietTempEntry(t);
  }

  lemma QuietTempEntry(t: Table)
    requires Get(t, DiskTemp, WARNING) == Some(55) && Get(t, DiskTemp, CRITICAL) == Some(60)
    ensures var entry := "Disk" + ToText(Str("2", 2)) + "_temp=" + IntToText(38) + ";"
                         + ThresholdText(Get(t, DiskTemp, WARNING)) + ";" + ThresholdText(Get(t, DiskTemp, CRITICAL));
      Join([entry], ";") == "Disk2_temp=38;55;60"
  {
    QuietTempNumbers(t);
    QuietTempLiteral(IntToText(38), ThresholdText(Get(t, DiskTemp, WARNING)), ThresholdText(Get(t, DiskTemp, CRITICAL)));
  }

  lemma QuietTempNumbers(t: Table)
    requires Get(t, DiskTemp, WARNING) == Some(55) && Get(t, DiskTemp, CRITICAL) == Some(60)
    ensures IntToText(38) == "38"
    ensures ThresholdText(Get(t, DiskTemp, WARNING)) == "55" && ThresholdText(Get(t, DiskTemp, CRITICAL)) == "60"
  {
    assert NatToText(38) == "38";
    assert NatToText(55) == "55";
    assert NatToText(60) == "60";
  }

  lemma QuietTempLiteral(temp: string, warn: string, crit: string)
    requires temp == "38" && warn == "55" && crit == "60"
    ensures Join(["Disk" + ToText(Str("2", 2)) + "_temp=" + temp + ";" + warn + ";" + crit], ";") == "Disk2_temp=38;55;60"
  {
    var entry := "Disk" + ToText(Str("2", 2)) + "_temp=" + temp + ";" + warn + ";" + crit;
    assert entry == "Disk2_temp=38;55;60";
    assert Join([entry], ";") == entry;
  }

  // ----- checkDiskHealth -----------------------------------------------------

  /** The text of a disk the device reports as Critical. */
  function CriticalDiskText(disk: Value): string {
    "Disk " + ToText(Field(disk, "trayno")) + " status: " + ToText(Field(disk, "s_status"))
  }

  /** The SMART request of one disk. */
  function SmartExchange(env: Env, disk: Value, net: Network): Exchange {
    JsonRequest(env.cred, SmartUri(Field(disk, "diskno"), Field(disk, "trayno")), None, true, net)
  }

  /** One disk of checkDiskHealth's loop. */
  function DiskStep(env: Env, disk: Value, info: StatusInfo, net: Network): Run {
    var status := Field(disk, "s_status");
    if LooseEquals(status, "N/A") then Run(info, net, None)
    else if LooseEquals(status, "Critical") then Run(Add(info, Report(CRITICAL, Some(CriticalDiskText(disk)), None)), net, None)
    else
      var ex := SmartExchange(env, disk, net);
      if ex.result.Failure? then Run(info, ex.net, Some(ex.result.error))
      else
        var r := SmartReport(env.thresholds, Field(disk, "trayno"), ex.result.value);
        if LooseEquals(status, "Warning") then Run(Add(info, r.(code := Max(WARNING, r.code))), ex.net, None)
        else Run(Add(info, r), ex.net, None)
  }

  /** The loop over the disks; the first exception ends it. */
  function DiskRun(env: Env, disks: seq<Value>, info: StatusInfo, net: Network): Run
    decreases |disks|
  {
    if disks == [] then Run(info, net, None)
    else
      var step := DiskStep(env, disks[0], info, net);
      if step.err.Some? then step else DiskRun(env, disks[1..], step.info, step.net)
  }

  /**
   * The dispatch on a disk's state: N/A is skipped without a request, Critical
   * is reported with its text without querying SMART, Warning reports the
   * SMART result raised to at least WARNING, and every other state reports the
   * SMART result unchanged.
   */
  lemma DiskStepMeaning(env: Env, disk: Value, info: StatusInfo, net: Network)
    ensures var status := Field(disk, "s_status"); var step := DiskStep(env, disk, info, net);
      var ex := SmartExchange(env, disk, net);
      var smart := if ex.result.Success? then SmartReport(env.thresholds, Field(disk, "trayno"), ex.result.value)
                   else Report(OK, None, None);
      && (LooseEquals(status, "N/A") ==> step == Run(info, net, None))
      && (!LooseEquals(status, "N/A") && LooseEquals(status, "Critical") ==>
            step.net == net && step.err == None && step.info.code == Max(info.code, CRITICAL)
            && step.info.texts == info.texts + [CriticalDiskText(disk)] && step.info.perf == info.perf)
      && (!LooseEquals(status, "N/A") && !LooseEquals(status, "Critical") ==>
            step.net == ex.net
            && (ex.result.Failure? ==> step.info == info && step.err == Some(ex.result.error))
            && (ex.result.Success? && LooseEquals(status, "Warning") ==>
                  step.err == None && step.info.code == Max(info.code, Max(WARNING, smart.code))
                  && step.info.code >= WARNING
                  && step.info.texts == info.texts + Present(smart.text)
                  && step.info.perf == info.perf + Present(smart.perf))
            && (ex.result.Success? && !LooseEquals(status, "Warning") ==>
                  step.err == None && step.info == Add(info, smart)))
  {
  }

  /** A disk the device reports as Critical contributes CRITICAL and sends no request. */
  lemma CriticalDiskNoRequest(env: Env, t: string, n: int, info: StatusInfo, net: Network)
    ensures var disk := Obj(map["s_status" := Str("Critical", 0), "trayno" := Str(t, n)]);
      DiskStep(env, disk, info, net) == Run(Add(info, Report(CRITICAL, Some("Disk " + t + " status: Critical"), None)), net, None)
  {
    var disk := Obj(map["s_status" := Str("Critical", 0), "trayno" := Str(t, n)]);
    assert Field(disk, "s_status") == Str("Critical", 0);
    assert Field(disk, "trayno") == Str(t, n);
    assert CriticalDiskText(disk) == "Disk " + t + " status: Critical";
  }

  /** checkDiskHealth with its request for the disk list. */
  function DiskHealthRun(env: Env, info: StatusInfo, net: Network): Run {
    var ex := JsonRequest(env.cred, DiskInfoUri, None, true, net);
    if ex.result.Failure? then Run(info, ex.net, Some(ex.result.error))
    else DiskRun(env, Items(Field(ex.result.value, "disk_data")), info, ex.net)
  }

  // ----- checkHealth ---------------------------------------------------------

  /** The three health checks in order; an exception in one skips the rest. */
  function HealthChecks(env: Env, info: StatusInfo, net: Network): Run {
    var r1 := SystemHealthRun(env, info, net);
    if r1.err.Some? then r1
    else
      var r2 := RaidHealthRun(env, r1.info, r1.net);
      if r2.err.Some? then r2
      else DiskHealthRun(env, r2.info, r2.net)
  }

  /** checkHealth: the three checks, then "System healthy" when the result is OK without any text. */
  function HealthRun(env: Env, info: StatusInfo, net: Network): Run {
    var r := HealthChecks(env, info, net);
    if r.err.None? && r.info.code == OK && r.info.texts == [] then
      r.(info := Add(r.info, Report(OK, Some("System healthy"), None)))
    else r
  }

  lemma {:induction false} DiskRunKeepsTexts(env: Env, disks: seq<Value>, info: StatusInfo, net: Network)
    ensures info.texts <= DiskRun(env, disks, info, net).info.texts
    decreases |disks|
  {
    if disks != [] {
      var step := DiskStep(env, disks[0], info, net);
      assert info.texts <= step.info.texts;
      if step.err.None? {
        DiskRunKeepsTexts(env, disks[1..], step.info, step.net);
      }
    }
  }

  /**
   * checkHealth's "System healthy" text is never added: the hardware check
   * always contributes a text before it, and the later checks only append.
   */
  lemma HealthyTextNeverAdded(env: Env, info: StatusInfo, net: Network)
    ensures HealthRun(env, info, net) == HealthChecks(env, info, net)
  {
    var r1 := SystemHealthRun(env, info, net);
    if r1.err.None? {
      var ex := JsonRequest(env.cred, SysStatusUri, None, true, net);
      SystemReportMeaning(ex.result.value);
      assert r1.info.texts != [];
      var r2 := RaidHealthRun(env, r1.info, r1.net);
      assert r1.info.texts <= r2.info.texts;
      if r2.err.None? {
        var ex3 := JsonRequest(env.cred, DiskInfoUri, None, true, r2.net);
        if ex3.result.Success? {
          DiskRunKeepsTexts(env, Items(Field(ex3.result.value, "disk_data")), r2.info, ex3.net);
        }
      }
    }
  }

  // ----- checkCpuUsage -------------------------------------------------------

  /** The CPU performance entry: value, warn and crit (empty when null), minimum 0, maximum 100. */
  function CpuPerf(v: int, warn: Option<int>, crit: Option<int>): string {
    "CPU=" + IntToText(v) + ";" + ThresholdText(warn) + ";" + ThresholdText(crit) + ";0;100"
  }

  /** checkCpuUsage's contribution; nothing when the device gives no system status. */
  function CpuReport(t: Table, sys: Value): Option<Report> {
    if sys == Null then None
    else
      var v := IntVal(Field(sys, "cpu_loading"));
      var warn := Get(t, CpuUsage, WARNING);
      var crit := Get(t, CpuUsage, CRITICAL);
      Some(Report(Evaluate(v as real, warn, crit), Some("CPU usage: " + IntToText(v) + "%"), Some(CpuPerf(v, warn, crit))))
  }

  lemma ThresholdTextFree(o: Option<int>)
    ensures ';' !in ThresholdText(o)
  {
    if o.Some? && ';' in ThresholdText(o) {
      IntToTextChars(o.value, ';');
    }
  }

  /** The CPU entry splits at ';' into the five fields of a Nagios performance entry. */
  lemma CpuPerfFields(v: int, warn: Option<int>, crit: Option<int>)
    ensures Split(CpuPerf(v, warn, crit), ';') == ["CPU=" + IntToText(v), ThresholdText(warn), ThresholdText(crit), "0", "100"]
  {
    var fs := ["CPU=" + IntToText(v), ThresholdText(warn), ThresholdText(crit), "0", "100"];
    CpuPerfIsJoin(IntToText(v), ThresholdText(warn), ThresholdText(crit));
    ThresholdTextFree(warn);
    ThresholdTextFree(crit);
    if ';' in IntToText(v) {
      IntToTextChars(v, ';');
    }
    assert ';' !in fs[0];
    SplitJoin(fs, ';');
  }

  lemma CpuPerfIsJoin(v: string, w: string, c: string)
    ensures "CPU=" + v + ";" + w + ";" + c + ";0;100" == Join(["CPU=" + v, w, c, "0", "100"], ";")
  {
    JoinFive("CPU=" + v, w, c, "0", "100", ";");
  }

  /**
   * The CPU check reports the thresholds' verdict on the load: with the
   * default thresholds a load of 97% is a warning, 98% is critical.
   */
  lemma CpuDefaults()
    ensures var sys := Obj(map["cpu_loading" := Str("97", 97)]);
      CpuReport(Defaults(), sys) == Some(Report(WARNING, Some("CPU usage: 97%"), Some("CPU=97;95;98;0;100")))
    ensures var sys := Obj(map["cpu_loading" := Num(98)]);
      CpuReport(Defaults(), sys).value.code == CRITICAL
  {
    DefaultValues();
    CpuAtDefaults(Defaults());
  }

  lemma CpuAtDefaults(t: Table)
    requires Get(t, CpuUsage, WARNING) == Some(95) && Get(t, CpuUsage, CRITICAL) == Some(98)
    ensures var sys := Obj(map["cpu_loading" := Str("97", 97)]);
      CpuReport(t, sys) == Some(Report(WARNING, Some("CPU usage: 97%"), Some("CPU=97;95;98;0;100")))
    ensures var sys := Obj(map["cpu_loading" := Num(98)]);
      CpuReport(t, sys).value.code == CRITICAL
  {
    var sys := Obj(map["cpu_loading" := Str("97", 97)]);
    assert Field(sys, "cpu_loading") == Str("97", 97);
    assert IntToText(97) == "97" by { assert NatToText(97) == "97"; }
    assert ThresholdText(Some(95)) == "95" by { assert NatToText(95) == "95"; }
    assert ThresholdText(Some(98)) == "98" by { assert NatToText(98) == "98"; }
    assert CpuPerf(97, Some(95), Some(98)) == "CPU=97;95;98;0;100";
    assert IntVal(Field(sys, "cpu_loading")) == 97;
    assert Evaluate(97 as real, Some(95), Some(98)) == WARNING;
    assert "CPU usage: " + IntToText(97) + "%" == "CPU usage: 97%";
    var sys' := Obj(map["cpu_loading" := Num(98)]);
    assert Field(sys', "cpu_loading") == Num(98);
  }

  /** Null thresholds never raise the CPU check above OK, and leave their perfdata fields empty. */
  lemma CpuWithoutThresholds(t: Table, sys: Value)
    requires sys != Null && Get(t, CpuUsage, WARNING) == None && Get(t, CpuUsage, CRITICAL) == None
    ensures CpuReport(t, sys).value.code == OK
    ensures CpuReport(t, sys).value.perf == Some("CPU=" + IntToText(IntVal(Field(sys, "cpu_loading"))) + ";;;0;100")
  {
    var x := IntToText(IntVal(Field(sys, "cpu_loading")));
    assert "CPU=" + x + ";" + "" + ";" + "" + ";0;100" == "CPU=" + x + ";;;0;100";
  }

  /** checkCpuUsage with its request. */
  function CpuRun(env: Env, info: StatusInfo, net: Network): Run {
    var ex := JsonRequest(env.cred, SysStatusUri, None, true, net);
    if ex.result.Failure? then Run(info, ex.net, Some(ex.result.error))
    else
      var r := CpuReport(env.thresholds, ex.result.value);
      Run(if r.Some? then Add(info, r.value) else info, ex.net, None)
  }

  // ----- checkDiskUsage ------------------------------------------------------

  /** preg_match of the capacity pattern; the model instantiates it with Capacity.Match. */
  type Parser = string -> Option<Capacity.CapacityMatch>

  /** A used-space percentage as PHP computes it, with the text it prints as. */
  datatype Percent = Percent(value: real, text: string)

  /** round(floatval(used) / floatval(total) * 100, 2) for the two captured amounts. */
  type Percentage = (string, string) -> Percent

  const ParseFailure := "Can't parse disk usage data."
  const UnitMismatch := "Can't parse disk usage data. Different units used."

  /** checkDiskUsage's local state: aborted with a message, or the code, texts and perfdata so far. */
  datatype UsageScan = Aborted(msg: string) | Scanned(code: int, texts: seq<string>, perf: seq<string>)

  /** The reason a RAID's capacity text stops the check, if it does. */
  function UsageFailure(parse: Parser, raid: Value): Option<string> {
    var m := parse(ToText(Field(raid, "data_capacity")));
    if m.None? then Some(ParseFailure)
    else if m.value.usedUnit != m.value.totalUnit then Some(UnitMismatch)
    else None
  }

  /** The used percentage of a RAID whose capacity text parses with equal units. */
  function UsagePercent(parse: Parser, percent: Percentage, raid: Value): Percent
    requires UsageFailure(parse, raid).None?
  {
    var m := parse(ToText(Field(raid, "data_capacity"))).value;
    percent(m.used, m.total)
  }

  function UsageLevel(t: Table, p: Percent): int {
    Evaluate(p.value, Get(t, DiskUsage, WARNING), Get(t, DiskUsage, CRITICAL))
  }

  function UsageText(raid: Value, p: Percent): string {
    ToText(Field(raid, "raid_id")) + " " + p.text + "% (" + ToText(Field(raid, "data_capacity")) + ")"
  }

  function UsagePerf(t: Table, raid: Value, p: Percent): string {
    ToText(Field(raid, "raid_id")) + "_usage=" + p.text + ";" + ThresholdText(Get(t, DiskUsage, WARNING)) + ";"
      + ThresholdText(Get(t, DiskUsage, CRITICAL)) + ";0;100"
  }

  /** One RAID of checkDiskUsage's loop. */
  function UsageStep(t: Table, parse: Parser, percent: Percentage, acc: UsageScan, raid: Value): UsageScan
    requires acc.Scanned?
  {
    var failure := UsageFailure(parse, raid);
    if failure.Some? then Aborted(failure.value)
    else
      var p := UsagePercent(parse, percent, raid);
      var level := UsageLevel(t, p);
      Scanned(if level != OK then Max(level, acc.code) else acc.code,
              acc.texts + [UsageText(raid, p)], acc.perf + [UsagePerf(t, raid, p)])
  }

  /** The loop; an abort ends it. */
  function ScanUsage(t: Table, parse: Parser, percent: Percentage, acc: UsageScan, raids: seq<Value>): UsageScan
    decreases |raids|
  {
    if raids == [] || acc.Aborted? then acc
    else ScanUsage(t, parse, percent, UsageStep(t, parse, percent, acc, raids[0]), raids[1..])
  }

  /** checkDiskUsage's contribution: an abort reports UNKNOWN with only its message. */
  function DiskUsageReport(t: Table, percent: Percentage, list: Value): Report {
    var scan := ScanUsage(t, Capacity.Match, percent, Scanned(OK, [], []), Items(Field(list, "raid_list")));
    match scan
    case Aborted(msg) => Report(UNKNOWN, Some(msg), None)
    case Scanned(code, texts, perf) =>
      Report(code, Joined("Disk usage: ", texts, ", "), if perf == [] then None else Some(Join(perf, " ")))
  }

  /** The message of the first RAID whose capacity text stops the check, if any. */
  function FirstFailure(parse: Parser, raids: seq<Value>): Option<string>
    decreases |raids|
  {
    if raids == [] then None
    else if UsageFailure(parse, raids[0]).Some? then UsageFailure(parse, raids[0])
    else FirstFailure(parse, raids[1..])
  }

  /** Every RAID's capacity text parses with equal units. */
  predicate AllParse(parse: Parser, raids: seq<Value>) {
    forall i :: 0 <= i < |raids| ==> UsageFailure(parse, raids[i]).None?
  }

  /** The first failure is the failure of the first RAID that fails, and there is one exactly when some RAID fails. */
  lemma {:induction false} FirstFailureMeaning(parse: Parser, raids: seq<Value>)
    ensures FirstFailure(parse, raids).None? <==> AllParse(parse, raids)
    ensures FirstFailure(parse, raids).Some? ==>
      exists i :: 0 <= i < |raids| && UsageFailure(parse, raids[i]) == FirstFailure(parse, raids) && AllParse(parse, raids[..i])
    decreases |raids|
  {
    if raids != [] {
      FirstFailureMeaning(parse, raids[1..]);
      if UsageFailure(parse, raids[0]).Some? {
        assert AllParse(parse, raids[..0]);
      } else {
        assert AllParse(parse, raids) <==> AllParse(parse, raids[1..]) by {
          if AllParse(parse, raids[1..]) {
            forall i | 0 < i < |raids| ensures UsageFailure(parse, raids[i]).None? {
              assert raids[i] == raids[1..][i - 1];
            }
          }
        }
        if FirstFailure(parse, raids).Some? {
          var i :| 0 <= i < |raids[1..]| && UsageFailure(parse, raids[1..][i]) == FirstFailure(parse, raids) && AllParse(parse, raids[1..][..i]);
          forall j | 0 < j <= i ensures UsageFailure(parse, raids[j]).None? {
            assert raids[j] == raids[1..][..i][j - 1];
          }
          assert UsageFailure(parse, raids[i + 1]) == FirstFailure(parse, raids);
          assert AllParse(parse, raids[..i + 1]);
        }
      }
    }
  }

  /** The loop aborts exactly when some RAID fails, with the message of the first one that does. */
  lemma {:induction false} ScanUsageAborts(t: Table, parse: Parser, percent: Percentage, code: int, texts: seq<string>, perf: seq<string>, raids: seq<Value>)
    ensures var r := ScanUsage(t, parse, percent, Scanned(code, texts, perf), raids);
      && (r.Aborted? <==> FirstFailure(parse, raids).Some?)
      && (r.Aborted? ==> FirstFailure(parse, raids) == Some(r.msg))
    decreases |raids|
  {
    if raids != [] {
      var step := UsageStep(t, parse, percent, Scanned(code, texts, perf), raids[0]);
      if step.Scanned? {
        ScanUsageAborts(t, parse, percent, step.code, step.texts, step.perf, raids[1..]);
      }
    }
  }

  /** The level of a RAID whose capacity text parses. */
  function RaidUsageLevel(t: Table, parse: Parser, percent: Percentage, raid: Value): int
    requires UsageFailure(parse, raid).None?
  {
    UsageLevel(t, UsagePercent(parse, percent, raid))
  }

  /** The texts the RAIDs contribute when none aborts, in list order. */
  function UsageTexts(parse: Parser, percent: Percentage, raids: seq<Value>): seq<string>
    requires AllParse(parse, raids)
    decreases |raids|
  {
    if raids == [] then []
    else
      AllParseTail(parse, raids);
      [UsageText(raids[0], UsagePercent(parse, percent, raids[0]))] + UsageTexts(parse, percent, raids[1..])
  }

  /** The perfdata entries the RAIDs contribute when none aborts, in list order. */
  function UsagePerfs(t: Table, parse: Parser, percent: Percentage, raids: seq<Value>): seq<string>
    requires AllParse(parse, raids)
    decreases |raids|
  {
    if raids == [] then []
    else
      AllParseTail(parse, raids);
      [UsagePerf(t, raids[0], UsagePercent(parse, percent, raids[0]))] + UsagePerfs(t, parse, percent, raids[1..])
  }

  lemma AllParseTail(parse: Parser, raids: seq<Value>)
    requires raids != [] && AllParse(parse, raids)
    ensures UsageFailure(parse, raids[0]).None? && AllParse(parse, raids[1..])
  {
    forall i | 0 <= i < |raids[1..]| ensures UsageFailure(parse, raids[1..][i]).None? {
      assert raids[1..][i] == raids[i + 1];
    }
  }

  /**
   * Without an abort every RAID contributes its own text and its own
   * perfdata entry, in list order, after those there were before.
   */
  lemma ScanUsageLists(t: Table, parse: Parser, percent: Percentage, code: int, texts: seq<string>, perf: seq<string>, raids: seq<Value>)
    requires AllParse(parse, raids)
    ensures var r := ScanUsage(t, parse, percent, Scanned(code, texts, perf), raids);
      && r.Scanned?
      && r.texts == texts + UsageTexts(parse, percent, raids)
      && r.perf == perf + UsagePerfs(t, parse, percent, raids)
  {
    ScanUsageTextList(t, parse, percent, code, texts, perf, raids);
    ScanUsagePerfList(t, parse, percent, code, texts, perf, raids);
  }

  /** The texts half of ScanUsageLists. */
  lemma {:induction false} ScanUsageTextList(t: Table, parse: Parser, percent: Percentage, code: int, texts: seq<string>, perf: seq<string>, raids: seq<Value>)
    requires AllParse(parse, raids)
    ensures ScanUsage(t, parse, percent, Scanned(code, texts, perf), raids).Scanned?
    ensures ScanUsage(t, parse, percent, Scanned(code, texts, perf), raids).texts == texts + UsageTexts(parse, percent, raids)
    decreases |raids|
  {
    if raids != [] {
      AllParseTail(parse, raids);
      var x, y := UsageStepLists(t, parse, percent, code, texts, perf, raids[0]);
      var step := UsageStep(t, parse, percent, Scanned(code, texts, perf), raids[0]);
      assert ScanUsage(t, parse, percent, Scanned(code, texts, perf), raids) == ScanUsage(t, parse, percent, step, raids[1..]);
      ScanUsageTextList(t, parse, percent, step.code, texts + [x], perf + [y], raids[1..]);
      assert UsageTexts(parse, percent, raids) == [x] + UsageTexts(parse, percent, raids[1..]);
    }
  }

  /** The perfdata half of ScanUsageLists. */
  lemma {:induction false} ScanUsagePerfList(t: Table, parse: Parser, percent: Percentage, code: int, texts: seq<string>, perf: seq<string>, raids: seq<Value>)
    requires AllParse(parse, raids)
    ensures ScanUsage(t, parse, percent, Scanned(code, texts, perf), raids).Scanned?
    ensures ScanUsage(t, parse, percent, Scanned(code, texts, perf), raids).perf == perf + UsagePerfs(t, parse, percent, raids)
    decreases |raids|
  {
    if raids != [] {
      AllParseTail(parse, raids);
      var x, y := UsageStepLists(t, parse, percent, code, texts, perf, raids[0]);
      var step := UsageStep(t, parse, percent, Scanned(code, texts, perf), raids[0]);
      assert ScanUsage(t, parse, percent, Scanned(code, texts, perf), raids) == ScanUsage(t, parse, percent, step, raids[1..]);
      ScanUsagePerfList(t, parse, percent, step.code, texts + [x], perf + [y], raids[1..]);
      assert UsagePerfs(t, parse, percent, raids) == [y] + UsagePerfs(t, parse, percent, raids[1..]);
    }
  }

  /** A RAID that parses appends its own text and perfdata entry. */
  lemma UsageStepLists(t: Table, parse: Parser, percent: Percentage, code: int, texts: seq<string>, perf: seq<string>, raid: Value)
      returns (x: string, y: string)
    requires UsageFailure(parse, raid).None?
    ensures x == UsageText(raid, UsagePercent(parse, percent, raid)) && y == UsagePerf(t, raid, UsagePercent(parse, percent, raid))
    ensures var step := UsageStep(t, parse, percent, Scanned(code, texts, perf), raid);
      step.Scanned? && step.texts == texts + [x] && step.perf == perf + [y]
  {
    var p := UsagePercent(parse, percent, raid);
    x, y := UsageText(raid, p), UsagePerf(t, raid, p);
  }

  /** One text and one perfdata entry per RAID. */
  lemma {:induction false} UsageListsLength(t: Table, parse: Parser, percent: Percentage, raids: seq<Value>)
    requires AllParse(parse, raids)
    ensures |UsageTexts(parse, percent, raids)| == |raids| && |UsagePerfs(t, parse, percent, raids)| == |raids|
    decreases |raids|
  {
    if raids != [] {
      AllParseTail(parse, raids);
      UsageListsLength(t, parse, percent, raids[1..]);
    }
  }

  /**
   * Without an abort the code is the worst of the starting code and the
   * usage levels of the RAIDs: at least each of them, and equal to one.
   */
  lemma {:induction false} ScanUsageCode(t: Table, parse: Parser, percent: Percentage, code: int, texts: seq<string>, perf: seq<string>, raids: seq<Value>)
    requires OK <= code && AllParse(parse, raids)
    ensures var r := ScanUsage(t, parse, percent, Scanned(code, texts, perf), raids);
      && r.Scanned?
      && r.code >= code
      && (forall i :: 0 <= i < |raids| ==> r.code >= RaidUsageLevel(t, parse, percent, raids[i]))
      && (r.code == code || exists i :: 0 <= i < |raids| && r.code == RaidUsageLevel(t, parse, percent, raids[i]))
    decreases |raids|
  {
    if raids != [] {
      var step := UsageStep(t, parse, percent, Scanned(code, texts, perf), raids[0]);
      AllParseTail(parse, raids);
      ScanUsageCode(t, parse, percent, step.code, step.texts, step.perf, raids[1..]);
      var r := ScanUsage(t, parse, percent, Scanned(code, texts, perf), raids);
      assert r == ScanUsage(t, parse, percent, step, raids[1..]);
      forall i | 0 < i < |raids| ensures r.code >= RaidUsageLevel(t, parse, percent, raids[i]) {
        assert raids[i] == raids[1..][i - 1];
      }
      if r.code != step.code {
        var i :| 0 <= i < |raids[1..]| && r.code == RaidUsageLevel(t, parse, percent, raids[1..][i]);
        assert raids[1..][i] == raids[i + 1];
      }
    }
  }

  /**
   * An abort drops the texts and perfdata of the RAIDs before it: the
   * report is UNKNOWN with only the message of the first RAID that fails.
   */
  lemma AbortDiscardsEarlierRaids(t: Table, percent: Percentage, list: Value, i: nat)
    requires i < |Items(Field(list, "raid_list"))|
    requires UsageFailure(Capacity.Match, Items(Field(list, "raid_list"))[i]).Some?
    ensures DiskUsageReport(t, percent, list) == Report(UNKNOWN, FirstFailure(Capacity.Match, Items(Field(list, "raid_list"))), None)
    ensures var r := DiskUsageReport(t, percent, list);
      r.text == Some(ParseFailure) || r.text == Some(UnitMismatch)
  {
    var raids := Items(Field(list, "raid_list"));
    ScanUsageAborts(t, Capacity.Match, percent, OK, [], [], raids);
    FirstFailureMeaning(Capacity.Match, raids);
    assert !AllParse(Capacity.Match, raids);
    var j :| 0 <= j < |raids| && UsageFailure(Capacity.Match, raids[j]) == FirstFailure(Capacity.Match, raids)
      && AllParse(Capacity.Match, raids[..j]);
  }

  /** A RAID whose used and total space are given in different units aborts the check. */
  lemma DifferentUnitsAbort(t: Table, percent: Percentage)
    ensures var raid := Obj(map["raid_id" := Str("RAID", 0), "data_capacity" := Str("512.00 GB / 1.00 TB", 512)]);
      DiskUsageReport(t, percent, Obj(map["raid_list" := Arr([raid])])) == Report(UNKNOWN, Some(UnitMismatch), None)
  {
    var raid := Obj(map["raid_id" := Str("RAID", 0), "data_capacity" := Str("512.00 GB / 1.00 TB", 512)]);
    var list := Obj(map["raid_list" := Arr([raid])]);
    assert Items(Field(list, "raid_list")) == [raid];
    assert ToText(Field(raid, "data_capacity")) == "512.00 GB / 1.00 TB";
    Capacity.TypicalCapacity();
    assert UsageFailure(Capacity.Match, raid) == Some(UnitMismatch);
    assert FirstFailure(Capacity.Match, [raid]) == Some(UnitMismatch);
    AbortDiscardsEarlierRaids(t, percent, list, 0);
  }

  /**
   * When every capacity text parses, the report lists every RAID's usage and
   * perfdata entry in order, and its code is the worst usage level (OK for none).
   */
  lemma DiskUsageReportScanned(t: Table, percent: Percentage, list: Value)
    requires AllParse(Capacity.Match, Items(Field(list, "raid_list")))
    ensures var raids := Items(Field(list, "raid_list")); var r := DiskUsageReport(t, percent, list);
      && r.text == Joined("Disk usage: ", UsageTexts(Capacity.Match, percent, raids), ", ")
      && r.perf == (if raids == [] then None else Some(Join(UsagePerfs(t, Capacity.Match, percent, raids), " ")))
      && r.code >= OK
      && (forall i :: 0 <= i < |raids| ==> r.code >= RaidUsageLevel(t, Capacity.Match, percent, raids[i]))
      && (r.code == OK || exists i :: 0 <= i < |raids| && r.code == RaidUsageLevel(t, Capacity.Match, percent, raids[i]))
  {
    var raids := Items(Field(list, "raid_list"));
    ScanUsageLists(t, Capacity.Match, percent, OK, [], [], raids);
    ScanUsageCode(t, Capacity.Match, percent, OK, [], [], raids);
    UsageListsLength(t, Capacity.Match, percent, raids);
    assert [] + UsageTexts(Capacity.Match, percent, raids) == UsageTexts(Capacity.Match, percent, raids);
    assert [] + UsagePerfs(t, Capacity.Match, percent, raids) == UsagePerfs(t, Capacity.Match, percent, raids);
  }

  /** checkDiskUsage with its request. */
  function DiskUsageRun(env: Env, percent: Percentage, info: StatusInfo, net: Network): Run {
    var ex := JsonRequest(env.cred, RaidListUri, None, true, net);
    if ex.result.Failure? then Run(info, ex.net, Some(ex.result.error))
    else Run(Add(info, DiskUsageReport(env.thresholds, percent, ex.result.value)), ex.net, None)
  }
}
