/**
 * The threshold table of the checker, a two-level map from threshold type to
 * level (WARNING or CRITICAL) to an optional value, its defaults, and the
 * comparison of a measured value against a warning and a critical threshold.
 */
module Thresholds {
  import opened Wrappers
  import opened Text
  import opened Status

  /**
   * The threshold types, named in the checker "cpu_usage", "disk_usage",
   * "disk_temp", "reallocated_sector", "current_pending_sector" and "uptime";
   * every access to the table goes through a getter or setter for one of them.
   */
  datatype Kind = CpuUsage | DiskUsage | DiskTemp | ReallocatedSector | CurrentPendingSector | Uptime

  const DefaultCpuWarn := 95
  const DefaultCpuCrit := 98
  const DefaultDiskUsageWarn := 80
  const DefaultDiskUsageCrit := 90
  const DefaultDiskTempWarn := 55
  const DefaultDiskTempCrit := 60
  const DefaultReallocSectWarn := 32
  const DefaultReallocSectCrit := 320
  const DefaultCurPendingSectWarn := 1
  const DefaultCurPendingSectCrit := 1
  const DefaultUptimeWarn := 1200
  const DefaultUptimeCrit := 300

  /** type -> level -> value; a stored None is a threshold explicitly set to null. */
  type Table = map<Kind, map<int, Option<int>>>

  /** getThreshold: the stored value, or None when the type or the level was never set. */
  function Get(t: Table, kind: Kind, level: int): Option<int> {
    if kind in t && level in t[kind] then t[kind][level] else None
  }

  /** setThreshold as a function: creates the inner map on first use and stores the value. */
  function Set(t: Table, kind: Kind, level: int, value: Option<int>): Table {
    var inner := if kind in t then t[kind] else map[];
    t[kind := inner[level := value]]
  }

  /** A value stored by setThreshold is read back by getThreshold, and no other entry changes. */
  lemma GetSet(t: Table, kind: Kind, level: int, value: Option<int>, kind': Kind, level': int)
    ensures Get(Set(t, kind, level, value), kind', level') ==
            if kind' == kind && level' == level then value else Get(t, kind', level')
  {
  }

  /** The table the constructor builds: a WARNING and a CRITICAL entry for every type. */
  function Defaults(): Table {
    map[
      CpuUsage := map[WARNING := Some(DefaultCpuWarn), CRITICAL := Some(DefaultCpuCrit)],
      DiskUsage := map[WARNING := Some(DefaultDiskUsageWarn), CRITICAL := Some(DefaultDiskUsageCrit)],
      DiskTemp := map[WARNING := Some(DefaultDiskTempWarn), CRITICAL := Some(DefaultDiskTempCrit)],
      ReallocatedSector := map[WARNING := Some(DefaultReallocSectWarn), CRITICAL := Some(DefaultReallocSectCrit)],
      CurrentPendingSector := map[WARNING := Some(DefaultCurPendingSectWarn), CRITICAL := Some(DefaultCurPendingSectCrit)],
      Uptime := map[CRITICAL := Some(DefaultUptimeWarn), WARNING := Some(DefaultUptimeCrit)]
    ]
  }

  /** The constructor's twelve setter calls, in its order, applied to the empty table. */
  function SetterChain(): Table {
    var t0: Table := map[];
    var t1 := Set(t0, CpuUsage, WARNING, Some(DefaultCpuWarn));
    var t2 := Set(t1, CpuUsage, CRITICAL, Some(DefaultCpuCrit));
    var t3 := Set(t2, DiskUsage, WARNING, Some(DefaultDiskUsageWarn));
    var t4 := Set(t3, DiskUsage, CRITICAL, Some(DefaultDiskUsageCrit));
    var t5 := Set(t4, DiskTemp, WARNING, Some(DefaultDiskTempWarn));
    var t6 := Set(t5, DiskTemp, CRITICAL, Some(DefaultDiskTempCrit));
    var t7 := Set(t6, ReallocatedSector, WARNING, Some(DefaultReallocSectWarn));
    var t8 := Set(t7, ReallocatedSector, CRITICAL, Some(DefaultReallocSectCrit));
    var t9 := Set(t8, CurrentPendingSector, WARNING, Some(DefaultCurPendingSectWarn));
    var t10 := Set(t9, CurrentPendingSector, CRITICAL, Some(DefaultCurPendingSectCrit));
    var t11 := Set(t10, Uptime, CRITICAL, Some(DefaultUptimeWarn));
    Set(t11, Uptime, WARNING, Some(DefaultUptimeCrit))
  }

  /** The setter calls build exactly the default table. */
  lemma SetterChainIsDefaults()
    ensures SetterChain() == Defaults()
  {
    var t0: Table := map[];
    SetBoth(t0, CpuUsage, WARNING, Some(DefaultCpuWarn), CRITICAL, Some(DefaultCpuCrit));
    var t2 := t0[CpuUsage := Defaults()[CpuUsage]];
    SetBoth(t2, DiskUsage, WARNING, Some(DefaultDiskUsageWarn), CRITICAL, Some(DefaultDiskUsageCrit));
    var t4 := t2[DiskUsage := Defaults()[DiskUsage]];
    SetBoth(t4, DiskTemp, WARNING, Some(DefaultDiskTempWarn), CRITICAL, Some(DefaultDiskTempCrit));
    var t6 := t4[DiskTemp := Defaults()[DiskTemp]];
    SetBoth(t6, ReallocatedSector, WARNING, Some(DefaultReallocSectWarn), CRITICAL, Some(DefaultReallocSectCrit));
    var t8 := t6[ReallocatedSector := Defaults()[ReallocatedSector]];
    SetBoth(t8, CurrentPendingSector, WARNING, Some(DefaultCurPendingSectWarn), CRITICAL, Some(DefaultCurPendingSectCrit));
    var t10 := t8[CurrentPendingSector := Defaults()[CurrentPendingSector]];
    SetBoth(t10, Uptime, CRITICAL, Some(DefaultUptimeWarn), WARNING, Some(DefaultUptimeCrit));
  }

  /** Two setter calls on a new type create its inner table with the two entries. */
  lemma SetBoth(t: Table, kind: Kind, l1: int, v1: Option<int>, l2: int, v2: Option<int>)
    requires kind !in t
    ensures Set(Set(t, kind, l1, v1), kind, l2, v2) == t[kind := map[l1 := v1, l2 := v2]]
  {
  }

  /**
   * The defaults as getThreshold reads them. The uptime constants are stored
   * the other way round: the warning constant (1200) under CRITICAL and the
   * critical constant (300) under WARNING.
   */
  lemma DefaultValues()
    ensures Get(Defaults(), CpuUsage, WARNING) == Some(95) && Get(Defaults(), CpuUsage, CRITICAL) == Some(98)
    ensures Get(Defaults(), DiskUsage, WARNING) == Some(80) && Get(Defaults(), DiskUsage, CRITICAL) == Some(90)
    ensures Get(Defaults(), DiskTemp, WARNING) == Some(55) && Get(Defaults(), DiskTemp, CRITICAL) == Some(60)
    ensures Get(Defaults(), ReallocatedSector, WARNING) == Some(32) && Get(Defaults(), ReallocatedSector, CRITICAL) == Some(320)
    ensures Get(Defaults(), CurrentPendingSector, WARNING) == Some(1) && Get(Defaults(), CurrentPendingSector, CRITICAL) == Some(1)
    ensures Get(Defaults(), Uptime, WARNING) == Some(DefaultUptimeCrit) && Get(Defaults(), Uptime, CRITICAL) == Some(DefaultUptimeWarn)
  {
    DefaultsAt(CpuUsage, WARNING);
    DefaultsAt(CpuUsage, CRITICAL);
    DefaultsAt(DiskUsage, WARNING);
    DefaultsAt(DiskUsage, CRITICAL);
    DefaultsAt(DiskTemp, WARNING);
    DefaultsAt(DiskTemp, CRITICAL);
    DefaultsAt(ReallocatedSector, WARNING);
    DefaultsAt(ReallocatedSector, CRITICAL);
    DefaultsAt(CurrentPendingSector, WARNING);
    DefaultsAt(CurrentPendingSector, CRITICAL);
    DefaultsAt(Uptime, WARNING);
    DefaultsAt(Uptime, CRITICAL);
  }

  /** The default of one type and level, read off the table: every type has a WARNING and a CRITICAL entry and nothing else. */
  lemma DefaultsAt(kind: Kind, level: int)
    ensures Get(Defaults(), kind, level) == if level == WARNING || level == CRITICAL then Some(DefaultOf(kind, level)) else None
  {
  }

  /** The constant the constructor stores for a type and level (WARNING or CRITICAL). */
  function DefaultOf(kind: Kind, level: int): int {
    match kind
    case CpuUsage => if level == WARNING then DefaultCpuWarn else DefaultCpuCrit
    case DiskUsage => if level == WARNING then DefaultDiskUsageWarn else DefaultDiskUsageCrit
    case DiskTemp => if level == WARNING then DefaultDiskTempWarn else DefaultDiskTempCrit
    case ReallocatedSector => if level == WARNING then DefaultReallocSectWarn else DefaultReallocSectCrit
    case CurrentPendingSector => if level == WARNING then DefaultCurPendingSectWarn else DefaultCurPendingSectCrit
    case Uptime => if level == WARNING then DefaultUptimeCrit else DefaultUptimeWarn
  }

  /** A threshold that is set and reached by the value. */
  predicate Reached(v: real, threshold: Option<int>) {
    threshold.Some? && v >= threshold.value as real
  }

  /**
   * The comparison each check makes: CRITICAL when the critical threshold is
   * reached, else WARNING when the warning threshold is reached, else OK.
   */
  function Evaluate(v: real, warn: Option<int>, crit: Option<int>): (code: int)
    ensures code == OK || code == WARNING || code == CRITICAL
  {
    if Reached(v, crit) then CRITICAL
    else if Reached(v, warn) then WARNING
    else OK
  }

  /** A null threshold never triggers. */
  lemma NullNeverTriggers(v: real, warn: Option<int>, crit: Option<int>)
    ensures crit == None ==> Evaluate(v, warn, crit) != CRITICAL
    ensures warn == None ==> Evaluate(v, warn, crit) != WARNING
    ensures warn == None && crit == None ==> Evaluate(v, warn, crit) == OK
  {
  }

  /** With warn <= crit the three codes are the bands below warn, from warn to crit, and from crit up. */
  lemma Bands(v: real, warn: int, crit: int)
    requires warn <= crit
    ensures v < warn as real ==> Evaluate(v, Some(warn), Some(crit)) == OK
    ensures warn as real <= v < crit as real ==> Evaluate(v, Some(warn), Some(crit)) == WARNING
    ensures crit as real <= v ==> Evaluate(v, Some(warn), Some(crit)) == CRITICAL
  {
  }

  /** A larger value never gives a lower code. */
  lemma EvaluateMonotone(v: real, w: real, warn: Option<int>, crit: Option<int>)
    requires v <= w
    ensures Evaluate(v, warn, crit) <= Evaluate(w, warn, crit)
  {
  }

  /** A threshold as it appears in performance data: a null threshold prints as nothing. */
  function ThresholdText(threshold: Option<int>): string {
    if threshold.Some? then IntToText(threshold.value) else ""
  }

  /**
   * The update the SMART check makes for one measurement: a critical
   * finding sets the code to CRITICAL, a warning finding raises it to at
   * least WARNING, otherwise it stays.
   */
  function Escalate(code: int, level: int): int {
    if level == CRITICAL then CRITICAL
    else if level == WARNING then Max(WARNING, code)
    else code
  }

  /** For the codes a SMART check can be in, escalating is taking the maximum with the level found. */
  lemma EscalateIsMax(code: int, v: real, warn: Option<int>, crit: Option<int>)
    requires OK <= code <= CRITICAL
    ensures Escalate(code, Evaluate(v, warn, crit)) == Max(code, Evaluate(v, warn, crit))
  {
  }
}
