/**
 * The parse of a RAID's data_capacity text by checkDiskUsage, which matches
 * the pattern `([0-9.]+) ?([KMGTP]B)[^0-9.]+([0-9.]+) ?([KMGTP]B)`
 * against it. Every part of the pattern is a greedy run whose next part
 * cannot begin with a character the run takes, so at each start position
 * there is at most one way to match and no backtracking can find another;
 * the match is the one at the leftmost start position where this succeeds.
 */
module Capacity {
  import opened Wrappers

  /** `[0-9.]` */
  predicate IsNumChar(c: char) {
    '0' <= c <= '9' || c == '.'
  }

  /** `[KMGTP]` */
  predicate IsUnitPrefix(c: char) {
    c == 'K' || c == 'M' || c == 'G' || c == 'T' || c == 'P'
  }

  predicate IsUnit(u: string) {
    |u| == 2 && IsUnitPrefix(u[0]) && u[1] == 'B'
  }

  predicate AllNum(s: string) {
    forall i :: 0 <= i < |s| ==> IsNumChar(s[i])
  }

  predicate NoneNum(s: string) {
    forall i :: 0 <= i < |s| ==> !IsNumChar(s[i])
  }

  /** The end of the longest run from `i` of characters that are numeric exactly when `num` is. */
  function RunEnd(s: string, i: nat, num: bool): (e: nat)
    requires i <= |s|
    ensures i <= e <= |s|
    ensures forall j :: i <= j < e ==> IsNumChar(s[j]) == num
    ensures e < |s| ==> IsNumChar(s[e]) != num
    decreases |s| - i
  {
    if i == |s| || IsNumChar(s[i]) != num then i else RunEnd(s, i + 1, num)
  }

  /** A number and its unit as the pattern captures them, and where the match of this part ends. */
  datatype Quantity = Quantity(amount: string, unit: string, end: nat)

  /** `([0-9.]+) ?([KMGTP]B)` at position i. */
  function QuantityAt(s: string, i: nat): (q: Option<Quantity>)
    requires i <= |s|
    ensures q.Some? ==> i < q.value.end <= |s|
  {
    var e := RunEnd(s, i, true);
    var j := if e < |s| && s[e] == ' ' then e + 1 else e;
    if e == i || j + 2 > |s| || !IsUnitPrefix(s[j]) || s[j + 1] != 'B' then None
    else Some(Quantity(s[i..e], s[j..j + 2], j + 2))
  }

  /** The four captured groups: used amount and unit, total amount and unit. */
  datatype CapacityMatch = CapacityMatch(used: string, usedUnit: string, total: string, totalUnit: string)

  /** The whole pattern with its match starting at position i. */
  function MatchAt(s: string, i: nat): Option<CapacityMatch>
    requires i <= |s|
  {
    var first := QuantityAt(s, i);
    if first.None? then None
    else
      var k := first.value.end;
      var e := RunEnd(s, k, false);
      if e == k || e == |s| then None
      else
        var second := QuantityAt(s, e);
        if second.None? then None
        else Some(CapacityMatch(first.value.amount, first.value.unit, second.value.amount, second.value.unit))
  }

  /** The first position from `from` on where the pattern matches, or |s| + 1 when there is none. */
  function FirstMatch(s: string, from: nat): (k: nat)
    requires from <= |s|
    ensures from <= k <= |s| + 1
    ensures k <= |s| ==> MatchAt(s, k).Some?
    ensures forall j :: from <= j < k && j <= |s| ==> MatchAt(s, j).None?
    decreases |s| - from
  {
    if MatchAt(s, from).Some? then from
    else if from == |s| then |s| + 1
    else FirstMatch(s, from + 1)
  }

  /** preg_match: the match at the leftmost position where there is one. */
  function Match(s: string): Option<CapacityMatch> {
    var k := FirstMatch(s, 0);
    if k <= |s| then MatchAt(s, k) else None
  }

  /** preg_match finds a match exactly when the pattern matches at some position. */
  lemma MatchIff(s: string)
    ensures Match(s).Some? <==> exists i :: 0 <= i <= |s| && MatchAt(s, i).Some?
  {
  }

  /** What a match captures has the shape the pattern prescribes. */
  lemma MatchAtShape(s: string, i: nat)
    requires i <= |s| && MatchAt(s, i).Some?
    ensures var m := MatchAt(s, i).value;
      && m.used != [] && AllNum(m.used) && IsUnit(m.usedUnit)
      && m.total != [] && AllNum(m.total) && IsUnit(m.totalUnit)
  {
  }

  /** A run of n characters from i, each numeric exactly when `num` is, followed by one that is not or by the end. */
  lemma {:induction false} RunFrom(s: string, i: nat, n: nat, num: bool)
    requires i + n <= |s|
    requires forall k :: i <= k < i + n ==> IsNumChar(s[k]) == num
    requires i + n == |s| || IsNumChar(s[i + n]) != num
    ensures RunEnd(s, i, num) == i + n
    decreases n
  {
    if n > 0 {
      RunFrom(s, i + 1, n - 1, num);
    }
  }

  /** The capacity text written as `amount[ ]unit`. */
  function Quantified(amount: string, space: bool, unit: string): string {
    amount + (if space then " " else "") + unit
  }

  /** A formatted quantity found at position i is read back as its amount and unit. */
  lemma QuantityAtIndexed(s: string, i: nat, amount: string, space: bool, unit: string)
    requires amount != [] && AllNum(amount) && IsUnit(unit)
    requires i + |Quantified(amount, space, unit)| <= |s|
    requires s[i..i + |Quantified(amount, space, unit)|] == Quantified(amount, space, unit)
    ensures QuantityAt(s, i) == Some(Quantity(amount, unit, i + |Quantified(amount, space, unit)|))
  {
    var q := Quantified(amount, space, unit);
    var n := |amount|;
    AmountRun(s, i, amount, space, unit);
    var j := if space then i + n + 1 else i + n;
    assert s[i + n] == q[n];
    assert s[j] == q[j - i] && s[j + 1] == q[j - i + 1];
    assert s[j..j + 2] == unit;
  }

  /** The amount of a formatted quantity is the numeric run at its position. */
  lemma AmountRun(s: string, i: nat, amount: string, space: bool, unit: string)
    requires amount != [] && AllNum(amount) && IsUnit(unit)
    requires i + |Quantified(amount, space, unit)| <= |s|
    requires s[i..i + |Quantified(amount, space, unit)|] == Quantified(amount, space, unit)
    ensures RunEnd(s, i, true) == i + |amount|
    ensures s[i..i + |amount|] == amount
  {
    var q := Quantified(amount, space, unit);
    var n := |amount|;
    forall k | i <= k < i + n ensures IsNumChar(s[k]) {
      assert s[k] == q[k - i];
    }
    assert s[i + n] == q[n];
    RunFrom(s, i, n, true);
    assert s[i..i + n] == s[i..i + |q|][..n];
    assert q[..n] == amount;
  }

  lemma QuantityAtFormatted(pre: string, amount: string, space: bool, unit: string, rest: string)
    requires amount != [] && AllNum(amount) && IsUnit(unit)
    ensures QuantityAt(pre + Quantified(amount, space, unit) + rest, |pre|)
         == Some(Quantity(amount, unit, |pre| + |Quantified(amount, space, unit)|))
  {
    var q := Quantified(amount, space, unit);
    var s := pre + q + rest;
    assert s[|pre|..|pre| + |q|] == q;
    QuantityAtIndexed(s, |pre|, amount, space, unit);
  }

  /**
   * A text made of a used amount and unit, a separator without digits or
   * dots, and a total amount and unit is parsed back into exactly those
   * four parts, whatever follows them.
   */
  lemma FormatThenMatch(used: string, sp1: bool, usedUnit: string, sep: string,
                        total: string, sp2: bool, totalUnit: string, rest: string)
    requires used != [] && AllNum(used) && IsUnit(usedUnit)
    requires sep != [] && NoneNum(sep)
    requires total != [] && AllNum(total) && IsUnit(totalUnit)
    ensures Match(Quantified(used, sp1, usedUnit) + sep + Quantified(total, sp2, totalUnit) + rest)
         == Some(CapacityMatch(used, usedUnit, total, totalUnit))
  {
    var q1 := Quantified(used, sp1, usedUnit);
    var q2 := Quantified(total, sp2, totalUnit);
    var s := q1 + sep + q2 + rest;
    FirstTwoParts(s, used, sp1, usedUnit, sep, q2, rest);
    var pre := q1 + sep;
    SecondPart(s, pre, total, sp2, totalUnit, rest);
    MatchFromParts(s, Quantity(used, usedUnit, |q1|), |pre|, Quantity(total, totalUnit, |pre| + |q2|));
  }

  /** The used amount with its unit, and the separator after it. */
  lemma FirstTwoParts(s: string, used: string, sp1: bool, usedUnit: string, sep: string, q2: string, rest: string)
    requires used != [] && AllNum(used) && IsUnit(usedUnit)
    requires sep != [] && NoneNum(sep) && q2 != [] && IsNumChar(q2[0])
    requires s == Quantified(used, sp1, usedUnit) + sep + q2 + rest
    ensures QuantityAt(s, 0) == Some(Quantity(used, usedUnit, |Quantified(used, sp1, usedUnit)|))
    ensures RunEnd(s, |Quantified(used, sp1, usedUnit)|, false) == |Quantified(used, sp1, usedUnit)| + |sep|
  {
    var q1 := Quantified(used, sp1, usedUnit);
    assert s == q1 + (sep + q2 + rest);
    FirstOfFormatted(s, q1, used, sp1, usedUnit, sep + q2 + rest);
    assert s == q1 + sep + (q2 + rest);
    assert (q2 + rest)[0] == q2[0];
    GapOfFormatted(s, q1, sep, q2 + rest);
  }

  /** The total amount with its unit. */
  lemma SecondPart(s: string, pre: string, total: string, sp2: bool, totalUnit: string, rest: string)
    requires total != [] && AllNum(total) && IsUnit(totalUnit)
    requires s == pre + Quantified(total, sp2, totalUnit) + rest
    ensures |pre| < |s|
    ensures QuantityAt(s, |pre|) == Some(Quantity(total, totalUnit, |pre| + |Quantified(total, sp2, totalUnit)|))
  {
    QuantityAtFormatted(pre, total, sp2, totalUnit, rest);
  }

  lemma FirstOfFormatted(s: string, q1: string, used: string, sp1: bool, usedUnit: string, t: string)
    requires used != [] && AllNum(used) && IsUnit(usedUnit)
    requires q1 == Quantified(used, sp1, usedUnit) && s == q1 + t
    ensures QuantityAt(s, 0) == Some(Quantity(used, usedUnit, |q1|))
  {
    QuantityAtFormatted([], used, sp1, usedUnit, t);
    assert [] + q1 + t == s;
  }

  lemma GapOfFormatted(s: string, q1: string, sep: string, t: string)
    requires NoneNum(sep) && t != [] && IsNumChar(t[0]) && s == q1 + sep + t
    ensures RunEnd(s, |q1|, false) == |q1| + |sep|
  {
    forall k | |q1| <= k < |q1| + |sep| ensures !IsNumChar(s[k]) {
      assert s[k] == sep[k - |q1|];
    }
    assert s[|q1| + |sep|] == t[0];
    RunFrom(s, |q1|, |sep|, false);
  }

  lemma MatchFromParts(s: string, first: Quantity, e: nat, second: Quantity)
    requires QuantityAt(s, 0) == Some(first)
    requires RunEnd(s, first.end, false) == e && first.end < e < |s|
    requires QuantityAt(s, e) == Some(second)
    ensures Match(s) == Some(CapacityMatch(first.amount, first.unit, second.amount, second.unit))
  {
    assert MatchAt(s, 0) == Some(CapacityMatch(first.amount, first.unit, second.amount, second.unit));
  }

  /** The capacity text of the Thecus web interface. */
  lemma TypicalCapacity()
    ensures Match("512.00 GB / 1.00 TB") == Some(CapacityMatch("512.00", "GB", "1.00", "TB"))
  {
    assert "512.00 GB / 1.00 TB" == Quantified("512.00", true, "GB") + " / " + Quantified("1.00", true, "TB") + "";
    FormatThenMatch("512.00", true, "GB", " / ", "1.00", true, "TB", "");
  }

  /** A text with no unit after its number does not match. */
  lemma NoUnitNoMatch()
    ensures Match("1234") == None
  {
    assert MatchAt("1234", 4) == None;
    assert MatchAt("1234", 3) == None;
    assert MatchAt("1234", 2) == None;
    assert MatchAt("1234", 1) == None;
    assert MatchAt("1234", 0) == None;
  }
}
