/**
 * The Nagios status codes and the aggregated check result: one status code,
 * an ordered list of status texts and an ordered list of performance-data
 * entries, and the line of plugin output rendered from them.
 */
module Status {
  import opened Wrappers
  import opened Text

  const OK := 0
  const WARNING := 1
  const CRITICAL := 2
  const UNKNOWN := 3

  /** A code the plugin can exit with. */
  predicate IsStatusCode(code: int) {
    OK <= code <= UNKNOWN
  }

  function Max(a: int, b: int): int {
    if a >= b then a else b
  }

  /** statusCodeToText: the name of a code; anything that is not 0, 1 or 2 is named UNKNOWN. */
  function StatusCodeToText(code: int): string {
    if code == OK then "OK"
    else if code == WARNING then "WARNING"
    else if code == CRITICAL then "CRITICAL"
    else "UNKNOWN"
  }

  /** The aggregated result: the fields statusCode, statusText and perfData of the checker. */
  datatype StatusInfo = StatusInfo(code: int, texts: seq<string>, perf: seq<string>)

  /** One contribution, the three arguments of addStatusInfo: a code and an optional text and performance entry. */
  datatype Report = Report(code: int, text: Option<string>, perf: Option<string>)

  const Initial := StatusInfo(OK, [], [])

  function Present(s: Option<string>): seq<string> {
    if s.Some? then [s.value] else []
  }

  /** addStatusInfo as a function on the aggregated result. */
  function Add(info: StatusInfo, r: Report): StatusInfo {
    StatusInfo(if r.code > info.code then r.code else info.code,
               info.texts + Present(r.text),
               info.perf + Present(r.perf))
  }

  /** Contributions applied one after another, the first one first. */
  function AddAll(info: StatusInfo, rs: seq<Report>): StatusInfo
    decreases |rs|
  {
    if rs == [] then info else AddAll(Add(info, rs[0]), rs[1..])
  }

  /** The texts of the contributions that carry one, in order. */
  function TextsOf(rs: seq<Report>): seq<string>
    decreases |rs|
  {
    if rs == [] then [] else Present(rs[0].text) + TextsOf(rs[1..])
  }

  /** The performance entries of the contributions that carry one, in order. */
  function PerfOf(rs: seq<Report>): seq<string>
    decreases |rs|
  {
    if rs == [] then [] else Present(rs[0].perf) + PerfOf(rs[1..])
  }

  /** A contribution never lowers the code and only appends to the two lists. */
  lemma AddIsMonotone(info: StatusInfo, r: Report)
    ensures Add(info, r).code == Max(info.code, r.code)
    ensures Add(info, r).code >= info.code && Add(info, r).code >= r.code
    ensures Add(info, r).texts[..|info.texts|] == info.texts
    ensures Add(info, r).perf[..|info.perf|] == info.perf
  {
  }

  /**
   * After any sequence of contributions the code is the largest code seen,
   * and the two lists are the old lists followed by every text and entry
   * contributed, in the order of the calls: nothing is dropped or reordered.
   */
  lemma AddAllAggregates(info: StatusInfo, rs: seq<Report>)
    ensures var r := AddAll(info, rs);
      && r.code >= info.code
      && (forall i :: 0 <= i < |rs| ==> r.code >= rs[i].code)
      && (r.code == info.code || exists i :: 0 <= i < |rs| && r.code == rs[i].code)
    ensures AddAll(info, rs).texts == info.texts + TextsOf(rs)
    ensures AddAll(info, rs).perf == info.perf + PerfOf(rs)
  {
    AddAllCode(info, rs);
    AddAllLists(info, rs);
  }

  /** The code half of AddAllAggregates. */
  lemma {:induction false} AddAllCode(info: StatusInfo, rs: seq<Report>)
    ensures var r := AddAll(info, rs);
      && r.code >= info.code
      && (forall i :: 0 <= i < |rs| ==> r.code >= rs[i].code)
      && (r.code == info.code || exists i :: 0 <= i < |rs| && r.code == rs[i].code)
    decreases |rs|
  {
    if rs != [] {
      var next := Add(info, rs[0]);
      AddAllCode(next, rs[1..]);
      var r := AddAll(info, rs);
      assert r == AddAll(next, rs[1..]);
      forall i | 1 <= i < |rs| ensures r.code >= rs[i].code {
        assert rs[i] == rs[1..][i - 1];
      }
      if r.code != next.code {
        var j :| 0 <= j < |rs[1..]| && r.code == rs[1..][j].code;
        assert r.code == rs[j + 1].code;
      }
    }
  }

  /** The list half of AddAllAggregates. */
  lemma {:induction false} AddAllLists(info: StatusInfo, rs: seq<Report>)
    ensures AddAll(info, rs).texts == info.texts + TextsOf(rs)
    ensures AddAll(info, rs).perf == info.perf + PerfOf(rs)
    decreases |rs|
  {
    if rs != [] {
      var next := Add(info, rs[0]);
      AddAllLists(next, rs[1..]);
      assert AddAll(info, rs) == AddAll(next, rs[1..]);
      assert TextsOf(rs) == Present(rs[0].text) + TextsOf(rs[1..]);
      assert PerfOf(rs) == Present(rs[0].perf) + PerfOf(rs[1..]);
    }
  }

  /** The final code does not depend on the order in which the contributions arrive. */
  lemma CodeIgnoresOrder(info: StatusInfo, rs: seq<Report>, qs: seq<Report>)
    requires multiset(rs) == multiset(qs)
    ensures AddAll(info, rs).code == AddAll(info, qs).code
  {
    AddAllAggregates(info, rs);
    AddAllAggregates(info, qs);
    var a, b := AddAll(info, rs).code, AddAll(info, qs).code;
    forall i | 0 <= i < |rs| ensures b >= rs[i].code {
      assert rs[i] in multiset(qs);
      var j :| 0 <= j < |qs| && qs[j] == rs[i];
    }
    forall i | 0 <= i < |qs| ensures a >= qs[i].code {
      assert qs[i] in multiset(rs);
      var j :| 0 <= j < |rs| && rs[j] == qs[i];
    }
  }

  /** What setStatusInfo accepts for a text or perfdata argument: nothing, one string, or an array of strings. */
  datatype TextArg = Absent | Single(s: string) | Many(xs: seq<string>)

  /** The list setStatusInfo stores: PHP's empty() turns null, "", "0" and an empty array into an empty list. */
  function ArgList(a: TextArg): seq<string> {
    match a
    case Absent => []
    case Single(s) => if Empty(s) then [] else [s]
    case Many(xs) => xs
  }

  /** setStatusInfo as a function: the whole result is replaced. */
  function Set(code: int, text: TextArg, perf: TextArg): StatusInfo {
    StatusInfo(code, ArgList(text), ArgList(perf))
  }

  /** Replacing keeps none of the earlier result: it depends only on its arguments. */
  lemma SetForgets(code: int, message: string)
    ensures Set(code, Single(message), Absent).code == code
    ensures Set(code, Single(message), Absent).texts == if Empty(message) then [] else [message]
    ensures Set(code, Single(message), Absent).perf == []
  {
  }

  const EndOfLine := "\n"

  /** getCheckOutput: `NAME - texts | perfdata` and an end of line. */
  function Render(info: StatusInfo): string {
    StatusCodeToText(info.code) + " - "
      + (if info.texts != [] then Join(info.texts, ", ") else "System working fine")
      + (if info.perf != [] then " | " + Join(info.perf, " ") else "")
      + EndOfLine
  }

  /** The code a monitoring supervisor reads back from the first word of a line of plugin output. */
  function StatusWord(out: string): int {
    var k := IndexOf(out, ' ', 0);
    var name := out[..k];
    if name == "OK" then OK
    else if name == "WARNING" then WARNING
    else if name == "CRITICAL" then CRITICAL
    else UNKNOWN
  }

  /**
   * The status word of the output agrees with the exit code: reading the
   * first word of getCheckOutput gives back the code (for the four codes the
   * plugin uses; any other code is printed as UNKNOWN).
   */
  lemma RenderStatusWord(info: StatusInfo)
    ensures StatusWord(Render(info)) == if IsStatusCode(info.code) then info.code else UNKNOWN
  {
    var w := StatusCodeToText(info.code);
    var rest := Render(info)[|w| + 1..];
    assert Render(info) == w + " " + rest;
    IndexOfAfterWord(w, ' ', rest, 0);
    assert (w + " " + rest)[..|w|] == w;
  }

  /**
   * With texts that contain no '|', the output contains a '|' exactly when there
   * is performance data: the perfdata part appears only when perfData is non-empty.
   */
  lemma RenderPipe(info: StatusInfo)
    requires forall i :: 0 <= i < |info.texts| ==> '|' !in info.texts[i]
    ensures '|' in Render(info) <==> info.perf != []
  {
    var name := StatusCodeToText(info.code);
    var body := if info.texts != [] then Join(info.texts, ", ") else "System working fine";
    var tail := if info.perf != [] then " | " + Join(info.perf, " ") else "";
    assert Render(info) == name + " - " + body + tail + EndOfLine;
    JoinHasChar(info.texts, ", ", '|');
    assert '|' !in body;
    assert '|' !in name;
    if info.perf != [] {
      assert tail[1] == '|';
    }
  }

  /** Without any text the output says the system is working fine. */
  lemma RenderDefaultText(info: StatusInfo)
    requires info.texts == [] && info.perf == []
    ensures Render(info) == StatusCodeToText(info.code) + " - System working fine\n"
  {
  }
}
