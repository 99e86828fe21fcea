/**
  Inserting a breakpoint: `BreakpointAddAction`.

  The action issues one `-break-insert` command built from the breakpoint's location,
  line, optional condition and optional ignore count.  A `^done` reply carries the
  debugger's number for the new breakpoint in `bkpt.number`; when it reads as an integer
  the breakpoint records it and, if the breakpoint is disabled, the action issues one
  `-break-disable <n>` and finishes only when that reply arrives.  Every other reply to
  the insert command finishes the action at once.
*/
module Breakpoints {
  import opened Reply
  import opened Action
  import Quoting

  const InsertPrefix: string := "-break-insert -f "

  function ConditionClause(condition: Option<string>): string {
    match condition
    case Some(c) => "-c " + c + " "
    case None => ""
  }

  function IgnoreClause(ignoreCount: Option<int>): string {
    match ignoreCount
    case Some(n) => "-i " + FormatInt(n) + " "
    case None => ""
  }

  function LocationClause(location: string, line: int): string {
    location + ":" + FormatInt(line)
  }

  /** The insert command: the condition and ignore-count clauses only when set, `location:line` last. */
  function InsertCommand(location: string, line: int, condition: Option<string>, ignoreCount: Option<int>): string {
    InsertPrefix + (ConditionClause(condition) + (IgnoreClause(ignoreCount) + LocationClause(location, line)))
  }

  function DisableCommand(n: int): string {
    "-break-disable " + FormatInt(n)
  }

  // ---------------------------------------------------------------------------------
  // Reading an insert command back: the partner of `InsertCommand`.

  datatype InsertArgs = InsertArgs(condition: Option<string>, ignoreCount: Option<int>, location: string, line: int)

  predicate StartsWith(s: string, prefix: string) {
    |prefix| <= |s| && s[..|prefix|] == prefix
  }

  /** The position of the first `c` in `s`, or -1. */
  function IndexOf(s: string, c: char): (r: int)
    ensures -1 <= r < |s|
    ensures r >= 0 ==> s[r] == c
    ensures forall j :: 0 <= j < |s| && (r == -1 || j < r) ==> s[j] != c
  {
    if s == [] then -1
    else if s[0] == c then 0
    else
      var k := IndexOf(s[1..], c);
      if k == -1 then -1 else k + 1
  }

  /** The position of the last `c` in `s`, or -1. */
  function LastIndexOf(s: string, c: char): (r: int)
    ensures -1 <= r < |s|
    ensures r >= 0 ==> s[r] == c
    ensures forall j :: r < j < |s| ==> s[j] != c
  {
    if s == [] then -1
    else if s[|s| - 1] == c then |s| - 1
    else LastIndexOf(s[..|s| - 1], c)
  }

  lemma FirstSeparator(a: string, c: char, b: string)
    requires c !in a
    ensures IndexOf(a + [c] + b, c) == |a|
  {
    var s := a + [c] + b;
    assert s[|a|] == c;
    assert forall j :: 0 <= j < |a| ==> s[j] == a[j];
  }

  lemma LastSeparator(a: string, c: char, b: string)
    requires c !in b
    ensures LastIndexOf(a + [c] + b, c) == |a|
  {
    NoneAfter(a, c, b);
    LastIndexOfIs(a + [c] + b, c, |a|);
  }

  lemma NoneAfter(a: string, c: char, b: string)
    requires c !in b
    ensures forall j :: |a| < j < |a + [c] + b| ==> (a + [c] + b)[j] != c
  {
    var s := a + [c] + b;
    forall j | |a| < j < |s|
      ensures s[j] != c
    {
      assert s[j] == b[j - |a| - 1];
    }
  }

  lemma LastIndexOfIs(s: string, c: char, k: int)
    requires 0 <= k < |s| && s[k] == c
    requires forall j :: k < j < |s| ==> s[j] != c
    ensures LastIndexOf(s, c) == k
  {
  }

  /** Splits off a leading token ended by a space: `"abc rest"` gives `("abc", "rest")`. */
  function Token(s: string): Option<(string, string)> {
    var k := IndexOf(s, ' ');
    if k < 0 then None else Some((s[..k], s[k + 1..]))
  }

  /** Reads an optional `<flag><token> ` clause off the front of `s`. */
  function Clause(s: string, flag: string): Option<(Option<string>, string)> {
    if StartsWith(s, flag) then
      match Token(s[|flag|..])
      case None => None
      case Some(t) => Some((Some(t.0), t.1))
    else Some((None, s))
  }

  /** Reads an optional `-i <count> ` clause; a count that is not an integer fails. */
  function DecodeIgnore(s: string): Option<(Option<int>, string)> {
    match Clause(s, "-i ")
    case None => None
    case Some(t) =>
      if t.0.None? then Some((None, t.1))
      else match ParseInt(t.0.value)
        case None => None
        case Some(n) => Some((Some(n), t.1))
  }

  /** Splits `location:line` at the last colon (a location may hold colons itself). */
  function SplitLocation(s: string): Option<(string, int)> {
    var k := LastIndexOf(s, ':');
    if k < 0 then None
    else match ParseInt(s[k + 1..])
      case None => None
      case Some(line) => Some((s[..k], line))
  }

  /**
    Reads the unquoted `location:line` argument.  GDB/MI splits unquoted arguments at
    spaces and `-break-insert` takes a single location, so a location part holding a
    space leaves words over and the command is refused.
  */
  function DecodeLocation(s: string): Option<(string, int)> {
    match SplitLocation(s)
    case None => None
    case Some(l) => if ' ' in l.0 then None else Some(l)
  }

  function DecodeInsert(cmd: string): Option<InsertArgs> {
    if !StartsWith(cmd, InsertPrefix) then None
    else match Clause(cmd[|InsertPrefix|..], "-c ")
      case None => None
      case Some(c) =>
        match DecodeIgnore(c.1)
        case None => None
        case Some(i) =>
          match DecodeLocation(i.1)
          case None => None
          case Some(l) => Some(InsertArgs(c.0, i.0, l.0, l.1))
  }

  lemma FormatIntHasNo(n: int, c: char)
    requires c == ' ' || c == ':'
    ensures c !in FormatInt(n)
  {
  }

  lemma ClauseRoundTrip(flag: string, token: string, rest: string)
    requires ' ' !in token
    ensures Clause(flag + token + " " + rest, flag) == Some((Some(token), rest))
  {
    var s := flag + token + " " + rest;
    assert s[..|flag|] == flag;
    assert s[|flag|..] == token + [' '] + rest;
    FirstSeparator(token, ' ', rest);
    assert (token + [' '] + rest)[..|token|] == token;
    assert (token + [' '] + rest)[|token| + 1..] == rest;
  }

  /** The split at the last colon gives back any location, colons and spaces included. */
  lemma SplitLocationRoundTrip(location: string, line: int)
    ensures SplitLocation(location + ":" + FormatInt(line)) == Some((location, line))
  {
    var tail := location + ":" + FormatInt(line);
    FormatIntHasNo(line, ':');
    assert tail == location + [':'] + FormatInt(line);
    LastSeparator(location, ':', FormatInt(line));
    assert tail[..|location|] == location;
    assert tail[|location| + 1..] == FormatInt(line);
    FormatParse(line);
  }

  /** An unquoted location without spaces reads back whole, even when it holds colons. */
  lemma LocationRoundTrip(location: string, line: int)
    requires ' ' !in location
    ensures DecodeLocation(location + ":" + FormatInt(line)) == Some((location, line))
  {
    SplitLocationRoundTrip(location, line);
  }

  /** An unquoted location part holding a space is refused. */
  lemma SpacedLocationPart(location: string, line: int)
    requires ' ' in location
    ensures DecodeLocation(location + ":" + FormatInt(line)) == None
  {
    SplitLocationRoundTrip(location, line);
  }

  lemma IgnoreRoundTrip(ignoreCount: Option<int>, tail: string)
    requires !StartsWith(tail, "-i ")
    ensures DecodeIgnore(IgnoreClause(ignoreCount) + tail) == Some((ignoreCount, tail))
  {
    match ignoreCount {
      case Some(n) =>
        FormatIntHasNo(n, ' ');
        assert IgnoreClause(ignoreCount) + tail == "-i " + FormatInt(n) + " " + tail;
        ClauseRoundTrip("-i ", FormatInt(n), tail);
        FormatParse(n);
      case None =>
        assert IgnoreClause(ignoreCount) + tail == tail;
    }
  }

  lemma ConditionRoundTrip(condition: Option<string>, rest: string)
    requires condition.Some? ==> ' ' !in condition.value
    requires !StartsWith(rest, "-c ")
    ensures Clause(ConditionClause(condition) + rest, "-c ") == Some((condition, rest))
  {
    match condition {
      case Some(c) =>
        assert ConditionClause(condition) + rest == "-c " + c + " " + rest;
        ClauseRoundTrip("-c ", c, rest);
      case None =>
        assert ConditionClause(condition) + rest == rest;
    }
  }

  /**
    The insert command is unambiguous: reading it back gives the condition, the ignore
    count, the location and the line it was built from, as long as the condition is one
    word and the location holds no space and does not begin with a dash.
  */
  lemma InsertRoundTrip(location: string, line: int, condition: Option<string>, ignoreCount: Option<int>)
    requires condition.Some? ==> ' ' !in condition.value
    requires ' ' !in location && (location == [] || location[0] != '-')
    ensures DecodeInsert(InsertCommand(location, line, condition, ignoreCount))
         == Some(InsertArgs(condition, ignoreCount, location, line))
  {
    var tail := LocationClause(location, line);
    var s1 := IgnoreClause(ignoreCount) + tail;
    var cmd := InsertCommand(location, line, condition, ignoreCount);
    assert cmd[..|InsertPrefix|] == InsertPrefix;
    ClausesUnflagged(location, line, ignoreCount);
    ConditionRoundTrip(condition, s1);
    IgnoreRoundTrip(ignoreCount, tail);
    LocationRoundTrip(location, line);
    DecodeStages(cmd, condition, s1, ignoreCount, tail, location, line);
  }

  lemma ClausesUnflagged(location: string, line: int, ignoreCount: Option<int>)
    requires location == [] || location[0] != '-'
    ensures !StartsWith(location + ":" + FormatInt(line), "-i ")
    ensures !StartsWith(IgnoreClause(ignoreCount) + (location + ":" + FormatInt(line)), "-c ")
  {
    var tail := location + ":" + FormatInt(line);
    assert tail[0] == (if location == [] then ':' else location[0]);
    var s1 := IgnoreClause(ignoreCount) + tail;
    if ignoreCount.Some? { assert s1[1] == 'i'; } else { assert s1 == tail; }
  }

  lemma DecodeStages(cmd: string, condition: Option<string>, s1: string, ignoreCount: Option<int>,
                     tail: string, location: string, line: int)
    requires StartsWith(cmd, InsertPrefix)
    requires Clause(cmd[|InsertPrefix|..], "-c ") == Some((condition, s1))
    requires DecodeIgnore(s1) == Some((ignoreCount, tail))
    requires DecodeLocation(tail) == Some((location, line))
    ensures DecodeInsert(cmd) == Some(InsertArgs(condition, ignoreCount, location, line))
  {
  }

  lemma DecodeRefused(cmd: string, condition: Option<string>, s1: string, ignoreCount: Option<int>, tail: string)
    requires StartsWith(cmd, InsertPrefix)
    requires Clause(cmd[|InsertPrefix|..], "-c ") == Some((condition, s1))
    requires DecodeIgnore(s1) == Some((ignoreCount, tail))
    requires DecodeLocation(tail) == None
    ensures DecodeInsert(cmd) == None
  {
  }

  // ---------------------------------------------------------------------------------
  // A location with a space.  The location is sent unquoted as well, so GDB/MI reads it
  // as several arguments and refuses the command.

  /** As written, a breakpoint whose location holds a space cannot be inserted. */
  lemma SpacedLocationRefused(location: string, line: int, condition: Option<string>, ignoreCount: Option<int>)
    requires ' ' in location
    requires condition.Some? ==> ' ' !in condition.value
    requires location[0] != '-'
    ensures DecodeInsert(InsertCommand(location, line, condition, ignoreCount)) == None
  {
    var tail := LocationClause(location, line);
    var s1 := IgnoreClause(ignoreCount) + tail;
    var cmd := InsertCommand(location, line, condition, ignoreCount);
    assert cmd[..|InsertPrefix|] == InsertPrefix;
    ClausesUnflagged(location, line, ignoreCount);
    ConditionRoundTrip(condition, s1);
    IgnoreRoundTrip(ignoreCount, tail);
    SpacedLocationPart(location, line);
    DecodeRefused(cmd, condition, s1, ignoreCount, tail);
  }

  /** The breakpoint at `My Docs/a.cpp:3` is refused. */
  lemma ExampleSpacedLocation()
    ensures DecodeInsert(InsertCommand("My Docs/a.cpp", 3, None, None)) == None
  {
    var location := "My Docs/a.cpp";
    assert location[2] == ' ';
    SpacedLocationRefused(location, 3, None, None);
  }

  // ---------------------------------------------------------------------------------
  // A condition with a space.  The condition is sent unquoted, so GDB/MI reads its first
  // word as the `-c` argument and the rest as further arguments.

  lemma {:induction false} IndexOfPrefix(a: string, b: string, c: char)
    requires c in a
    ensures IndexOf(a + b, c) == IndexOf(a, c)
  {
    if a[0] != c {
      assert a[1..] + b == (a + b)[1..];
      IndexOfPrefix(a[1..], b, c);
    }
  }

  /** The token read off a string that starts with a spaced condition is the condition's first word. */
  lemma SpacedToken(condition: string, tail: string)
    requires ' ' in condition
    ensures var k := IndexOf(condition, ' ');
      Token(condition + tail) == Some((condition[..k], condition[k + 1..] + tail))
  {
    IndexOfPrefix(condition, tail, ' ');
    var k := IndexOf(condition, ' ');
    assert (condition + tail)[..k] == condition[..k];
    assert (condition + tail)[k + 1..] == condition[k + 1..] + tail;
  }

  /** A `-c` clause whose condition holds a space yields the condition's first word. */
  lemma SpacedClause(condition: string, rest: string)
    requires ' ' in condition
    ensures var k := IndexOf(condition, ' ');
      Clause("-c " + (condition + (" " + rest)), "-c ") == Some((Some(condition[..k]), condition[k + 1..] + (" " + rest)))
  {
    var s := "-c " + (condition + (" " + rest));
    assert StartsWith(s, "-c ") && s[3..] == condition + (" " + rest);
    SpacedToken(condition, " " + rest);
  }

  /** A decoded insert command whose `-c` argument holds a space carries the condition's first word. */
  lemma DecodedSpaced(cmd: string, condition: string, rest: string)
    requires ' ' in condition && cmd == InsertPrefix + ("-c " + (condition + (" " + rest)))
    ensures DecodeInsert(cmd).Some? ==> DecodeInsert(cmd).value.condition == Some(condition[..IndexOf(condition, ' ')])
  {
    assert cmd[..|InsertPrefix|] == InsertPrefix;
    assert cmd[|InsertPrefix|..] == "-c " + (condition + (" " + rest));
    SpacedClause(condition, rest);
  }

  /** The insert command with a condition, cut after the prefix into the `-c` clause and the rest. */
  lemma InsertWithCondition(location: string, line: int, condition: string, ignoreCount: Option<int>)
    ensures InsertCommand(location, line, Some(condition), ignoreCount)
         == InsertPrefix + ("-c " + (condition + (" " + (IgnoreClause(ignoreCount) + LocationClause(location, line)))))
  {
    ConditionAssoc(condition, IgnoreClause(ignoreCount) + LocationClause(location, line));
  }

  lemma ConditionAssoc(condition: string, rest: string)
    ensures ConditionClause(Some(condition)) + rest == "-c " + (condition + (" " + rest))
  {
    assert ConditionClause(Some(condition)) == "-c " + condition + " ";
  }

  /**
    As written, a condition holding a space does not survive: the `-c` argument read back
    is its first word, never the whole condition.
  */
  lemma SpacedConditionGarbles(location: string, line: int, condition: string, ignoreCount: Option<int>)
    requires ' ' in condition
    ensures var d := DecodeInsert(InsertCommand(location, line, Some(condition), ignoreCount));
      d.Some? ==> d.value.condition == Some(condition[..IndexOf(condition, ' ')]) && d.value.condition != Some(condition)
  {
    InsertWithCondition(location, line, condition, ignoreCount);
    DecodedSpaced(InsertCommand(location, line, Some(condition), ignoreCount), condition,
                  IgnoreClause(ignoreCount) + LocationClause(location, line));
    assert |condition[..IndexOf(condition, ' ')]| < |condition|;
  }

  /**
    The condition `i == 3` reaches GDB as the condition `i` followed by the words `==` and
    `3`, which stand in front of the location: the command is refused.
  */
  lemma ExampleSpacedCondition(location: string, line: int)
    ensures DecodeInsert(InsertCommand(location, line, Some("i == 3"), None)) == None
  {
    var rest := LocationClause(location, line);
    var t := "-c " + ("i == 3" + (" " + rest));
    var cmd := InsertCommand(location, line, Some("i == 3"), None);
    assert cmd == InsertPrefix + t by {
      InsertWithCondition(location, line, "i == 3", None);
      assert IgnoreClause(None) + rest == rest;
    }
    PrefixTail(InsertPrefix, t);
    ExampleConditionClause(rest);
    LeftoverWords(location, line);
    DecodeRefused(cmd, Some("i"), "== 3 " + rest, None, "== 3 " + rest);
  }

  lemma PrefixTail(p: string, t: string)
    ensures StartsWith(p + t, p) && (p + t)[|p|..] == t
  {
    assert (p + t)[..|p|] == p;
  }

  /** The `-c` clause of `i == 3` yields `i` and leaves `== 3` in front of the rest. */
  lemma ExampleConditionClause(rest: string)
    ensures Clause("-c " + ("i == 3" + (" " + rest)), "-c ") == Some((Some("i"), "== 3 " + rest))
  {
    var c := "i == 3";
    assert c[0] == 'i' && c[1..][0] == ' ';
    assert IndexOf(c, ' ') == 1;
    assert c[..1] == "i" && c[2..] == "== 3";
    SpacedClause(c, rest);
    assert "== 3" + (" " + rest) == "== 3 " + rest;
  }

  /** The words `== 3` in front of the location are no ignore clause, and leave the location part spaced. */
  lemma LeftoverWords(location: string, line: int)
    ensures DecodeIgnore("== 3 " + LocationClause(location, line)) == Some((None, "== 3 " + LocationClause(location, line)))
    ensures DecodeLocation("== 3 " + LocationClause(location, line)) == None
  {
    var s1 := "== 3 " + LocationClause(location, line);
    assert s1[0] == '=';
    LeftoverLocation(location, line);
  }

  lemma LeftoverLocation(location: string, line: int)
    ensures DecodeLocation("== 3 " + LocationClause(location, line)) == None
  {
    var words := "== 3 " + location;
    assert "== 3 " + LocationClause(location, line) == words + ":" + FormatInt(line);
    assert words[2] == ' ';
    SpacedLocationPart(words, line);
  }

  /** The corrected condition clause: the condition passed as a quoted, escaped C string. */
  function QuotedConditionClause(condition: Option<string>): string {
    match condition
    case Some(c) => "-c \"" + Quoting.Escape(c) + "\" "
    case None => ""
  }

  /** The corrected location argument: `location:line` as a quoted, escaped C string. */
  function QuotedLocationClause(location: string, line: int): string {
    "\"" + Quoting.Escape(LocationClause(location, line)) + "\""
  }

  function CorrectedInsertCommand(location: string, line: int, condition: Option<string>, ignoreCount: Option<int>): string {
    InsertPrefix + (QuotedConditionClause(condition) + (IgnoreClause(ignoreCount) + QuotedLocationClause(location, line)))
  }

  /** Reads an optional `-c "<condition>" ` clause, unquoting the condition as GDB/MI does. */
  function QuotedClause(s: string): Option<(Option<string>, string)> {
    if StartsWith(s, "-c \"") then
      match Quoting.Unquote(s[4..])
      case None => None
      case Some(p) => if StartsWith(p.1, " ") then Some((Some(p.0), p.1[1..])) else None
    else Some((None, s))
  }

  /** Reads the quoted `"location:line"` argument, which must end the command. */
  function QuotedLocation(s: string): Option<(string, int)> {
    if StartsWith(s, "\"") then
      match Quoting.Unquote(s[1..])
      case None => None
      case Some(p) => if p.1 == [] then SplitLocation(p.0) else None
    else None
  }

  function CorrectedDecodeInsert(cmd: string): Option<InsertArgs> {
    if !StartsWith(cmd, InsertPrefix) then None
    else match QuotedClause(cmd[|InsertPrefix|..])
      case None => None
      case Some(c) =>
        match DecodeIgnore(c.1)
        case None => None
        case Some(i) =>
          match QuotedLocation(i.1)
          case None => None
          case Some(l) => Some(InsertArgs(c.0, i.0, l.0, l.1))
  }

  /** The quoted location reads back as exactly the location and line, whatever it holds. */
  lemma QuotedLocationRoundTrip(location: string, line: int)
    ensures QuotedLocation(QuotedLocationClause(location, line)) == Some((location, line))
  {
    var s := QuotedLocationClause(location, line);
    assert s[..1] == "\"" && s[1..] == Quoting.Escape(LocationClause(location, line)) + "\"" + "";
    Quoting.UnquoteEscape(LocationClause(location, line), "");
    SplitLocationRoundTrip(location, line);
  }

  lemma QuotedConditionRoundTrip(condition: Option<string>, rest: string)
    requires !StartsWith(rest, "-c \"")
    ensures QuotedClause(QuotedConditionClause(condition) + rest) == Some((condition, rest))
  {
    match condition {
      case Some(c) =>
        var s := QuotedConditionClause(condition) + rest;
        assert s == "-c \"" + (Quoting.Escape(c) + "\"" + (" " + rest));
        assert s[..4] == "-c \"" && s[4..] == Quoting.Escape(c) + "\"" + (" " + rest);
        Quoting.UnquoteEscape(c, " " + rest);
        assert (" " + rest)[..1] == " " && (" " + rest)[1..] == rest;
      case None =>
        assert QuotedConditionClause(condition) + rest == rest;
    }
  }

  /** With the condition and the location quoted, every breakpoint reads back unchanged, spaces and all. */
  lemma CorrectedInsertRoundTrip(location: string, line: int, condition: Option<string>, ignoreCount: Option<int>)
    ensures CorrectedDecodeInsert(CorrectedInsertCommand(location, line, condition, ignoreCount))
         == Some(InsertArgs(condition, ignoreCount, location, line))
  {
    var tail := QuotedLocationClause(location, line);
    var s1 := IgnoreClause(ignoreCount) + tail;
    var cmd := CorrectedInsertCommand(location, line, condition, ignoreCount);
    assert cmd[..|InsertPrefix|] == InsertPrefix;
    assert cmd[|InsertPrefix|..] == QuotedConditionClause(condition) + s1;
    assert tail[0] == '"';
    if ignoreCount.Some? { assert s1[1] == 'i'; } else { assert s1 == tail; }
    QuotedConditionRoundTrip(condition, s1);
    IgnoreRoundTrip(ignoreCount, tail);
    QuotedLocationRoundTrip(location, line);
  }

  // ---------------------------------------------------------------------------------
  // The breakpoint and the action.

  class Breakpoint {
    const location: string
    const line: int
    const condition: Option<string>
    const ignoreCount: Option<int>
    const enabled: bool
    /** The debugger's number for this breakpoint, once an insert reply has reported it. */
    var index: Option<int>

    constructor (location: string, line: int, condition: Option<string>, ignoreCount: Option<int>, enabled: bool)
      ensures this.location == location && this.line == line && this.condition == condition
      ensures this.ignoreCount == ignoreCount && this.enabled == enabled && index == None
    {
      this.location, this.line, this.condition := location, line, condition;
      this.ignoreCount, this.enabled, this.index := ignoreCount, enabled, None;
    }
  }

  /** The breakpoint number a reply to the insert command reports: only a `^done` with an integer `bkpt.number`. */
  function ReportedNumber(r: Result): Option<int> {
    if r.cls == Done then LookupInt(r.value, "bkpt.number") else None
  }

  class BreakpointAddAction {
    const core: ActionCore
    const breakpoint: Breakpoint
    var initialCmd: Option<CommandId>
    var disableCmd: Option<CommandId>

    constructor (breakpoint: Breakpoint)
      ensures this.breakpoint == breakpoint && fresh(core)
      ensures core.issued == [] && core.refreshes == [] && core.finishes == 0
      ensures initialCmd == None && disableCmd == None
    {
      this.breakpoint := breakpoint;
      core := new ActionCore();
      initialCmd, disableCmd := None, None;
    }

    method OnStart()
      modifies core, this
      ensures core.issued == old(core.issued)
        + [InsertCommand(breakpoint.location, breakpoint.line, breakpoint.condition, breakpoint.ignoreCount)]
      ensures initialCmd == Some(|old(core.issued)|) && disableCmd == old(disableCmd)
      ensures core.finishes == old(core.finishes) && core.refreshes == old(core.refreshes)
    {
      var id := core.Execute(InsertCommand(breakpoint.location, breakpoint.line, breakpoint.condition, breakpoint.ignoreCount));
      initialCmd := Some(id);
    }

    method OnCommandOutput(id: CommandId, r: Result)
      modifies core, breakpoint, this
      ensures initialCmd == old(initialCmd) && core.refreshes == old(core.refreshes)
      ensures old(initialCmd) == Some(id) ==>
        var n := ReportedNumber(r);
        && breakpoint.index == (if n.Some? then n else old(breakpoint.index))
        && if n.Some? && !breakpoint.enabled then
             && core.issued == old(core.issued) + [DisableCommand(n.value)]
             && disableCmd == Some(|old(core.issued)|)
             && core.finishes == old(core.finishes)
           else
             && core.issued == old(core.issued) && disableCmd == old(disableCmd)
             && core.finishes == old(core.finishes) + 1
      ensures old(initialCmd) != Some(id) ==>
        && breakpoint.index == old(breakpoint.index)
        && core.issued == old(core.issued) && disableCmd == old(disableCmd)
        && core.finishes == old(core.finishes) + (if old(disableCmd) == Some(id) then 1 else 0)
    {
      if initialCmd == Some(id) {
        var finish := true;
        if r.cls == Done {
          var number := LookupInt(r.value, "bkpt.number");
          if number.Some? {
            breakpoint.index := number;
            if !breakpoint.enabled {
              var d := core.Execute("-break-disable " + FormatInt(number.value));
              disableCmd := Some(d);
              finish := false;
            }
          }
        }
        // An error reply's `msg` is only logged.
        if finish {
          core.Finish();
        }
      } else if disableCmd == Some(id) {
        core.Finish();
      }
    }
  }

  lemma ExampleCommands()
    ensures InsertCommand("main.cpp", 12, None, None) == "-break-insert -f main.cpp:12"
    ensures DisableCommand(7) == "-break-disable 7"
  {
    assert FormatInt(12) == "12";
    assert FormatInt(7) == "7";
  }

  /** `^done,bkpt={number="7"}` */
  function NumberedReply(): (r: Result)
    ensures ReportedNumber(r) == Some(7)
  {
    var r := Result(Done, Tuple([Member("bkpt", Tuple([Member("number", Simple("7"))]))]));
    NumberedLookup(r.value);
    SevenParses();
    r
  }

  lemma NumberedLookup(v: Value)
    requires v == Tuple([Member("bkpt", Tuple([Member("number", Simple("7"))]))])
    ensures LookupString(v, "bkpt.number") == Some("7")
  {
    var bkpt := Tuple([Member("number", Simple("7"))]);
    assert "bkpt.number" == "bkpt" + "." + "number";
    DottedLookup(v, "bkpt", "number");
    PlainLookup(bkpt, "number");
    assert Field(v, "bkpt") == Some(bkpt);
    assert Field(bkpt, "number") == Some(Simple("7"));
  }

  lemma SevenParses()
    ensures ParseInt("7") == Some(7)
  {
    FormatParse(7);
    assert FormatInt(7) == "7";
  }

  /**
    A `^done` reply numbering the breakpoint 7: the index is set to 7; an enabled
    breakpoint finishes on that reply, a disabled one issues `-break-disable 7` and
    finishes only on its reply.
  */
  method InsertScenario(enabled: bool)
    returns (index: Option<int>, commands: seq<string>, finishesAfterInsert: nat, finishesAfterAll: nat)
    ensures index == Some(7)
    ensures commands == ["-break-insert -f main.cpp:12"] + (if enabled then [] else ["-break-disable 7"])
    ensures finishesAfterInsert == (if enabled then 1 else 0)
    ensures finishesAfterAll == 1
  {
    var bp := new Breakpoint("main.cpp", 12, None, None, enabled);
    var action := new BreakpointAddAction(bp);
    action.OnStart();
    ExampleCommands();
    assert action.core.issued == ["-break-insert -f main.cpp:12"];
    var reply := NumberedReply();
    action.OnCommandOutput(0, reply);
    assert bp.index == Some(7);
    finishesAfterInsert := action.core.finishes;
    if !enabled {
      assert action.disableCmd == Some(1);
      action.OnCommandOutput(1, Result(Done, Tuple([])));
    }
    index, commands, finishesAfterAll := bp.index, action.core.issued, action.core.finishes;
  }
}
