/**
  Building the backtrace: `GenerateBacktrace`.

  The action issues three commands at once: `-stack-info-frame` (which frame is active),
  `-stack-list-frames 0 30` (the frames) and `-stack-list-arguments 1 0 30` (their
  arguments).  The replies may arrive in any order.  Each one is folded into the action's
  state; once all three have arrived the action selects a frame (the one the user picked,
  else with auto-switching the first frame that has source, else the innermost),
  switches the debugger to it when it is not the active one, reloads the backtrace dialog
  and finishes.

  Reading one entry of `stack` into a `Frame`, and reading the arguments reply, are done
  by parsers that are not part of this model; they are parameters of the action.
*/
module Backtrace {
  import opened Reply
  import opened Action

  /** What the frame parser reads from one entry of the `stack` list. */
  datatype Frame = Frame(func: string, filename: string, line: int, from: string, address: string, validSource: bool)

  /** One row of the backtrace dialog; `number` is the position of the entry in the reply. */
  datatype StackFrame = StackFrame(file: string, line: string, symbol: string, number: int, address: string, valid: bool)

  const FrameInfoCommand: string := "-stack-info-frame"
  const ListFramesCommand: string := "-stack-list-frames 0 30"
  const ListArgumentsCommand: string := "-stack-list-arguments 1 0 30"

  /** A frame with source shows `file:line`; one without shows the library it is from. */
  function ToStackFrame(f: Frame, number: int): StackFrame {
    if f.validSource then StackFrame(f.filename, FormatInt(f.line), f.func, number, f.address, true)
    else StackFrame(f.from, "", f.func, number, f.address, false)
  }

  // ---------------------------------------------------------------------------------
  // The `stack` reply.

  /** The rows for the first `n` entries of `stack`: one per entry the parser accepts, in order. */
  function Frames(es: seq<Member>, n: nat, parse: Value -> Option<Frame>): seq<StackFrame>
    requires n <= |es|
  {
    if n == 0 then []
    else
      var fs := Frames(es, n - 1, parse);
      match parse(es[n - 1].value)
      case None => fs
      case Some(f) => fs + [ToStackFrame(f, n - 1)]
  }

  /**
    The position of the first row with source, or -1 when there is none: the index the
    corrected selection uses (the action as written records the entry's position instead,
    see `FirstValidIndex`).
  */
  function IndexOfFirstValid(fs: seq<StackFrame>): (r: int)
    ensures -1 <= r < |fs|
    ensures r >= 0 ==> fs[r].valid
    ensures forall j :: 0 <= j < |fs| && (r == -1 || j < r) ==> !fs[j].valid
  {
    if fs == [] then -1
    else
      var k := IndexOfFirstValid(fs[..|fs| - 1]);
      if k != -1 then k
      else if fs[|fs| - 1].valid then |fs| - 1
      else -1
  }

  /** Every row comes from an entry the parser accepted, and is numbered by that entry's position. */
  lemma {:induction false} FramesFromEntries(es: seq<Member>, n: nat, parse: Value -> Option<Frame>)
    requires n <= |es|
    ensures forall k :: 0 <= k < |Frames(es, n, parse)| ==>
      var s := Frames(es, n, parse)[k];
      0 <= s.number < n && parse(es[s.number].value).Some? && s == ToStackFrame(parse(es[s.number].value).value, s.number)
  {
    if n > 0 {
      FramesFromEntries(es, n - 1, parse);
      var fs0 := Frames(es, n - 1, parse);
      var fs := Frames(es, n, parse);
      match parse(es[n - 1].value) {
        case None =>
          assert fs == fs0;
        case Some(f) =>
          assert fs == fs0 + [ToStackFrame(f, n - 1)];
          forall k | 0 <= k < |fs|
            ensures 0 <= fs[k].number < n && parse(es[fs[k].number].value).Some?
            ensures fs[k] == ToStackFrame(parse(es[fs[k].number].value).value, fs[k].number)
          {
            if k < |fs0| {
              assert fs[k] == fs0[k];
            } else {
              assert fs[k] == ToStackFrame(f, n - 1);
            }
          }
      }
    }
  }

  /** Rows keep the order of the entries they come from. */
  lemma {:induction false} FramesOrdered(es: seq<Member>, n: nat, parse: Value -> Option<Frame>)
    requires n <= |es|
    ensures forall k :: 0 <= k < |Frames(es, n, parse)| ==> Frames(es, n, parse)[k].number < n
    ensures forall k, l :: 0 <= k < l < |Frames(es, n, parse)| ==> Frames(es, n, parse)[k].number < Frames(es, n, parse)[l].number
  {
    if n > 0 {
      FramesOrdered(es, n - 1, parse);
      var fs0 := Frames(es, n - 1, parse);
      var fs := Frames(es, n, parse);
      match parse(es[n - 1].value) {
        case None =>
          assert fs == fs0;
        case Some(f) =>
          assert fs == fs0 + [ToStackFrame(f, n - 1)];
          assert forall k :: 0 <= k < |fs0| ==> fs[k] == fs0[k];
          assert fs[|fs0|].number == n - 1;
      }
    }
  }

  /** Every entry the parser accepts has its row. */
  lemma {:induction false} FramesComplete(es: seq<Member>, n: nat, parse: Value -> Option<Frame>)
    requires n <= |es|
    ensures forall j :: 0 <= j < n && parse(es[j].value).Some? ==>
      exists k :: 0 <= k < |Frames(es, n, parse)| && Frames(es, n, parse)[k].number == j
  {
    if n > 0 {
      FramesComplete(es, n - 1, parse);
      var fs0 := Frames(es, n - 1, parse);
      match parse(es[n - 1].value) {
        case None =>
          assert Frames(es, n, parse) == fs0;
        case Some(f) =>
          var fs := fs0 + [ToStackFrame(f, n - 1)];
          assert Frames(es, n, parse) == fs;
          forall j | 0 <= j < n && parse(es[j].value).Some?
            ensures exists k :: 0 <= k < |fs| && fs[k].number == j
          {
            if j == n - 1 {
              assert fs[|fs0|].number == j;
            } else {
              var k :| 0 <= k < |fs0| && fs0[k].number == j;
              assert fs[k] == fs0[k];
            }
          }
      }
    }
  }

  /**
    The first row with source, kept from an earlier reply if one was found then.  The
    stored index is a position in the backtrace (see `FirstValidIndex` for the index the
    action records as written).
  */
  function FirstValid(fs: seq<StackFrame>, firstValid: int): int {
    if firstValid != -1 then firstValid else IndexOfFirstValid(fs)
  }

  /** A reply to the frames command: the new rows and first row with source; no `stack` leaves both. */
  function StackReply(backtrace: seq<StackFrame>, firstValid: int, v: Value, parse: Value -> Option<Frame>)
    : (seq<StackFrame>, int)
  {
    match Field(v, "stack")
    case None => (backtrace, firstValid)
    case Some(stack) =>
      var fs := Frames(Entries(stack), |Entries(stack)|, parse);
      (fs, FirstValid(fs, firstValid))
  }

  // ---------------------------------------------------------------------------------
  // The arguments reply.

  function Annotate(s: StackFrame, args: Option<string>): StackFrame {
    match args
    case None => s
    case Some(a) => s.(symbol := s.symbol + "(" + a + ")")
  }

  /**
    A reply the arguments parser accepts, with one entry per row, appends `(args)` to the
    symbol of every row whose arguments it could read; any other reply changes nothing.
    Only symbols change, and only by growing.
  */
  function WithArguments(fs: seq<StackFrame>, args: Option<seq<Option<string>>>): (r: seq<StackFrame>)
    ensures |r| == |fs|
    ensures forall i :: 0 <= i < |fs| ==> r[i] == fs[i].(symbol := r[i].symbol) && fs[i].symbol <= r[i].symbol
    ensures (args.None? || |args.value| != |fs|) ==> r == fs
  {
    if args.None? || |args.value| != |fs| then fs
    else seq(|fs|, i requires 0 <= i < |fs| => Annotate(fs[i], args.value[i]))
  }

  // ---------------------------------------------------------------------------------
  // The frame-info reply.

  /** The active frame: `frame.level` of a `^done` reply; 0 for any other reply or a missing level. */
  function ActiveFrame(r: Result): int {
    if r.cls != Done then 0 else LookupInt(r.value, "frame.level").GetOr(0)
  }

  // ---------------------------------------------------------------------------------
  // Waiting for the three replies.

  datatype Part = StackPart | ArgumentsPart | FrameInfoPart

  datatype Progress = Progress(stack: bool, arguments: bool, frameInfo: bool) {
    predicate Complete() {
      stack && arguments && frameInfo
    }
  }

  function Arrive(p: Progress, part: Part): Progress {
    match part
    case StackPart => p.(stack := true)
    case ArgumentsPart => p.(arguments := true)
    case FrameInfoPart => p.(frameInfo := true)
  }

  function ArriveAll(parts: seq<Part>): Progress {
    if parts == [] then Progress(false, false, false)
    else Arrive(ArriveAll(parts[..|parts| - 1]), parts[|parts| - 1])
  }

  lemma {:induction false} ArriveAllRecords(parts: seq<Part>)
    ensures ArriveAll(parts).stack <==> StackPart in parts
    ensures ArriveAll(parts).arguments <==> ArgumentsPart in parts
    ensures ArriveAll(parts).frameInfo <==> FrameInfoPart in parts
  {
    if parts != [] {
      var init := parts[..|parts| - 1];
      ArriveAllRecords(init);
      assert parts == init + [parts[|parts| - 1]];
    }
  }

  /** Whatever order the replies come in, the action concludes exactly when all three have come. */
  lemma CompleteWhenAllArrived(parts: seq<Part>)
    ensures ArriveAll(parts).Complete() <==> StackPart in parts && ArgumentsPart in parts && FrameInfoPart in parts
  {
    ArriveAllRecords(parts);
  }

  // ---------------------------------------------------------------------------------
  // Selecting the frame.

  /** The selection as written: the user's frame, else (auto-switching) the first valid, else 0. */
  function ChooseFrameAsWritten(userSelected: int, autoSwitch: bool, firstValid: int): int {
    var frame := if userSelected < 0 && autoSwitch then firstValid else userSelected;
    if frame < 0 then 0 else frame
  }

  /** The index the action records as the first valid frame, as written: the entry's position in the reply. */
  function FirstValidIndex(es: seq<Member>, n: nat, parse: Value -> Option<Frame>, firstValid: int): int
    requires n <= |es|
  {
    if n == 0 then firstValid
    else
      var fv := FirstValidIndex(es, n - 1, parse, firstValid);
      match parse(es[n - 1].value)
      case Some(f) => if f.validSource && fv == -1 then n - 1 else fv
      case None => fv
  }

  /**
    As written the chosen index can lie past the end of the backtrace, which the action
    then indexes: a user selection deeper than the new stack, or a first valid frame
    counted over an entry the frame parser refused.
  */
  lemma SelectionOutOfRange()
    ensures ChooseFrameAsWritten(2, false, -1) == 2
    ensures var es := [Member("frame", Simple("?")), Member("frame", Simple("main"))];
      var parse := (v: Value) => if v == Simple("main") then Some(Frame("main", "main.cpp", 3, "", "0x1", true)) else None;
      && |Frames(es, 2, parse)| == 1
      && FirstValidIndex(es, 2, parse, -1) == 1
      && ChooseFrameAsWritten(-1, true, FirstValidIndex(es, 2, parse, -1)) == 1
  {
    var es := [Member("frame", Simple("?")), Member("frame", Simple("main"))];
    var parse := (v: Value) => if v == Simple("main") then Some(Frame("main", "main.cpp", 3, "", "0x1", true)) else None;
    assert parse(es[0].value) == None;
    assert parse(es[1].value).Some?;
    assert Frames(es, 1, parse) == [];
    assert FirstValidIndex(es, 1, parse, -1) == -1;
  }

  /**
    The selection corrected: the user's frame when it is a row of the backtrace, else
    (auto-switching) the first valid row when there is one, else the innermost row.
  */
  function SelectFrame(size: nat, userSelected: int, autoSwitch: bool, firstValid: int): (r: int)
    requires size > 0
    ensures 0 <= r < size
    ensures 0 <= userSelected < size ==> r == userSelected
  {
    if 0 <= userSelected < size then userSelected
    else if userSelected < 0 && autoSwitch && 0 <= firstValid < size then firstValid
    else 0
  }

  /** The rows of the first `n` entries are fewer than `n` exactly when the parser refused one of them. */
  lemma {:induction false} FramesCount(es: seq<Member>, n: nat, parse: Value -> Option<Frame>)
    requires n <= |es|
    ensures |Frames(es, n, parse)| <= n
    ensures |Frames(es, n, parse)| == n <==> forall j :: 0 <= j < n ==> parse(es[j].value).Some?
  {
    if n > 0 {
      FramesCount(es, n - 1, parse);
      if parse(es[n - 1].value).None? {
        assert !(forall j :: 0 <= j < n ==> parse(es[j].value).Some?) by {
          assert parse(es[n - 1].value).None?;
        }
      }
    }
  }

  /**
    The entry position recorded as written, against the row position: no first valid
    entry means no first valid row, and otherwise the row position counts the accepted
    entries before the entry.
  */
  lemma {:induction false} FirstValidRows(es: seq<Member>, n: nat, parse: Value -> Option<Frame>)
    requires n <= |es|
    ensures var p := FirstValidIndex(es, n, parse, -1);
      && -1 <= p < n
      && (p == -1 ==> IndexOfFirstValid(Frames(es, n, parse)) == -1)
      && (p >= 0 ==> IndexOfFirstValid(Frames(es, n, parse)) == |Frames(es, p, parse)|)
  {
    if n > 0 {
      FirstValidRows(es, n - 1, parse);
      var fs0 := Frames(es, n - 1, parse);
      match parse(es[n - 1].value) {
        case None =>
        case Some(f) =>
          var s := ToStackFrame(f, n - 1);
          assert Frames(es, n, parse) == fs0 + [s];
          assert (fs0 + [s])[..|fs0|] == fs0;
      }
    }
  }

  /** The frame parser accepted every entry before position `p`. */
  predicate NoneRefusedBefore(es: seq<Member>, parse: Value -> Option<Frame>, p: int) {
    forall j :: 0 <= j < p && j < |es| ==> parse(es[j].value).Some?
  }

  /**
    The selection as written, over the entry position of line 134, and the corrected one,
    over the row position: the two positions agree exactly when the parser refused no
    entry before the first valid one.  Then a selection as written that stays inside the
    backtrace is the corrected one; with auto-switching and no user frame the two
    selections agree exactly then.
  */
  lemma SelectFrameAgrees(es: seq<Member>, parse: Value -> Option<Frame>, userSelected: int, autoSwitch: bool)
    requires Frames(es, |es|, parse) != []
    ensures var fs := Frames(es, |es|, parse);
      var p := FirstValidIndex(es, |es|, parse, -1);
      (p == IndexOfFirstValid(fs) <==> NoneRefusedBefore(es, parse, p))
    ensures var fs := Frames(es, |es|, parse);
      var p := FirstValidIndex(es, |es|, parse, -1);
      var w := ChooseFrameAsWritten(userSelected, autoSwitch, p);
      NoneRefusedBefore(es, parse, p) && 0 <= w < |fs| ==>
        SelectFrame(|fs|, userSelected, autoSwitch, FirstValid(fs, -1)) == w
    ensures var fs := Frames(es, |es|, parse);
      var p := FirstValidIndex(es, |es|, parse, -1);
      userSelected < 0 && autoSwitch ==>
        (SelectFrame(|fs|, userSelected, autoSwitch, FirstValid(fs, -1)) == ChooseFrameAsWritten(userSelected, autoSwitch, p)
         <==> NoneRefusedBefore(es, parse, p))
  {
    var p := FirstValidIndex(es, |es|, parse, -1);
    FirstValidRows(es, |es|, parse);
    if p >= 0 {
      FramesCount(es, p, parse);
    }
  }

  /** With auto-switching and no user selection, the selected row is the first one with source, when there is one. */
  lemma {:induction false} AutoSwitchSelectsFirstValid(es: seq<Member>, parse: Value -> Option<Frame>)
    requires Frames(es, |es|, parse) != []
    ensures var fs := Frames(es, |es|, parse);
      var k := SelectFrame(|fs|, -1, true, FirstValid(fs, -1));
      && (fs[k].valid <==> exists j :: 0 <= j < |fs| && fs[j].valid)
      && (forall j :: 0 <= j < k ==> !fs[j].valid)
  {
    var fs := Frames(es, |es|, parse);
    var k := SelectFrame(|fs|, -1, true, FirstValid(fs, -1));
    assert IndexOfFirstValid(fs) == -1 ==> k == 0;
  }

  /** The frame switched to after the selection: the selected row's number, unless it is already active. */
  function SwitchTo(backtrace: seq<StackFrame>, frame: int, active: int): seq<int>
    requires 0 <= frame < |backtrace|
  {
    var number := backtrace[frame].number;
    if active != number then [number] else []
  }

  // ---------------------------------------------------------------------------------
  // The action.

  class GenerateBacktrace {
    const core: ActionCore
    const parseFrame: Value -> Option<Frame>
    const parseArgs: Value -> Option<seq<Option<string>>>
    /** The frame the user picked in the backtrace dialog, negative for none. */
    const userSelected: int
    /** The auto-switch-frame setting. */
    const autoSwitch: bool

    var backtrace: seq<StackFrame>
    var firstValid: int
    var oldActiveFrame: int
    var progress: Progress
    var frameInfoId: Option<CommandId>
    var backtraceId: Option<CommandId>
    var argsId: Option<CommandId>
    /** The frame last handed to the current-frame holder. */
    var currentFrame: Option<int>
    /** Every frame number the debugger was asked to switch to, in order. */
    var switches: seq<int>

    constructor (backtrace: seq<StackFrame>, parseFrame: Value -> Option<Frame>,
                 parseArgs: Value -> Option<seq<Option<string>>>, userSelected: int, autoSwitch: bool)
      ensures this.backtrace == backtrace && this.parseFrame == parseFrame && this.parseArgs == parseArgs
      ensures this.userSelected == userSelected && this.autoSwitch == autoSwitch
      ensures firstValid == -1 && oldActiveFrame == -1 && progress == Progress(false, false, false)
      ensures frameInfoId == None && backtraceId == None && argsId == None
      ensures currentFrame == None && switches == []
      ensures fresh(core) && core.issued == [] && core.refreshes == [] && core.finishes == 0
    {
      core := new ActionCore();
      this.backtrace, this.parseFrame, this.parseArgs := backtrace, parseFrame, parseArgs;
      this.userSelected, this.autoSwitch := userSelected, autoSwitch;
      firstValid, oldActiveFrame := -1, -1;
      progress := Progress(false, false, false);
      frameInfoId, backtraceId, argsId := None, None, None;
      currentFrame, switches := None, [];
    }

    method OnStart()
      modifies this, core
      ensures core.issued == old(core.issued) + [FrameInfoCommand, ListFramesCommand, ListArgumentsCommand]
      ensures frameInfoId == Some(|old(core.issued)|) && backtraceId == Some(|old(core.issued)| + 1)
      ensures argsId == Some(|old(core.issued)| + 2)
      ensures core.refreshes == old(core.refreshes) && core.finishes == old(core.finishes)
      ensures backtrace == old(backtrace) && firstValid == old(firstValid) && oldActiveFrame == old(oldActiveFrame)
      ensures progress == old(progress) && currentFrame == old(currentFrame) && switches == old(switches)
    {
      var id := core.Execute(FrameInfoCommand);
      frameInfoId := Some(id);
      id := core.Execute(ListFramesCommand);
      backtraceId := Some(id);
      id := core.Execute(ListArgumentsCommand);
      argsId := Some(id);
    }

    /** Which of the three replies `id` is; the checks run in the order of the source. */
    function PartOf(id: CommandId): Option<Part>
      reads this
    {
      if Some(id) == backtraceId then Some(StackPart)
      else if Some(id) == argsId then Some(ArgumentsPart)
      else if Some(id) == frameInfoId then Some(FrameInfoPart)
      else None
    }

    /** Replaces the rows with the entries of `stack` the frame parser accepts. */
    method ReadStack(stack: Value)
      modifies this
      ensures backtrace == Frames(Entries(stack), |Entries(stack)|, parseFrame)
      ensures firstValid == FirstValid(backtrace, old(firstValid))
      ensures oldActiveFrame == old(oldActiveFrame) && progress == old(progress)
      ensures frameInfoId == old(frameInfoId) && backtraceId == old(backtraceId) && argsId == old(argsId)
      ensures currentFrame == old(currentFrame) && switches == old(switches)
    {
      var es := Entries(stack);
      ghost var fv0 := firstValid;
      backtrace := [];
      var ii := 0;
      while ii < |es|
        invariant 0 <= ii <= |es|
        invariant backtrace == Frames(es, ii, parseFrame)
        invariant firstValid == FirstValid(backtrace, fv0)
        invariant oldActiveFrame == old(oldActiveFrame) && progress == old(progress)
        invariant frameInfoId == old(frameInfoId) && backtraceId == old(backtraceId) && argsId == old(argsId)
        invariant currentFrame == old(currentFrame) && switches == old(switches)
      {
        match parseFrame(es[ii].value) {
          case Some(f) =>
            var s := ToStackFrame(f, ii);
            if s.valid && firstValid == -1 {
              firstValid := |backtrace|;
            }
            assert (backtrace + [s])[..|backtrace|] == backtrace;
            backtrace := backtrace + [s];
          case None =>
        }
        ii := ii + 1;
      }
    }

    /** Appends the argument lists to the rows' symbols. */
    method ReadArguments(v: Value)
      modifies this
      ensures backtrace == WithArguments(old(backtrace), parseArgs(v))
      ensures firstValid == old(firstValid) && oldActiveFrame == old(oldActiveFrame) && progress == old(progress)
      ensures frameInfoId == old(frameInfoId) && backtraceId == old(backtraceId) && argsId == old(argsId)
      ensures currentFrame == old(currentFrame) && switches == old(switches)
    {
      var args := parseArgs(v);
      if args.Some? && |args.value| == |backtrace| {
        ghost var b0 := backtrace;
        var ii := 0;
        while ii < |args.value|
          invariant 0 <= ii <= |b0| && |backtrace| == |b0|
          invariant forall k :: 0 <= k < ii ==> backtrace[k] == Annotate(b0[k], args.value[k])
          invariant forall k :: ii <= k < |b0| ==> backtrace[k] == b0[k]
          invariant firstValid == old(firstValid) && oldActiveFrame == old(oldActiveFrame) && progress == old(progress)
          invariant frameInfoId == old(frameInfoId) && backtraceId == old(backtraceId) && argsId == old(argsId)
          invariant currentFrame == old(currentFrame) && switches == old(switches)
        {
          match args.value[ii] {
            case Some(a) =>
              backtrace := backtrace[ii := backtrace[ii].(symbol := backtrace[ii].symbol + "(" + a + ")")];
            case None =>
          }
          ii := ii + 1;
        }
      }
    }

    /** Selects the frame, switches to it if it is not active, reloads the dialog and finishes. */
    method Conclude()
      modifies this, core
      ensures backtrace != [] ==>
        var frame := SelectFrame(|backtrace|, userSelected, autoSwitch, firstValid);
        currentFrame == Some(frame) && switches == old(switches) + SwitchTo(backtrace, frame, oldActiveFrame)
      ensures backtrace == [] ==> currentFrame == old(currentFrame) && switches == old(switches)
      ensures core.refreshes == old(core.refreshes) + [ReloadBacktrace]
      ensures core.finishes == old(core.finishes) + 1 && core.issued == old(core.issued)
      ensures backtrace == old(backtrace) && firstValid == old(firstValid) && oldActiveFrame == old(oldActiveFrame)
      ensures progress == old(progress)
      ensures frameInfoId == old(frameInfoId) && backtraceId == old(backtraceId) && argsId == old(argsId)
    {
      if backtrace != [] {
        var frame := SelectFrame(|backtrace|, userSelected, autoSwitch, firstValid);
        currentFrame := Some(frame);
        var number := backtrace[frame].number;
        if oldActiveFrame != number {
          switches := switches + [number];
        }
      }
      core.Notify(ReloadBacktrace);
      core.Finish();
    }

    method OnCommandOutput(id: CommandId, r: Result)
      modifies this, core
      ensures frameInfoId == old(frameInfoId) && backtraceId == old(backtraceId) && argsId == old(argsId)
      ensures progress == (match old(PartOf(id)) case None => old(progress) case Some(p) => Arrive(old(progress), p))
      ensures (backtrace, firstValid) ==
        (if old(PartOf(id)) == Some(StackPart) then StackReply(old(backtrace), old(firstValid), r.value, parseFrame)
         else if old(PartOf(id)) == Some(ArgumentsPart) then (WithArguments(old(backtrace), parseArgs(r.value)), old(firstValid))
         else (old(backtrace), old(firstValid)))
      ensures oldActiveFrame == (if old(PartOf(id)) == Some(FrameInfoPart) then ActiveFrame(r) else old(oldActiveFrame))
      ensures progress.Complete() && backtrace != [] ==>
        var frame := SelectFrame(|backtrace|, userSelected, autoSwitch, firstValid);
        currentFrame == Some(frame) && switches == old(switches) + SwitchTo(backtrace, frame, oldActiveFrame)
      ensures !progress.Complete() || backtrace == [] ==> currentFrame == old(currentFrame) && switches == old(switches)
      ensures core.issued == old(core.issued)
      ensures core.refreshes == old(core.refreshes) + (if progress.Complete() then [ReloadBacktrace] else [])
      ensures core.finishes == old(core.finishes) + (if progress.Complete() then 1 else 0)
    {
      var part := PartOf(id);
      match part {
        case Some(StackPart) =>
          var stack := Field(r.value, "stack");
          if stack.Some? {
            ReadStack(stack.value);
          }
          progress := progress.(stack := true);
        case Some(ArgumentsPart) =>
          ReadArguments(r.value);
          progress := progress.(arguments := true);
        case Some(FrameInfoPart) =>
          progress := progress.(frameInfo := true);
          oldActiveFrame := ActiveFrame(r);
        case None =>
      }
      if progress.Complete() {
        Conclude();
      }
    }
  }
}
