/**
  Listing the threads: `GenerateThreadsList`.

  The action issues `-thread-info` and finishes on its reply, whatever the reply holds.
  It clears the thread list before it looks at the reply; a reply without an integer
  `current-thread-id`, or whose `threads` is missing or not a list, leaves the list empty
  and the threads dialog is not reloaded.  Otherwise every entry of `threads` with an
  integer `id` becomes one row, marked active when its id is the current thread's, with
  a description built from `target-id` and the entry's `frame`; the dialog is then
  reloaded.

  Formatting a frame's argument list is done by a parser that is not part of this model;
  it is a parameter of the action.
*/
module Threads {
  import opened Reply
  import opened Action

  /** One row of the threads dialog. */
  datatype Thread = Thread(active: bool, id: int, info: string)

  const ThreadInfoCommand: string := "-thread-info"

  function AddressPart(frame: Value): string {
    match FieldString(frame, "addr")
    case Some(a) => " " + a
    case None => ""
  }

  function FunctionPart(frame: Value, formatArgs: Value -> Option<string>): string {
    match FieldString(frame, "func")
    case Some(f) =>
      " " + f + (match formatArgs(frame) case Some(a) => "(" + a + ")" case None => "()")
    case None => ""
  }

  /** ` in file:line` when both are present, else ` in <library>` when `from` is. */
  function LocationPart(frame: Value): string {
    match (FieldString(frame, "file"), FieldInt(frame, "line"))
    case (Some(file), Some(line)) => " in " + file + ":" + FormatInt(line)
    case _ =>
      match FieldString(frame, "from")
      case Some(from) => " in " + from
      case None => ""
  }

  /** The description of a thread: its `target-id`, then what its `frame` says. */
  function ThreadInfo(entry: Value, formatArgs: Value -> Option<string>): string {
    var target := FieldString(entry, "target-id").GetOr("");
    match Field(entry, "frame")
    case Some(frame) => target + AddressPart(frame) + FunctionPart(frame, formatArgs) + LocationPart(frame)
    case None => target
  }

  /** The row for one entry of `threads`; an entry without an integer `id` has none. */
  function ThreadOf(entry: Value, current: int, formatArgs: Value -> Option<string>): Option<Thread> {
    match FieldInt(entry, "id")
    case Some(id) => Some(Thread(id == current, id, ThreadInfo(entry, formatArgs)))
    case None => None
  }

  /** The rows for the first `n` entries, in order. */
  function ThreadList(es: seq<Member>, n: nat, current: int, formatArgs: Value -> Option<string>): seq<Thread>
    requires n <= |es|
  {
    if n == 0 then []
    else
      var ts := ThreadList(es, n - 1, current, formatArgs);
      match ThreadOf(es[n - 1].value, current, formatArgs)
      case Some(t) => ts + [t]
      case None => ts
  }

  /** The rows a reply gives, or `None` for a reply the action gives up on. */
  function ThreadsReply(v: Value, formatArgs: Value -> Option<string>): Option<seq<Thread>> {
    match FieldInt(v, "current-thread-id")
    case None => None
    case Some(current) =>
      match Field(v, "threads")
      case Some(Tuple(ms)) => Some(ThreadList(ms, |ms|, current, formatArgs))
      case Some(Array(ms)) => Some(ThreadList(ms, |ms|, current, formatArgs))
      case _ => None
  }

  /** A row carries the entry's integer `id`, is active exactly when that is the current thread, and has the entry's description. */
  lemma ThreadOfRow(entry: Value, current: int, formatArgs: Value -> Option<string>)
    ensures var t := ThreadOf(entry, current, formatArgs);
      && (t.Some? <==> FieldInt(entry, "id").Some?)
      && (t.Some? ==> t.value.id == FieldInt(entry, "id").value && (t.value.active <==> t.value.id == current)
                      && t.value.info == ThreadInfo(entry, formatArgs))
  {
  }

  /** Every row comes from an entry of the list. */
  lemma {:induction false} ThreadsFromEntries(es: seq<Member>, n: nat, current: int, formatArgs: Value -> Option<string>)
    requires n <= |es|
    ensures |ThreadList(es, n, current, formatArgs)| <= n
    ensures forall k :: 0 <= k < |ThreadList(es, n, current, formatArgs)| ==>
      exists j :: 0 <= j < n && ThreadOf(es[j].value, current, formatArgs) == Some(ThreadList(es, n, current, formatArgs)[k])
  {
    if n > 0 {
      ThreadsFromEntries(es, n - 1, current, formatArgs);
      var ts0 := ThreadList(es, n - 1, current, formatArgs);
      match ThreadOf(es[n - 1].value, current, formatArgs) {
        case None =>
        case Some(t) =>
          var ts := ts0 + [t];
          assert ThreadList(es, n, current, formatArgs) == ts;
          assert ts[|ts0|] == t;
          assert forall k :: 0 <= k < |ts0| ==> ts[k] == ts0[k];
      }
    }
  }

  /** Every entry with an integer `id` has its row. */
  lemma {:induction false} ThreadsComplete(es: seq<Member>, n: nat, current: int, formatArgs: Value -> Option<string>)
    requires n <= |es|
    ensures forall j :: 0 <= j < n && ThreadOf(es[j].value, current, formatArgs).Some? ==>
      ThreadOf(es[j].value, current, formatArgs).value in ThreadList(es, n, current, formatArgs)
  {
    if n > 0 {
      ThreadsComplete(es, n - 1, current, formatArgs);
      var ts0 := ThreadList(es, n - 1, current, formatArgs);
      match ThreadOf(es[n - 1].value, current, formatArgs) {
        case None =>
        case Some(t) =>
          assert ThreadList(es, n, current, formatArgs) == ts0 + [t];
      }
    }
  }

  /** A thread without a frame is described by its `target-id` alone, or not at all. */
  lemma FramelessInfo(entry: Value, formatArgs: Value -> Option<string>)
    requires Field(entry, "frame").None?
    ensures ThreadInfo(entry, formatArgs) == FieldString(entry, "target-id").GetOr("")
  {
  }

  /** The description always starts with the thread's `target-id`. */
  lemma InfoStartsWithTarget(entry: Value, formatArgs: Value -> Option<string>)
    ensures FieldString(entry, "target-id").GetOr("") <= ThreadInfo(entry, formatArgs)
  {
    var target := FieldString(entry, "target-id").GetOr("");
    match Field(entry, "frame") {
      case Some(frame) =>
        var info := target + AddressPart(frame) + FunctionPart(frame, formatArgs) + LocationPart(frame);
        assert info == target + (AddressPart(frame) + FunctionPart(frame, formatArgs) + LocationPart(frame));
        assert info[..|target|] == target;
      case None =>
    }
  }

  /** `frame={addr="0x40",func="poll",from="libc.so"}` */
  function ExampleFrame(): Value {
    Tuple([Member("addr", Simple("0x40")), Member("func", Simple("poll")), Member("from", Simple("libc.so"))])
  }

  lemma ExampleAddress()
    ensures AddressPart(ExampleFrame()) == " 0x40"
  {
    FieldAt(ExampleFrame().members, 0, "addr");
  }

  lemma ExampleFunction(formatArgs: Value -> Option<string>)
    requires formatArgs(ExampleFrame()) == None
    ensures FunctionPart(ExampleFrame(), formatArgs) == " poll()"
  {
    var ms := ExampleFrame().members;
    assert ms[0].name != "func";
    FieldAt(ms, 1, "func");
  }

  lemma ExampleLocation()
    ensures LocationPart(ExampleFrame()) == " in libc.so"
  {
    var ms := ExampleFrame().members;
    assert forall m <- ms :: m.name != "file";
    assert Field(ExampleFrame(), "file") == None;
    assert ms[0].name != "from" && ms[1].name != "from";
    FieldAt(ms, 2, "from");
  }

  /** A frame without source is described by its address, function and library. */
  lemma ExampleFrameInfo(formatArgs: Value -> Option<string>)
    requires formatArgs(ExampleFrame()) == None
    ensures AddressPart(ExampleFrame()) + FunctionPart(ExampleFrame(), formatArgs) + LocationPart(ExampleFrame())
         == " 0x40" + " poll()" + " in libc.so"
  {
    ExampleAddress();
    ExampleFunction(formatArgs);
    ExampleLocation();
  }

  class GenerateThreadsList {
    const core: ActionCore
    const formatArgs: Value -> Option<string>
    /** The current thread the action was created with; the rows are marked from the reply's instead. */
    const currentThreadId: int
    var threads: seq<Thread>

    constructor (threads: seq<Thread>, currentThreadId: int, formatArgs: Value -> Option<string>)
      ensures this.threads == threads && this.currentThreadId == currentThreadId && this.formatArgs == formatArgs
      ensures fresh(core) && core.issued == [] && core.refreshes == [] && core.finishes == 0
    {
      core := new ActionCore();
      this.threads, this.currentThreadId, this.formatArgs := threads, currentThreadId, formatArgs;
    }

    method OnStart()
      modifies core
      ensures core.issued == old(core.issued) + [ThreadInfoCommand]
      ensures core.refreshes == old(core.refreshes) && core.finishes == old(core.finishes)
    {
      var _ := core.Execute(ThreadInfoCommand);
    }

    /** Appends the rows for the entries of `es`. */
    method ReadThreads(es: seq<Member>, current: int)
      modifies this
      ensures threads == old(threads) + ThreadList(es, |es|, current, formatArgs)
    {
      ghost var t0 := threads;
      var ii := 0;
      while ii < |es|
        invariant 0 <= ii <= |es|
        invariant threads == t0 + ThreadList(es, ii, current, formatArgs)
      {
        var t := ThreadOf(es[ii].value, current, formatArgs);
        if t.Some? {
          threads := threads + [t.value];
        }
        ii := ii + 1;
      }
    }

    /** Finishes on any reply; the list is cleared first and refilled only from a well-formed reply. */
    method OnCommandOutput(id: CommandId, r: Result)
      modifies this, core
      ensures threads == ThreadsReply(r.value, formatArgs).GetOr([])
      ensures core.refreshes == old(core.refreshes) + (if ThreadsReply(r.value, formatArgs).Some? then [ReloadThreads] else [])
      ensures core.finishes == old(core.finishes) + 1 && core.issued == old(core.issued)
    {
      core.Finish();
      threads := [];
      var current := FieldInt(r.value, "current-thread-id");
      if current.None? {
        return;
      }
      var list := Field(r.value, "threads");
      if list.None? || list.value.Simple? {
        return;
      }
      ReadThreads(list.value.members, current.value);
      core.Notify(ReloadThreads);
    }
  }
}
