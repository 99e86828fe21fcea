/**
  The actions that create, expand and collapse one watch.

  `WatchCreateAction` sends `-var-create` for a new watch and fills the watch in from
  the reply; a watch with children gets a placeholder child, so that it can be expanded
  later.  `WatchExpandedAction` lists the children of a watch the user expanded, with
  the shared list-children machinery.  `WatchCollapseAction` deletes the children of a
  collapsed watch's variable object and puts the placeholder back.
*/
module WatchActions {
  import opened Reply
  import opened Action
  import opened Watches
  import opened WatchList
  import opened Quoting
  import WatchStore

  /** `UpdateWatchesTooltipOrAll`: a tooltip watch refreshes the value tooltip, any other the watches window. */
  function RefreshFor(w: Watch): Refresh {
    if w.forTooltip then UpdateValueTooltip else UpdateWatches
  }

  // ---------------------------------------------------------------------------------
  // Creating a watch.

  /** `m_step`: the create reply is parsed in `StepCreate`; the other steps only react to later replies. */
  datatype Step = StepCreate | StepSetRange | StepListChildren

  const CreatePrefix: string := "-var-create - @ \""

  /** The command that creates the variable object of the watch expression `symbol`; only double quotes are escaped. */
  function CreateCommand(symbol: string): string {
    CreatePrefix + EscapeQuotes(symbol) + "\""
  }

  /**
    GDB reads the create command's argument back as exactly the watch expression, up to
    the end of the command, when the expression holds no backslash.
  */
  lemma CreateCommandQuotes(symbol: string)
    requires '\\' !in symbol
    ensures var c := CreateCommand(symbol);
      |CreatePrefix| <= |c| && c[..|CreatePrefix|] == CreatePrefix && Unquote(c[|CreatePrefix|..]) == Some((symbol, ""))
  {
    var c := CreateCommand(symbol);
    UnquoteEscapeQuotes(symbol, "");
    assert c[|CreatePrefix|..] == EscapeQuotes(symbol) + "\"" + "";
  }

  /** As written, the watch `'\\'` (a backslash character literal) reaches GDB as `'\'`. */
  lemma CreateCommandGarbles()
    ensures var c := CreateCommand("'\\\\'");
      |CreatePrefix| <= |c| && Unquote(c[|CreatePrefix|..]) == Some(("'\\'", ""))
  {
    var c := CreateCommand("'\\\\'");
    EscapeQuotesGarbles();
    assert c[|CreatePrefix|..] == EscapeQuotes("'\\\\'") + "\"";
  }

  /** The create command with backslashes escaped as well. */
  function CorrectedCreateCommand(symbol: string): string {
    CreatePrefix + Escape(symbol) + "\""
  }

  /** GDB reads the corrected command's argument back as exactly the watch expression, whatever it holds. */
  lemma CorrectedCreateCommandQuotes(symbol: string)
    ensures var c := CorrectedCreateCommand(symbol);
      |CreatePrefix| <= |c| && c[..|CreatePrefix|] == CreatePrefix && Unquote(c[|CreatePrefix|..]) == Some((symbol, ""))
  {
    var c := CorrectedCreateCommand(symbol);
    UnquoteEscape(symbol, "");
    assert c[|CreatePrefix|..] == Escape(symbol) + "\"" + "";
  }

  /** Asks GDB to report the first hundred children of a pretty-printed container. */
  function SetRangeCommand(watchId: string): string {
    "-var-set-update-range \"" + watchId + "\" 0 100"
  }

  const CantEvaluate: string := "The expression can't be evaluated"

  /**
    What one reply did to a create action: the new state and step, whether the reply
    counts as an error, and whether the action already finished while handling it.
  */
  datatype CreateOut = CreateOut(st: ListState, step: Step, error: bool, finishedEarly: bool)

  /**
    The create reply (class done, step `StepCreate`): the watch takes the reply's name,
    value and type; a pretty-printed container with more children gets a range command
    and a placeholder, a watch with children a placeholder, any other watch is finished.
  */
  function CreateDone(st: ListState, watch: Handle, value: Value): (o: CreateOut)
    requires StateOk(st) && watch in st.forest.nodes
    ensures StateOk(o.st) && Extends(st.forest, o.st.forest)
    ensures o.st.pending == st.pending && o.st.parents == st.parents && !o.error
  {
    var info := ParseWatchInfo(value);
    var f := Update(st.forest, watch, ParseValueId(st.forest.nodes[watch], value));
    if info.dynamic && info.hasMore then
      var g := AppendNullChild(f, watch);
      ForestGrows(st, g);
      CreateOut(st.(forest := g, issued := st.issued + [SetRangeCommand(f.nodes[watch].id)]), StepSetRange, false, false)
    else if info.childrenCount > 0 then
      ForestGrows(st, AppendNullChild(f, watch));
      CreateOut(st.(forest := AppendNullChild(f, watch)), StepListChildren, false, false)
    else
      ForestGrows(st, f);
      CreateOut(st.(forest := f), StepCreate, false, true)
  }

  /** A done reply, by step: the create reply is parsed, a list reply merged, a range reply ignored. */
  function CreateByStep(st: ListState, watch: Handle, step: Step, id: CommandId, value: Value, start: int, end: int): (o: CreateOut)
    requires StateOk(st) && watch in st.forest.nodes
    ensures StateOk(o.st) && Extends(st.forest, o.st.forest)
  {
    match step
    case StepCreate => CreateDone(st, watch, value)
    case StepListChildren =>
      var p := ParseList(st, id, value, start, end);
      ParseListGrows(st, id, value, start, end);
      CreateOut(p.0, step, !p.1, false)
    case StepSetRange => CreateOut(st, step, false, false)
  }

  /**
    `WatchCreateAction::OnCommandOutput` short of its ending: the reply settles one
    pending command; a done reply is handled by step, anything else is an error, and an
    error reply also says so in the watch's value.
  */
  function CreateOutput(st: ListState, watch: Handle, step: Step, id: CommandId, r: Result, start: int, end: int): (o: CreateOut)
    requires StateOk(st) && watch in st.forest.nodes
    ensures StateOk(o.st) && watch in o.st.forest.nodes
  {
    var st0 := st.(pending := st.pending - 1);
    if r.cls == Done then CreateByStep(st0, watch, step, id, r.value, start, end)
    else
      var f := if r.cls == Error then Update(st0.forest, watch, st0.forest.nodes[watch].(value := CantEvaluate)) else st0.forest;
      ForestGrows(st0, f);
      CreateOut(st0.(forest := f), step, true, false)
  }

  /** The reply ends the action (refresh, then `Finish`): after an error, or once no reply is pending. */
  predicate CreateEnds(o: CreateOut) {
    o.error || o.st.pending == 0
  }

  /**
    The create reply always ends the action: the create command is the only command the
    action waits for and the reply sends no list command, so no list reply is ever parsed;
    a watch without children is finished twice.
  */
  lemma CreateEndsAtFirstReply(st: ListState, watch: Handle, id: CommandId, r: Result, start: int, end: int)
    requires StateOk(st) && watch in st.forest.nodes && st.pending == 1
    ensures var o := CreateOutput(st, watch, StepCreate, id, r, start, end);
      && CreateEnds(o)
      && o.st.parents == st.parents
      && (o.finishedEarly <==> r.cls == Done && o.step == StepCreate)
  {
    if r.cls == Done {
      var o := CreateDone(st.(pending := 0), watch, r.value);
      assert CreateOutput(st, watch, StepCreate, id, r, start, end) == o;
      assert o.st.pending == 0;
    }
  }

  /**
    A done create reply fills the watch in from the reply, and gives it one placeholder
    child exactly when the reply reports children (or more children to come); the range
    command is sent for a pretty-printed container with more children only.
  */
  lemma CreateDoneFillsWatch(st: ListState, watch: Handle, value: Value)
    requires StateOk(st) && watch in st.forest.nodes
    ensures var o := CreateDone(st, watch, value);
      var info := ParseWatchInfo(value);
      var w := o.st.forest.nodes[watch];
      var old_w := st.forest.nodes[watch];
      var placeholder := (info.dynamic && info.hasMore) || info.childrenCount > 0;
      && w.id == FieldString(value, "name").GetOr(old_w.id)
      && w.value == FieldString(value, "value").GetOr(old_w.value)
      && w.typ == FieldString(value, "type").GetOr(old_w.typ)
      && w.children == old_w.children + (if placeholder then [st.forest.next] else [])
      && (placeholder ==> o.st.forest.nodes[st.forest.next] == NewWatch(Placeholder, old_w.forTooltip, true))
      && o.st.issued == st.issued + (if info.dynamic && info.hasMore then [SetRangeCommand(w.id)] else [])
  {
  }

  /** A reply that is not done is an error; an error reply, and only that, replaces the watch's value. */
  lemma CreateFailure(st: ListState, watch: Handle, step: Step, id: CommandId, r: Result, start: int, end: int)
    requires StateOk(st) && watch in st.forest.nodes && r.cls != Done
    ensures var o := CreateOutput(st, watch, step, id, r, start, end);
      && o.error && CreateEnds(o) && o.step == step && o.st.issued == st.issued
      && o.st.forest.nodes[watch].value == (if r.cls == Error then CantEvaluate else st.forest.nodes[watch].value)
      && o.st.forest.nodes[watch].children == st.forest.nodes[watch].children
  {
  }

  class WatchCreateAction {
    const base: WatchBase
    /** `m_watch`: the watch being created. */
    const watch: Handle
    var step: Step

    ghost predicate Valid()
      reads this, base, base.core, base.tree
    {
      base.Valid() && watch in base.tree.nodes
    }

    constructor (core: ActionCore, tree: WatchStore.WatchTree, watch: Handle, rangeStart: int, rangeEnd: int)
      requires tree.Valid() && core.issued == [] && watch in tree.nodes
      ensures Valid() && fresh(base) && base.core == core && base.tree == tree && this.watch == watch
      ensures base.parentMap == map[] && base.pending == 0 && step == StepCreate
    {
      base := new WatchBase(core, tree, rangeStart, rangeEnd);
      this.watch := watch;
      step := StepCreate;
    }

    method OnStart()
      requires Valid()
      modifies base, base.core
      ensures base.pending == 1 && base.parentMap == old(base.parentMap)
      ensures base.core.issued == old(base.core.issued) + [CreateCommand(base.tree.nodes[watch].symbol)]
      ensures base.core.finishes == old(base.core.finishes) && base.core.refreshes == old(base.core.refreshes)
      ensures Valid()
    {
      var _ := base.core.Execute(CreateCommand(base.tree.nodes[watch].symbol));
      base.pending := 1;
    }

    /** The create reply; see `CreateDone`. */
    method HandleCreated(value: Value)
      requires Valid()
      modifies this, base.core, base.tree
      ensures var o := CreateDone(old(base.State()), watch, value);
        base.State() == o.st && step == (if o.step == StepCreate then old(step) else o.step)
      ensures base.core.finishes == old(base.core.finishes) + (if CreateDone(old(base.State()), watch, value).finishedEarly then 1 else 0)
      ensures base.core.refreshes == old(base.core.refreshes)
      ensures Valid()
    {
      var tree := base.tree;
      ghost var st := base.State();
      var info := ParseWatchInfo(value);
      tree.Set(watch, ParseValueId(tree.nodes[watch], value));
      ghost var f := tree.Snapshot();
      assert f == Update(st.forest, watch, ParseValueId(st.forest.nodes[watch], value));
      if info.dynamic && info.hasMore {
        step := StepSetRange;
        var _ := base.core.Execute(SetRangeCommand(tree.nodes[watch].id));
        tree.AppendNullChild(watch);
        assert base.State() == st.(forest := AppendNullChild(f, watch), issued := st.issued + [SetRangeCommand(f.nodes[watch].id)]);
      } else if info.childrenCount > 0 {
        step := StepListChildren;
        tree.AppendNullChild(watch);
        assert base.State() == st.(forest := AppendNullChild(f, watch));
      } else {
        base.core.Finish();
        assert base.State() == st.(forest := f);
      }
    }

    /** A done reply; see `CreateByStep`. */
    method HandleByStep(id: CommandId, value: Value) returns (error: bool)
      requires Valid()
      modifies this, base, base.core, base.tree
      ensures var o := CreateByStep(old(base.State()), watch, old(step), id, value, base.rangeStart, base.rangeEnd);
        && base.State() == o.st && step == o.step && error == o.error
        && base.core.finishes == old(base.core.finishes) + (if o.finishedEarly then 1 else 0)
        && base.core.refreshes == old(base.core.refreshes)
      ensures Valid()
    {
      error := false;
      match step
      case StepCreate =>
        HandleCreated(value);
      case StepListChildren =>
        var ok := base.ParseListCommand(id, value);
        error := !ok;
      case StepSetRange =>
    }

    /** A reply; see `CreateOutput` and `CreateEnds`. */
    method OnCommandOutput(id: CommandId, r: Result)
      requires Valid()
      modifies this, base, base.core, base.tree
      ensures var o := CreateOutput(old(base.State()), watch, old(step), id, r, base.rangeStart, base.rangeEnd);
        && base.State() == o.st && step == o.step
        && base.core.finishes == old(base.core.finishes) + (if o.finishedEarly then 1 else 0) + (if CreateEnds(o) then 1 else 0)
        && base.core.refreshes == old(base.core.refreshes) + (if CreateEnds(o) then [UpdateWatches] else [])
      ensures Valid()
    {
      var error := HandleReply(id, r);
      if error || base.pending == 0 {
        Conclude();
      }
    }

    /** A reply short of the ending; see `CreateOutput`. */
    method HandleReply(id: CommandId, r: Result) returns (error: bool)
      requires Valid()
      modifies this, base, base.core, base.tree
      ensures var o := CreateOutput(old(base.State()), watch, old(step), id, r, base.rangeStart, base.rangeEnd);
        && base.State() == o.st && step == o.step && error == o.error
        && base.core.finishes == old(base.core.finishes) + (if o.finishedEarly then 1 else 0)
        && base.core.refreshes == old(base.core.refreshes)
      ensures Valid()
    {
      ghost var st := base.State();
      ghost var o := CreateOutput(st, watch, step, id, r, base.rangeStart, base.rangeEnd);
      base.pending := base.pending - 1;
      ghost var st0 := base.State();
      assert st0 == st.(pending := st.pending - 1);
      if r.cls == Done {
        assert o == CreateByStep(st0, watch, step, id, r.value, base.rangeStart, base.rangeEnd);
        error := HandleByStep(id, r.value);
      } else {
        Fail(r.cls);
        error := true;
        assert base.State() == o.st;
      }
    }

    /** A reply that is not done; an error reply also marks the watch's value. */
    method Fail(cls: ResultClass)
      requires Valid() && cls != Done
      modifies base.tree
      ensures base.tree.Snapshot() == (if cls == Error then Update(old(base.tree.Snapshot()), watch, old(base.tree.nodes[watch]).(value := CantEvaluate)) else old(base.tree.Snapshot()))
      ensures Valid()
    {
      if cls == Error {
        base.tree.Set(watch, base.tree.nodes[watch].(value := CantEvaluate));
      }
    }

    /** The end of the action: the watches are refreshed, then the action finishes. */
    method Conclude()
      requires Valid()
      modifies base.core
      ensures base.core.issued == old(base.core.issued)
      ensures base.core.refreshes == old(base.core.refreshes) + [UpdateWatches]
      ensures base.core.finishes == old(base.core.finishes) + 1
      ensures Valid()
    {
      base.core.Notify(UpdateWatches);
      base.core.Finish();
    }
  }

  // ---------------------------------------------------------------------------------
  // Expanding a watch.

  /** Asks GDB to refresh one variable object. */
  function VarUpdateCommand(watchId: string): string {
    "-var-update " + watchId
  }

  /**
    A list reply to the expand action, once it no longer counts as pending: it is merged,
    and the second component says whether the action ends (refresh, then `Finish`): when
    the reply failed, or once no reply is pending.
  */
  function ExpandedList(st: ListState, id: CommandId, value: Value, start: int, end: int): (o: (ListState, bool))
    requires StateOk(st)
    ensures StateOk(o.0) && Extends(st.forest, o.0.forest)
  {
    var p := ParseList(st, id, value, start, end);
    ParseListGrows(st, id, value, start, end);
    (p.0, !p.1 || p.0.pending == 0)
  }

  /**
    `WatchExpandedAction::OnCommandOutput`: the reply to the update command is ignored;
    any other reply settles one pending command and is a list reply.
  */
  function ExpandedOutput(st: ListState, updateId: Option<CommandId>, id: CommandId, r: Result, start: int, end: int): (o: (ListState, bool))
    requires StateOk(st)
    ensures StateOk(o.0) && Extends(st.forest, o.0.forest)
  {
    if Some(id) == updateId then (st, false)
    else ExpandedList(st.(pending := st.pending - 1), id, r.value, start, end)
  }

  lemma ExpandedOutputLists(st: ListState, updateId: Option<CommandId>, id: CommandId, r: Result, start: int, end: int)
    requires StateOk(st) && Some(id) != updateId
    ensures StateOk(st.(pending := st.pending - 1))
    ensures ExpandedOutput(st, updateId, id, r, start, end) == ExpandedList(st.(pending := st.pending - 1), id, r.value, start, end)
  {
  }

  /**
    Every reply but the update command's settles one pending command, and every list
    command it causes adds one: the count of pending replies stays the number of list
    commands without a reply.
  */
  lemma ExpandedPending(st: ListState, updateId: Option<CommandId>, id: CommandId, r: Result, start: int, end: int)
    requires StateOk(st) && Some(id) != updateId
    ensures Grew(st.(pending := st.pending - 1), ExpandedOutput(st, updateId, id, r, start, end).0)
  {
    ParseListGrows(st.(pending := st.pending - 1), id, r.value, start, end);
  }

  /** A list reply without children to the command `OnStart` sent ends the action, having changed nothing else. */
  lemma ExpandedEmptyListEnds(st: ListState, updateId: Option<CommandId>, id: CommandId, r: Result, start: int, end: int)
    requires StateOk(st) && st.pending == 1 && Some(id) != updateId && id in st.parents
    requires Field(r.value, "children") == None
    ensures ExpandedOutput(st, updateId, id, r, start, end) == (st.(pending := 0), true)
  {
  }

  class WatchExpandedAction {
    const base: WatchBase
    /** `m_expanded_watch`. */
    const watch: Handle
    /** `m_update_id`: the identifier of the update command, once sent. */
    var updateId: Option<CommandId>

    ghost predicate Valid()
      reads this, base, base.core, base.tree
    {
      base.Valid() && watch in base.tree.nodes
    }

    constructor (core: ActionCore, tree: WatchStore.WatchTree, watch: Handle, rangeStart: int, rangeEnd: int)
      requires tree.Valid() && core.issued == [] && watch in tree.nodes
      ensures Valid() && fresh(base) && base.core == core && base.tree == tree && this.watch == watch
      ensures base.parentMap == map[] && base.pending == 0 && updateId == None
    {
      base := new WatchBase(core, tree, rangeStart, rangeEnd);
      this.watch := watch;
      updateId := None;
    }

    /** Sends the update command, then lists the watch's children under the watch itself. */
    method OnStart()
      requires Valid()
      modifies this, base, base.core
      ensures updateId == Some(|old(base.core.issued)|)
      ensures base.State() == Issue(old(base.State()).(issued := old(base.core.issued) + [VarUpdateCommand(base.tree.nodes[watch].id)]),
                                    base.tree.nodes[watch].id, watch, base.rangeStart, base.rangeEnd)
      ensures base.core.finishes == old(base.core.finishes) && base.core.refreshes == old(base.core.refreshes)
      ensures Valid()
    {
      var id := base.core.Execute(VarUpdateCommand(base.tree.nodes[watch].id));
      updateId := Some(id);
      base.ExecuteListCommand(watch, None);
    }

    /** A reply; see `ExpandedOutput`. */
    method OnCommandOutput(id: CommandId, r: Result)
      requires Valid()
      modifies base, base.core, base.tree
      ensures watch in base.tree.nodes
      ensures base.State() == ExpandedOutput(old(base.State()), updateId, id, r, base.rangeStart, base.rangeEnd).0
      ensures base.core.finishes == old(base.core.finishes)
        + (if ExpandedOutput(old(base.State()), updateId, id, r, base.rangeStart, base.rangeEnd).1 then 1 else 0)
      ensures base.core.refreshes == old(base.core.refreshes)
        + (if ExpandedOutput(old(base.State()), updateId, id, r, base.rangeStart, base.rangeEnd).1
           then [RefreshFor(base.tree.nodes[watch])] else [])
      ensures Valid()
    {
      if Some(id) != updateId {
        var ends := ListReply(id, r);
        if ends {
          Conclude();
        }
      }
    }

    /** A reply that is not the update command's: one reply fewer is pending, then see `ExpandedList`. */
    method ListReply(id: CommandId, r: Result) returns (ends: bool)
      requires Valid() && Some(id) != updateId
      modifies base, base.core, base.tree
      ensures (base.State(), ends) == ExpandedOutput(old(base.State()), updateId, id, r, base.rangeStart, base.rangeEnd)
      ensures base.core.finishes == old(base.core.finishes) && base.core.refreshes == old(base.core.refreshes)
      ensures Valid()
    {
      ghost var st := base.State();
      ExpandedOutputLists(st, updateId, id, r, base.rangeStart, base.rangeEnd);
      base.pending := base.pending - 1;
      assert base.State() == st.(pending := st.pending - 1);
      var ok := base.ParseListCommand(id, r.value);
      ends := !ok || base.pending == 0;
    }

    /** The end of the action: the watch is refreshed, then the action finishes. */
    method Conclude()
      requires Valid()
      modifies base.core
      ensures base.core.issued == old(base.core.issued)
      ensures base.core.refreshes == old(base.core.refreshes) + [RefreshFor(base.tree.nodes[watch])]
      ensures base.core.finishes == old(base.core.finishes) + 1
      ensures Valid()
    {
      base.core.Notify(RefreshFor(base.tree.nodes[watch]));
      base.core.Finish();
    }
  }

  // ---------------------------------------------------------------------------------
  // Collapsing a watch.

  /** Asks GDB to delete the children of a variable object, keeping the object itself. */
  function DeleteChildrenCommand(watchId: string): string {
    "-var-delete -c " + watchId
  }

  /** A collapsed watch: not expanded before, no children but a placeholder. */
  function Collapse(f: Forest, h: Handle): (r: Forest)
    requires Watches.Valid(f) && h in f.nodes
    ensures Watches.Valid(r) && Extends(f, r)
  {
    var g := Update(f, h, f.nodes[h].(hasBeenExpanded := false));
    AppendNullChild(RemoveChildren(g, h), h)
  }

  /** After a collapse the watch has exactly one child, a fresh placeholder, and counts as never expanded. */
  lemma CollapseLeavesPlaceholder(f: Forest, h: Handle)
    requires Watches.Valid(f) && h in f.nodes
    ensures var r := Collapse(f, h);
      && r.nodes[h] == f.nodes[h].(hasBeenExpanded := false, children := [f.next])
      && r.nodes[f.next] == NewWatch(Placeholder, f.nodes[h].forTooltip, true)
      && forall k :: k in f.nodes && k != h ==> r.nodes[k] == f.nodes[k]
  {
  }

  /** Expanding a collapsed watch again drops the placeholder, so that the listed children replace it. */
  lemma ExpandAfterCollapse(f: Forest, h: Handle)
    requires Watches.Valid(f) && h in f.nodes
    ensures var r := ExpandOnce(Collapse(f, h), h);
      r.nodes[h].children == [] && r.nodes[h].hasBeenExpanded
  {
    CollapseLeavesPlaceholder(f, h);
  }

  class WatchCollapseAction {
    const core: ActionCore
    const tree: WatchStore.WatchTree
    /** `m_collapsed_watch`. */
    const watch: Handle

    ghost predicate Valid()
      reads this, tree
    {
      tree.Valid() && watch in tree.nodes
    }

    constructor (core: ActionCore, tree: WatchStore.WatchTree, watch: Handle)
      requires tree.Valid() && watch in tree.nodes
      ensures Valid() && this.core == core && this.tree == tree && this.watch == watch
    {
      this.core := core;
      this.tree := tree;
      this.watch := watch;
    }

    method OnStart()
      requires Valid()
      modifies core
      ensures core.issued == old(core.issued) + [DeleteChildrenCommand(tree.nodes[watch].id)]
      ensures core.finishes == old(core.finishes) && core.refreshes == old(core.refreshes)
    {
      var _ := core.Execute(DeleteChildrenCommand(tree.nodes[watch].id));
    }

    /** A done reply collapses the watch and refreshes its view; any reply finishes the action. */
    method OnCommandOutput(id: CommandId, r: Result)
      requires Valid()
      modifies core, tree
      ensures tree.Snapshot() == if r.cls == Done then Collapse(old(tree.Snapshot()), watch) else old(tree.Snapshot())
      ensures core.refreshes == old(core.refreshes) + (if r.cls == Done then [RefreshFor(tree.nodes[watch])] else [])
      ensures core.finishes == old(core.finishes) + 1 && core.issued == old(core.issued)
      ensures Valid()
    {
      if r.cls == Done {
        tree.Set(watch, tree.nodes[watch].(hasBeenExpanded := false));
        tree.RemoveChildren(watch);
        tree.AppendNullChild(watch);
        core.Notify(RefreshFor(tree.nodes[watch]));
      }
      core.Finish();
    }
  }
}
