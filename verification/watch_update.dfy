/**
  Refreshing every watch after the debuggee stopped (`WatchesUpdateAction`).

  The action sends `-var-update 1 *`.  When its reply arrives, every watch loses its
  "changed" mark; then each entry of the reply's `changelist` that names a live watch is
  applied to that watch: it went out of scope, became invalid, got a new value, or its
  children changed, in which case they are listed again with the shared list-children
  machinery.  The action finishes once no reply is pending any more, or at the first
  error.
*/
module WatchUpdate {
  import opened Reply
  import opened Action
  import opened Watches
  import opened WatchList
  import WatchStore

  datatype InScope = InScopeYes | InScopeNo | InScopeInvalid

  /**
    One change-list entry as `UpdatedVariable::Parse` reads it.  That parser is not part
    of this model; the action receives it as a function.
  */
  datatype UpdatedVariable = UpdatedVariable(
    inScope: InScope,
    dynamic: bool,
    newNumChildren: Option<int>,
    hasMore: bool,
    value: Option<string>)

  const NotInScopeText: string := "-- not in scope --"
  const InvalidText: string := "-- invalid -- "

  /** Out of scope or invalid: collapsed, childless, with `text` as its value. */
  function OutOfScope(f: Forest, h: Handle, text: string): (r: Forest)
    requires Watches.Valid(f) && h in f.nodes
    ensures Watches.Valid(r) && Extends(f, r)
    ensures r.nodes.Keys == f.nodes.Keys && r.nodes[h] == f.nodes[h].(expanded := false, value := text, children := [])
    ensures forall k :: k in f.nodes && k != h ==> r.nodes[k] == f.nodes[k]
  {
    var g1 := Update(f, h, f.nodes[h].(expanded := false));
    var g2 := RemoveChildren(g1, h);
    Update(g2, h, g2.nodes[h].(value := text))
  }

  /** New value: the watch shows it and is marked changed. */
  function NewValue(f: Forest, h: Handle, value: string): (r: Forest)
    requires Watches.Valid(f) && h in f.nodes
    ensures Watches.Valid(r) && Extends(f, r)
    ensures r.nodes == f.nodes[h := f.nodes[h].(value := value, changed := true)]
  {
    Update(f, h, f.nodes[h].(value := value, changed := true))
  }

  /** The number of children changed: the children go, and are listed again when there are any. */
  function Relist(st: ListState, h: Handle, count: int, start: int, end: int): (r: ListState)
    requires StateOk(st) && h in st.forest.nodes
    ensures StateOk(r) && Grew(st, r)
    ensures r.forest == RemoveChildren(st.forest, h)
    ensures r.issued == st.issued + (if count > 0 then [ListCommand(st.forest.nodes[h].id, start, end)] else [])
    ensures r.parents == (if count > 0 then st.parents[|st.issued| := h] else st.parents)
    ensures r.pending == st.pending + (if count > 0 then 1 else 0)
  {
    var st' := st.(forest := RemoveChildren(st.forest, h));
    ForestGrows(st, st'.forest);
    if count > 0 then
      IssueGrows(st', st'.forest.nodes[h].id, h, start, end);
      GrewTrans(st, st', Issue(st', st'.forest.nodes[h].id, h, start, end));
      Issue(st', st'.forest.nodes[h].id, h, start, end)
    else st'
  }

  /** Storing a key twice keeps only the second value. */
  lemma PutTwice(m: map<Handle, Watch>, h: Handle, a: Watch, b: Watch)
    ensures m[h := a][h := b] == m[h := b]
  {
  }

  /** The first stage of a plain watch's entry: a new number of children drops them, and lists them again when there are any. */
  function StaticChildren(st: ListState, h: Handle, u: UpdatedVariable, start: int, end: int): (r: ListState)
    requires StateOk(st) && h in st.forest.nodes
    ensures StateOk(r) && Grew(st, r)
    ensures r.forest.nodes == st.forest.nodes[h := st.forest.nodes[h].(children := if u.newNumChildren.Some? then [] else st.forest.nodes[h].children)]
    ensures var relisted := u.newNumChildren.Some? && u.newNumChildren.value > 0;
      && r.issued == st.issued + (if relisted then [ListCommand(st.forest.nodes[h].id, start, end)] else [])
      && r.parents == (if relisted then st.parents[|st.issued| := h] else st.parents)
  {
    if u.newNumChildren.Some? then Relist(st, h, u.newNumChildren.value, start, end)
    else
      ForestGrows(st, st.forest);
      assert st.forest.nodes[h := st.forest.nodes[h]] == st.forest.nodes;
      st
  }

  /**
    A plain watch in scope: after the children, the watch shows its new value and is
    marked changed, or, without a value, shows nothing.  No other node changes, and the
    only command is the list command of `StaticChildren`.
  */
  function StaticApply(st: ListState, h: Handle, u: UpdatedVariable, start: int, end: int): (r: ListState)
    requires StateOk(st) && h in st.forest.nodes
    ensures StateOk(r) && Grew(st, r)
    ensures r.forest.nodes == st.forest.nodes[h := st.forest.nodes[h].(
      value := u.value.GetOr(""), changed := u.value.Some? || st.forest.nodes[h].changed,
      children := if u.newNumChildren.Some? then [] else st.forest.nodes[h].children)]
    ensures var st' := StaticChildren(st, h, u, start, end); r.issued == st'.issued && r.parents == st'.parents
  {
    var st' := StaticChildren(st, h, u, start, end);
    var w1 := st'.forest.nodes[h];
    var g := if u.value.Some? then NewValue(st'.forest, h, u.value.value)
             else Update(st'.forest, h, w1.(value := ""));
    assert g.nodes == st'.forest.nodes[h := w1.(value := u.value.GetOr(""), changed := u.value.Some? || w1.changed)];
    PutTwice(st.forest.nodes, h, w1, w1.(value := u.value.GetOr(""), changed := u.value.Some? || w1.changed));
    ForestGrows(st', g);
    GrewTrans(st, st', st'.(forest := g));
    st'.(forest := g)
  }

  /** The watch `h` after its change-list entry `u`. */
  function ApplyUpdate(st: ListState, h: Handle, u: UpdatedVariable, start: int, end: int): (r: ListState)
    requires StateOk(st) && h in st.forest.nodes
    ensures StateOk(r) && Grew(st, r)
  {
    var f := st.forest;
    match u.inScope
    case InScopeNo =>
      ForestGrows(st, OutOfScope(f, h, NotInScopeText));
      st.(forest := OutOfScope(f, h, NotInScopeText))
    case InScopeInvalid =>
      ForestGrows(st, OutOfScope(f, h, InvalidText));
      st.(forest := OutOfScope(f, h, InvalidText))
    case InScopeYes =>
      if u.dynamic then
        if u.newNumChildren.Some? then Relist(st, h, u.newNumChildren.value, start, end)
        else if u.hasMore then
          var st' := st.(forest := MarkChildrenRemoved(f, h));
          ForestGrows(st, st'.forest);
          IssueGrows(st', f.nodes[h].id, h, start, end);
          GrewTrans(st, st', Issue(st', f.nodes[h].id, h, start, end));
          Issue(st', f.nodes[h].id, h, start, end)
        else if u.value.Some? then
          ForestGrows(st, NewValue(f, h, u.value.value));
          st.(forest := NewValue(f, h, u.value.value))
        else
          ForestGrows(st, f);
          st
      else StaticApply(st, h, u, start, end)
  }

  /** The watch a change-list entry is about: the live watch its `name` names. */
  function Target(f: Forest, v: Value): (r: Option<Handle>)
    requires Watches.Valid(f)
    ensures r.Some? ==> r.value in f.nodes && Live(f, r.value) && Some(f.nodes[r.value].id) == FieldString(v, "name")
  {
    match FieldString(v, "name")
    case None => None
    case Some(name) => Find(f, name)
  }

  /** One change-list entry: skipped when it names no live watch or does not parse. */
  function UpdateStep(st: ListState, v: Value, parse: Value -> Option<UpdatedVariable>, start: int, end: int): (r: ListState)
    requires StateOk(st)
    ensures StateOk(r) && Grew(st, r)
  {
    match Target(st.forest, v)
    case None =>
      ForestGrows(st, st.forest);
      st
    case Some(h) =>
      match parse(v)
      case None =>
        ForestGrows(st, st.forest);
        st
      case Some(u) => ApplyUpdate(st, h, u, start, end)
  }

  /** The first `n` change-list entries applied in order. */
  function UpdateEntries(st: ListState, es: seq<Member>, n: nat, parse: Value -> Option<UpdatedVariable>, start: int, end: int): (r: ListState)
    requires StateOk(st) && n <= |es|
    ensures StateOk(r)
  {
    if n == 0 then st
    else UpdateStep(UpdateEntries(st, es, n - 1, parse, start, end), es[n - 1].value, parse, start, end)
  }

  /**
    `ParseUpdate`: an error reply is refused (false); a reply without a change list changes
    nothing; otherwise every entry is applied.
  */
  function ParseUpdate(st: ListState, r: Result, parse: Value -> Option<UpdatedVariable>, start: int, end: int): (p: (ListState, bool))
    requires StateOk(st)
    ensures StateOk(p.0)
    ensures p.1 <==> r.cls != Error
    ensures r.cls == Error ==> p.0 == st
  {
    if r.cls == Error then (st, false)
    else match Field(r.value, "changelist")
      case None => (st, true)
      case Some(list) => (UpdateEntries(st, Entries(list), |Entries(list)|, parse, start, end), true)
  }

  /**
    A reply to the update action, once it no longer counts as pending: the reply to the
    update command clears every change mark and applies the change list; any other reply
    is a list reply.
  */
  function UpdateOutput(st: ListState, isUpdate: bool, id: CommandId, r: Result, parse: Value -> Option<UpdatedVariable>, start: int, end: int): (o: (ListState, bool))
    requires StateOk(st)
    ensures StateOk(o.0)
    ensures isUpdate ==> (o.1 <==> r.cls != Error)
  {
    if isUpdate then ParseUpdate(st.(forest := ClearChanged(st.forest)), r, parse, start, end)
    else ParseList(st, id, r.value, start, end)
  }

  // ---------------------------------------------------------------------------------
  // Properties.

  /** Every node keeps its id. */
  predicate SameIds(f: Forest, g: Forest) {
    forall h :: h in f.nodes ==> h in g.nodes && g.nodes[h].id == f.nodes[h].id
  }

  /** Whether one of the first `n` entries of a change list names the watch `id`. */
  predicate NamedIn(id: string, es: seq<Member>, n: nat)
    requires n <= |es|
  {
    n > 0 && (FieldString(es[n - 1].value, "name") == Some(id) || NamedIn(id, es, n - 1))
  }

  lemma {:induction false} NamedInExists(id: string, es: seq<Member>, n: nat)
    requires n <= |es|
    ensures NamedIn(id, es, n) <==> exists k :: 0 <= k < n && FieldString(es[k].value, "name") == Some(id)
  {
    if n > 0 {
      NamedInExists(id, es, n - 1);
      if FieldString(es[n - 1].value, "name") == Some(id) {
        assert 0 <= n - 1 < n;
      } else if exists k :: 0 <= k < n && FieldString(es[k].value, "name") == Some(id) {
        var k :| 0 <= k < n && FieldString(es[k].value, "name") == Some(id);
        assert k < n - 1;
      }
    }
  }

  /** A node marked changed in `g` was marked in `f` already, or one of the first `n` entries names it. */
  predicate ChangedByEntries(f: Forest, g: Forest, es: seq<Member>, n: nat)
    requires n <= |es|
  {
    forall h :: h in g.nodes && g.nodes[h].changed ==>
      (h in f.nodes && f.nodes[h].changed) || NamedIn(g.nodes[h].id, es, n)
  }

  /** `g` keeps every id of `f`, and of the nodes not marked in `f` it marks at most `h` as changed. */
  predicate MarksAtMost(f: Forest, g: Forest, h: Handle) {
    && SameIds(f, g)
    && forall k :: k in g.nodes && g.nodes[k].changed ==> (k in f.nodes && f.nodes[k].changed) || k == h
  }

  lemma MarksTrans(f: Forest, g: Forest, k: Forest, h: Handle)
    requires MarksAtMost(f, g, h) && MarksAtMost(g, k, h)
    ensures MarksAtMost(f, k, h)
  {
  }

  lemma RelistMarks(st: ListState, h: Handle, count: int, start: int, end: int)
    requires StateOk(st) && h in st.forest.nodes
    ensures MarksAtMost(st.forest, Relist(st, h, count, start, end).forest, h)
  {
  }

  lemma OutOfScopeMarks(f: Forest, h: Handle, text: string)
    requires Watches.Valid(f) && h in f.nodes
    ensures MarksAtMost(f, OutOfScope(f, h, text), h)
  {
  }

  lemma NewValueMarks(f: Forest, h: Handle, value: string)
    requires Watches.Valid(f) && h in f.nodes
    ensures MarksAtMost(f, NewValue(f, h, value), h)
  {
  }

  lemma DynamicMarks(st: ListState, h: Handle, u: UpdatedVariable, start: int, end: int)
    requires StateOk(st) && h in st.forest.nodes && u.inScope == InScopeYes && u.dynamic
    ensures MarksAtMost(st.forest, ApplyUpdate(st, h, u, start, end).forest, h)
  {
    if u.newNumChildren.Some? {
      RelistMarks(st, h, u.newNumChildren.value, start, end);
    } else if u.hasMore {
      var f := st.forest;
      var g := MarkChildrenRemoved(f, h);
      assert ApplyUpdate(st, h, u, start, end).forest == g;
      assert MarksAtMost(f, g, h);
    } else if u.value.Some? {
      NewValueMarks(st.forest, h, u.value.value);
    }
  }

  lemma StaticMarks(st: ListState, h: Handle, u: UpdatedVariable, start: int, end: int)
    requires StateOk(st) && h in st.forest.nodes && u.inScope == InScopeYes && !u.dynamic
    ensures MarksAtMost(st.forest, ApplyUpdate(st, h, u, start, end).forest, h)
  {
    assert ApplyUpdate(st, h, u, start, end) == StaticApply(st, h, u, start, end);
  }

  /** Applying one entry to `h` keeps every id and marks at most `h` as changed. */
  lemma ApplyMarks(st: ListState, h: Handle, u: UpdatedVariable, start: int, end: int)
    requires StateOk(st) && h in st.forest.nodes
    ensures MarksAtMost(st.forest, ApplyUpdate(st, h, u, start, end).forest, h)
  {
    match u.inScope
    case InScopeNo => OutOfScopeMarks(st.forest, h, NotInScopeText);
    case InScopeInvalid => OutOfScopeMarks(st.forest, h, InvalidText);
    case InScopeYes =>
      if u.dynamic {
        DynamicMarks(st, h, u, start, end);
      } else {
        StaticMarks(st, h, u, start, end);
      }
  }

  /** One entry keeps every id and marks at most the watch it names as changed. */
  lemma StepMarks(st: ListState, v: Value, parse: Value -> Option<UpdatedVariable>, start: int, end: int)
    requires StateOk(st)
    ensures var r := UpdateStep(st, v, parse, start, end);
      && SameIds(st.forest, r.forest)
      && forall h :: h in r.forest.nodes && r.forest.nodes[h].changed ==>
           (h in st.forest.nodes && st.forest.nodes[h].changed) || FieldString(v, "name") == Some(r.forest.nodes[h].id)
  {
    match Target(st.forest, v)
    case None =>
    case Some(h) =>
      match parse(v)
      case None =>
      case Some(u) => ApplyMarks(st, h, u, start, end);
  }

  /**
    Applying a change list keeps every id, and the only watches it marks as changed are
    watches some entry of the list names.
  */
  lemma {:induction false} UpdateMarksOnlyNamed(st: ListState, es: seq<Member>, n: nat, parse: Value -> Option<UpdatedVariable>, start: int, end: int)
    requires StateOk(st) && n <= |es|
    ensures var r := UpdateEntries(st, es, n, parse, start, end);
      SameIds(st.forest, r.forest) && ChangedByEntries(st.forest, r.forest, es, n)
  {
    if n > 0 {
      UpdateMarksOnlyNamed(st, es, n - 1, parse, start, end);
      var mid := UpdateEntries(st, es, n - 1, parse, start, end);
      StepMarks(mid, es[n - 1].value, parse, start, end);
    }
  }

  /** The walk over a change list waits for exactly one reply per list command it issues. */
  lemma {:induction false} UpdateGrows(st: ListState, es: seq<Member>, n: nat, parse: Value -> Option<UpdatedVariable>, start: int, end: int)
    requires StateOk(st) && n <= |es|
    ensures Grew(st, UpdateEntries(st, es, n, parse, start, end))
  {
    if n == 0 {
      ForestGrows(st, st.forest);
    } else {
      UpdateGrows(st, es, n - 1, parse, start, end);
      var mid := UpdateEntries(st, es, n - 1, parse, start, end);
      GrewTrans(st, mid, UpdateStep(mid, es[n - 1].value, parse, start, end));
    }
  }

  /** A watch that went out of scope shows the fixed text, is collapsed and has no children left. */
  lemma OutOfScopeClears(st: ListState, h: Handle, u: UpdatedVariable, start: int, end: int)
    requires StateOk(st) && h in st.forest.nodes && u.inScope != InScopeYes
    ensures var w := ApplyUpdate(st, h, u, start, end).forest.nodes[h];
      && w.value == (if u.inScope == InScopeNo then NotInScopeText else InvalidText)
      && !w.expanded && w.children == []
    ensures ApplyUpdate(st, h, u, start, end).issued == st.issued
  {
  }

  /** A dynamic watch with a new number of children: they go, and are listed again under it when there are any. */
  lemma DynamicRelistUpdate(st: ListState, h: Handle, u: UpdatedVariable, start: int, end: int)
    requires StateOk(st) && h in st.forest.nodes
    requires u.inScope == InScopeYes && u.dynamic && u.newNumChildren.Some?
    ensures var r := ApplyUpdate(st, h, u, start, end);
      var relisted := u.newNumChildren.value > 0;
      && r.forest.nodes == st.forest.nodes[h := st.forest.nodes[h].(children := [])]
      && r.issued == st.issued + (if relisted then [ListCommand(st.forest.nodes[h].id, start, end)] else [])
      && r.parents == (if relisted then st.parents[|st.issued| := h] else st.parents)
  {
  }

  /** A dynamic watch with more children: they are marked for removal and listed again under it. */
  lemma DynamicMoreUpdate(st: ListState, h: Handle, u: UpdatedVariable, start: int, end: int)
    requires StateOk(st) && h in st.forest.nodes
    requires u.inScope == InScopeYes && u.dynamic && u.newNumChildren.None? && u.hasMore
    ensures var r := ApplyUpdate(st, h, u, start, end);
      && r.forest == MarkChildrenRemoved(st.forest, h)
      && r.issued == st.issued + [ListCommand(st.forest.nodes[h].id, start, end)]
      && r.parents == st.parents[|st.issued| := h] && r.pending == st.pending + 1
  {
  }

  /** A dynamic watch with only a new value shows it and is marked changed; one with nothing new is left alone. */
  lemma DynamicValueUpdate(st: ListState, h: Handle, u: UpdatedVariable, start: int, end: int)
    requires StateOk(st) && h in st.forest.nodes
    requires u.inScope == InScopeYes && u.dynamic && u.newNumChildren.None? && !u.hasMore
    ensures var r := ApplyUpdate(st, h, u, start, end);
      && (u.value.Some? ==> r == st.(forest := NewValue(st.forest, h, u.value.value)))
      && (u.value.None? ==> r == st)
  {
  }

  // ---------------------------------------------------------------------------------
  // The action.

  class WatchesUpdateAction {
    const base: WatchBase
    const parse: Value -> Option<UpdatedVariable>
    /** `m_update_command`: the identifier of `-var-update 1 *`, once sent. */
    var updateCommand: Option<CommandId>

    ghost predicate Valid()
      reads this, base, base.core, base.tree
    {
      base.Valid()
    }

    constructor (core: ActionCore, tree: WatchStore.WatchTree, parse: Value -> Option<UpdatedVariable>, rangeStart: int, rangeEnd: int)
      requires tree.Valid() && core.issued == []
      ensures Valid() && fresh(base) && base.core == core && base.tree == tree && this.parse == parse
      ensures base.parentMap == map[] && base.pending == 0 && updateCommand == None
      ensures base.rangeStart == rangeStart && base.rangeEnd == rangeEnd
    {
      base := new WatchBase(core, tree, rangeStart, rangeEnd);
      this.parse := parse;
      updateCommand := None;
    }

    method OnStart()
      requires Valid()
      modifies this, base, base.core
      ensures base.core.issued == old(base.core.issued) + ["-var-update 1 *"]
      ensures updateCommand == Some(|old(base.core.issued)|) && base.pending == 1
      ensures base.parentMap == old(base.parentMap) && unchanged(base.tree)
      ensures base.core.finishes == old(base.core.finishes) && base.core.refreshes == old(base.core.refreshes)
      ensures Valid()
    {
      var id := base.core.Execute("-var-update 1 *");
      updateCommand := Some(id);
      base.pending := 1;
    }

    /** One change-list entry. */
    method UpdateEntry(v: Value)
      requires Valid()
      modifies base, base.core, base.tree
      ensures base.State() == UpdateStep(old(base.State()), v, parse, base.rangeStart, base.rangeEnd)
      ensures base.core.finishes == old(base.core.finishes) && base.core.refreshes == old(base.core.refreshes)
      ensures Valid()
    {
      var h := Target(base.tree.Snapshot(), v);
      if h.None? {
        return;
      }
      var u := parse(v);
      if u.None? {
        return;
      }
      ApplyTo(h.value, u.value);
    }

    method GoOutOfScope(h: Handle, text: string)
      requires Valid() && h in base.tree.nodes
      modifies base.tree
      ensures base.tree.Snapshot() == OutOfScope(old(base.tree.Snapshot()), h, text)
      ensures Valid()
    {
      var tree := base.tree;
      ghost var f := tree.Snapshot();
      tree.Set(h, tree.nodes[h].(expanded := false));
      assert tree.Snapshot() == Update(f, h, f.nodes[h].(expanded := false));
      tree.RemoveChildren(h);
      tree.Set(h, tree.nodes[h].(value := text));
    }

    method SetNewValue(h: Handle, value: string)
      requires Valid() && h in base.tree.nodes
      modifies base.tree
      ensures base.tree.Snapshot() == NewValue(old(base.tree.Snapshot()), h, value)
      ensures Valid()
    {
      base.tree.Set(h, base.tree.nodes[h].(value := value, changed := true));
    }

    method RelistChildren(h: Handle, count: int)
      requires Valid() && h in base.tree.nodes
      modifies base, base.core, base.tree
      ensures base.State() == Relist(old(base.State()), h, count, base.rangeStart, base.rangeEnd)
      ensures base.core.finishes == old(base.core.finishes) && base.core.refreshes == old(base.core.refreshes)
      ensures Valid()
    {
      base.tree.RemoveChildren(h);
      if count > 0 {
        base.ExecuteListCommand(h, None);
      }
    }

    /** A dynamic watch (one with a pretty-printer) still in scope; see `ApplyUpdate`. */
    method ApplyDynamic(h: Handle, u: UpdatedVariable)
      requires Valid() && h in base.tree.nodes && u.inScope == InScopeYes && u.dynamic
      modifies base, base.core, base.tree
      ensures base.State() == ApplyUpdate(old(base.State()), h, u, base.rangeStart, base.rangeEnd)
      ensures base.core.finishes == old(base.core.finishes) && base.core.refreshes == old(base.core.refreshes)
      ensures Valid()
    {
      if u.newNumChildren.Some? {
        RelistChildren(h, u.newNumChildren.value);
      } else if u.hasMore {
        base.tree.MarkChildrenRemoved(h);
        base.ExecuteListCommand(h, None);
      } else if u.value.Some? {
        SetNewValue(h, u.value.value);
      }
    }

    /** A plain watch still in scope; see `ApplyUpdate`. */
    method ApplyStatic(h: Handle, u: UpdatedVariable)
      requires Valid() && h in base.tree.nodes && u.inScope == InScopeYes && !u.dynamic
      modifies base, base.core, base.tree
      ensures base.State() == ApplyUpdate(old(base.State()), h, u, base.rangeStart, base.rangeEnd)
      ensures base.core.finishes == old(base.core.finishes) && base.core.refreshes == old(base.core.refreshes)
      ensures Valid()
    {
      if u.newNumChildren.Some? {
        RelistChildren(h, u.newNumChildren.value);
      }
      if u.value.Some? {
        SetNewValue(h, u.value.value);
      } else {
        base.tree.Set(h, base.tree.nodes[h].(value := ""));
      }
    }

    /** One change-list entry applied to the watch `h` it names; see `ApplyUpdate`. */
    method ApplyTo(h: Handle, u: UpdatedVariable)
      requires Valid() && h in base.tree.nodes
      modifies base, base.core, base.tree
      ensures base.State() == ApplyUpdate(old(base.State()), h, u, base.rangeStart, base.rangeEnd)
      ensures base.core.finishes == old(base.core.finishes) && base.core.refreshes == old(base.core.refreshes)
      ensures Valid()
    {
      match u.inScope
      case InScopeNo =>
        GoOutOfScope(h, NotInScopeText);
      case InScopeInvalid =>
        GoOutOfScope(h, InvalidText);
      case InScopeYes =>
        if u.dynamic {
          ApplyDynamic(h, u);
        } else {
          ApplyStatic(h, u);
        }
    }

    /** `ParseUpdate`; an error reply finishes the action here already. */
    method ParseUpdateReply(r: Result) returns (ok: bool)
      requires Valid()
      modifies base, base.core, base.tree
      ensures (base.State(), ok) == ParseUpdate(old(base.State()), r, parse, base.rangeStart, base.rangeEnd)
      ensures base.core.finishes == old(base.core.finishes) + (if r.cls == Error then 1 else 0)
      ensures base.core.refreshes == old(base.core.refreshes)
      ensures Valid()
    {
      if r.cls == Error {
        base.core.Finish();
        return false;
      }
      var list := Field(r.value, "changelist");
      if list.None? {
        return true;
      }
      var es := Entries(list.value);
      var ii := 0;
      while ii < |es|
        invariant 0 <= ii <= |es|
        invariant base.State() == UpdateEntries(old(base.State()), es, ii, parse, base.rangeStart, base.rangeEnd)
        invariant Valid()
        invariant base.core.finishes == old(base.core.finishes) && base.core.refreshes == old(base.core.refreshes)
      {
        UpdateEntry(es[ii].value);
        ii := ii + 1;
      }
      ok := true;
    }

    /** A reply, once it no longer counts as pending; see `UpdateOutput`. */
    method HandleReply(id: CommandId, r: Result) returns (ok: bool)
      requires Valid()
      modifies base, base.core, base.tree
      ensures (base.State(), ok) == UpdateOutput(old(base.State()), Some(id) == updateCommand, id, r, parse, base.rangeStart, base.rangeEnd)
      ensures base.core.finishes == old(base.core.finishes) + (if Some(id) == updateCommand && r.cls == Error then 1 else 0)
      ensures base.core.refreshes == old(base.core.refreshes)
      ensures Valid()
    {
      if Some(id) == updateCommand {
        base.tree.ClearChanged();
        ok := ParseUpdateReply(r);
      } else {
        ok := base.ParseListCommand(id, r.value);
      }
    }

    /**
      A reply: to the update command, the change marks are cleared and the change list
      applied; to a list command, its children are merged.  A failure finishes the action
      (an error reply to the update command finishes it twice); otherwise it finishes,
      after asking for the watches to be redrawn, once no reply is pending.
    */
    method OnCommandOutput(id: CommandId, r: Result)
      requires Valid()
      modifies base, base.core, base.tree
      ensures
        var out := UpdateOutput(old(base.State()).(pending := old(base.pending) - 1), Some(id) == updateCommand, id, r, parse, base.rangeStart, base.rangeEnd);
        var failures := if !out.1 then (if Some(id) == updateCommand && r.cls == Error then 2 else 1) else 0;
        var done := out.1 && out.0.pending == 0;
        && base.State() == out.0
        && base.core.finishes == old(base.core.finishes) + failures + (if done then 1 else 0)
        && base.core.refreshes == old(base.core.refreshes) + (if done then [UpdateWatches] else [])
      ensures Valid()
    {
      base.pending := base.pending - 1;
      var ok := HandleReply(id, r);
      if !ok {
        base.core.Finish();
      } else if base.pending == 0 {
        base.core.Notify(UpdateWatches);
        base.core.Finish();
      }
    }
  }
}
