/**
  The list-children machinery every watch action shares (`WatchBaseAction`).

  A watch action asks for the children of a variable object with
  `-var-list-children 2 "<id>"` (followed by ` <start> <end> ` when a range is set),
  remembers which watch the reply belongs under, and counts the sub-commands whose
  replies it still waits for.  `ParseListCommand` walks one reply's `children` list and
  turns every entry into a child watch, a placeholder, or a further list command.
*/
module WatchList {
  import opened Reply
  import opened Action
  import opened Watches
  import WatchStore

  /** The `displayhint` of a reply: pretty-printed containers list maps as key/value pairs. */
  datatype Hint = NoHint | ArrayHint | MapHint

  function DisplayHint(v: Value): (r: Hint)
    ensures r == MapHint <==> FieldString(v, "displayhint") == Some("map")
  {
    match FieldString(v, "displayhint")
    case Some(s) => if s == "map" then MapHint else if s == "array" then ArrayHint else NoHint
    case None => NoHint
  }

  /** `ParseWatchInfo`: the child count (`-1` when absent or unreadable), and the dynamic and has-more flags. */
  datatype WatchInfo = WatchInfo(childrenCount: int, dynamic: bool, hasMore: bool)

  function ParseWatchInfo(v: Value): (r: WatchInfo)
    ensures r.childrenCount == -1 <==> FieldInt(v, "numchild") == None || FieldInt(v, "numchild") == Some(-1)
    ensures r.dynamic <==> FieldInt(v, "dynamic") == Some(1)
    ensures r.hasMore <==> FieldInt(v, "has_more") == Some(1)
  {
    WatchInfo(FieldInt(v, "numchild").GetOr(-1), FieldInt(v, "dynamic") == Some(1), FieldInt(v, "has_more") == Some(1))
  }

  /** The list-children command for the variable object `watchId`. */
  function ListCommand(watchId: string, start: int, end: int): string {
    "-var-list-children 2 \"" + watchId + "\"" +
    (if start > -1 && end > -1 then " " + FormatInt(start) + " " + FormatInt(end) + " " else "")
  }

  const ListPrefix: string := "-var-list-children 2 \""

  lemma ListCommandShape(watchId: string, start: int, end: int)
    ensures var c := ListCommand(watchId, start, end);
      |c| > |ListPrefix| + |watchId| && c[..|ListPrefix|] == ListPrefix &&
      c[|ListPrefix|..|ListPrefix| + |watchId|] == watchId && c[|ListPrefix| + |watchId|] == '"'
  {
  }

  /** What a watch action keeps between replies: the tree, its commands, their parents, the count of pending replies. */
  datatype ListState = ListState(forest: Forest, issued: seq<string>, parents: map<CommandId, Handle>, pending: int)

  /** Every remembered parent is a node, and every remembered command was issued. */
  predicate StateOk(st: ListState) {
    && Watches.Valid(st.forest)
    && (forall id :: id in st.parents ==> st.parents[id] in st.forest.nodes && id < |st.issued|)
  }

  /** `ExecuteListCommand`: issue the command, remember `parent` for its reply, wait for one more reply. */
  function Issue(st: ListState, watchId: string, parent: Handle, start: int, end: int): (r: ListState)
    requires StateOk(st) && parent in st.forest.nodes
    ensures StateOk(r) && r.forest == st.forest
    ensures r.issued == st.issued + [ListCommand(watchId, start, end)]
    ensures r.parents == st.parents[|st.issued| := parent] && r.pending == st.pending + 1
  {
    st.(issued := st.issued + [ListCommand(watchId, start, end)],
        parents := st.parents[|st.issued| := parent],
        pending := st.pending + 1)
  }

  /** The state of one walk over a `children` list: the action's state and the last map key. */
  datatype ListScan = ListScan(st: ListState, mapKey: string)

  /** `st` grew into `st'`: the tree only gained nodes, commands were only appended, one pending reply per command. */
  predicate Grew(st: ListState, st': ListState) {
    && Extends(st.forest, st'.forest)
    && |st.issued| <= |st'.issued| && st'.issued[..|st.issued|] == st.issued
    && st'.pending - st.pending == |st'.issued| - |st.issued|
    && (forall id :: |st.issued| <= id < |st'.issued| ==> id in st'.parents)
    && (forall id :: id in st.parents ==> id in st'.parents && st'.parents[id] == st.parents[id])
  }

  /** The symbol of a new child: the key of its pair in a map, else its `exp`, else `--unknown--`. */
  function Symbol(cv: Value, hint: Hint, mapKey: string): string {
    if hint == MapHint then mapKey else FieldString(cv, "exp").GetOr("--unknown--")
  }

  /** Whether entry `ii` only carries the key of a map pair. */
  predicate IsMapKey(e: Member, ii: nat, hint: Hint) {
    e.name == "child" && hint == MapHint && ii % 2 == 0
  }

  /** Whether entry `ii` makes the walk report an error: a child without a readable child count. */
  predicate Faulty(e: Member, ii: nat, hint: Hint) {
    var info := ParseWatchInfo(e.value);
    e.name == "child" && !IsMapKey(e, ii, hint) && !(info.dynamic && info.hasMore) && info.childrenCount == -1
  }

  lemma GrewTrans(st1: ListState, st2: ListState, st3: ListState)
    requires Grew(st1, st2) && Grew(st2, st3)
    ensures Grew(st1, st3)
  {
    assert st3.issued[..|st1.issued|] == st3.issued[..|st2.issued|][..|st1.issued|];
  }

  lemma IssueGrows(st: ListState, watchId: string, parent: Handle, start: int, end: int)
    requires StateOk(st) && parent in st.forest.nodes
    ensures Grew(st, Issue(st, watchId, parent, start, end))
  {
    var r := Issue(st, watchId, parent, start, end);
    assert r.issued[..|st.issued|] == st.issued;
  }

  /** A state change that only touches the tree, growing it. */
  lemma ForestGrows(st: ListState, f: Forest)
    requires StateOk(st) && Watches.Valid(f) && Extends(st.forest, f)
    ensures StateOk(st.(forest := f)) && Grew(st, st.(forest := f))
  {
    assert st.issued[..|st.issued|] == st.issued;
  }

  /**
    A child without grandchildren (`numchild` 0): it is added under `parent`, which drops
    its placeholder the first time; a dynamic one is kept when collapsed and has its own
    children listed under it.
  */
  function LeafChild(st: ListState, parent: Handle, cv: Value, dynamic: bool, symbol: string, start: int, end: int): (r: ListState)
    requires StateOk(st) && parent in st.forest.nodes
    ensures StateOk(r) && Grew(st, r)
  {
    var added := AddChild(ExpandOnce(st.forest, parent), parent, cv, symbol);
    var f := added.0;
    ForestGrows(st, f);
    match added.1
    case Some(c) =>
      if dynamic then
        var st' := st.(forest := Update(f, c, f.nodes[c].(deleteOnCollapse := false)));
        ForestGrows(st, st'.forest);
        match FieldString(cv, "name")
        case Some(id) =>
          IssueGrows(st', id, c, start, end);
          GrewTrans(st, st', Issue(st', id, c, start, end));
          Issue(st', id, c, start, end)
        case None => st'
      else st.(forest := f)
    case None => st.(forest := f)
  }

  /** A child with a type and grandchildren: added under `parent` with a placeholder child of its own. */
  function ExpandableChild(st: ListState, parent: Handle, cv: Value, symbol: string): (r: ListState)
    requires StateOk(st) && parent in st.forest.nodes
    ensures StateOk(r) && Grew(st, r) && r.issued == st.issued && r.pending == st.pending
  {
    var added := AddChild(ExpandOnce(st.forest, parent), parent, cv, symbol);
    var f := added.0;
    match added.1
    case Some(c) =>
      ForestGrows(st, AppendNullChild(f, c));
      st.(forest := AppendNullChild(f, c))
    case None =>
      ForestGrows(st, f);
      st.(forest := f)
  }

  /** A `child` entry that is neither a map key nor faulty. */
  function ChildStep(st: ListState, parent: Handle, cv: Value, info: WatchInfo, symbol: string, start: int, end: int): (r: ListState)
    requires StateOk(st) && parent in st.forest.nodes
    ensures StateOk(r) && Grew(st, r)
  {
    if info.dynamic && info.hasMore then
      IssueGrows(st, FieldString(cv, "name").GetOr(""), parent, start, end);
      Issue(st, FieldString(cv, "name").GetOr(""), parent, start, end)
    else if info.childrenCount == 0 then LeafChild(st, parent, cv, info.dynamic, symbol, start, end)
    else if FieldString(cv, "type").Some? then ExpandableChild(st, parent, cv, symbol)
    else
      match FieldString(cv, "name")
      case Some(id) =>
        IssueGrows(st, id, parent, start, end);
        Issue(st, id, parent, start, end)
      case None =>
        ForestGrows(st, st.forest);
        st
  }

  /**
    A dynamic child with more children is never attached: one list command for its id is
    issued under `parent`, so the children it lists are added to `parent` itself.
  */
  lemma HasMoreListsUnderParent(st: ListState, parent: Handle, cv: Value, info: WatchInfo, symbol: string, start: int, end: int)
    requires StateOk(st) && parent in st.forest.nodes && info.dynamic && info.hasMore
    ensures var r := ChildStep(st, parent, cv, info, symbol, start, end);
      && r.forest == st.forest
      && r.issued == st.issued + [ListCommand(FieldString(cv, "name").GetOr(""), start, end)]
      && r.parents == st.parents[|st.issued| := parent] && r.parents[|st.issued|] == parent
      && r.pending == st.pending + 1
  {
  }

  /**
    A dynamic child without children is added (or found) under `parent`, is kept when its
    parent collapses, and, when it has a `name`, gets one list command of its own whose
    reply is added under it.
  */
  lemma DynamicLeafListsUnderItself(st: ListState, parent: Handle, cv: Value, info: WatchInfo, symbol: string, start: int, end: int)
    requires StateOk(st) && parent in st.forest.nodes
    requires info.dynamic && !info.hasMore && info.childrenCount == 0
    requires FieldString(cv, "name").Some?
    ensures var added := AddChild(ExpandOnce(st.forest, parent), parent, cv, symbol);
      var r := ChildStep(st, parent, cv, info, symbol, start, end);
      && added.1.Some? && added.1.value in r.forest.nodes
      && r.forest.nodes == added.0.nodes[added.1.value := added.0.nodes[added.1.value].(deleteOnCollapse := false)]
      && !r.forest.nodes[added.1.value].deleteOnCollapse
      && r.issued == st.issued + [ListCommand(FieldString(cv, "name").value, start, end)]
      && r.parents == st.parents[|st.issued| := added.1.value] && r.parents[|st.issued|] == added.1.value
      && r.pending == st.pending + 1
  {
  }

  /**
    One entry of a `children` list, at raw position `ii`, handled under `parent`.  A map
    key only records the key; a faulty entry changes nothing but the error flag, which
    `AnyFaulty` accounts for.
  */
  function EntryStep(w: ListScan, parent: Handle, ii: nat, e: Member, hint: Hint, start: int, end: int): (r: ListScan)
    requires StateOk(w.st) && parent in w.st.forest.nodes
    ensures StateOk(r.st) && Grew(w.st, r.st)
    ensures r.mapKey == if IsMapKey(e, ii, hint) then FieldString(e.value, "value").GetOr("") else w.mapKey
  {
    ForestGrows(w.st, w.st.forest);
    if e.name != "child" || Faulty(e, ii, hint) then w
    else if IsMapKey(e, ii, hint) then w.(mapKey := FieldString(e.value, "value").GetOr(""))
    else w.(st := ChildStep(w.st, parent, e.value, ParseWatchInfo(e.value), Symbol(e.value, hint, w.mapKey), start, end))
  }

  /** The first `n` entries handled in order. */
  function ScanEntries(w: ListScan, parent: Handle, es: seq<Member>, n: nat, hint: Hint, start: int, end: int): (r: ListScan)
    requires StateOk(w.st) && parent in w.st.forest.nodes && n <= |es|
    ensures StateOk(r.st) && parent in r.st.forest.nodes
    decreases n
  {
    if n == 0 then w
    else EntryStep(ScanEntries(w, parent, es, n - 1, hint, start, end), parent, n - 1, es[n - 1], hint, start, end)
  }

  /** Whether one of the first `n` entries makes the walk report an error. */
  predicate AnyFaulty(es: seq<Member>, n: nat, hint: Hint)
    requires n <= |es|
  {
    n > 0 && (AnyFaulty(es, n - 1, hint) || Faulty(es[n - 1], n - 1, hint))
  }

  lemma {:induction false} AnyFaultyExists(es: seq<Member>, n: nat, hint: Hint)
    requires n <= |es|
    ensures AnyFaulty(es, n, hint) <==> exists k :: 0 <= k < n && Faulty(es[k], k, hint)
  {
    if n > 0 {
      AnyFaultyExists(es, n - 1, hint);
      if Faulty(es[n - 1], n - 1, hint) {
        assert 0 <= n - 1 < n;
      } else if AnyFaulty(es, n - 1, hint) {
        var k :| 0 <= k < n - 1 && Faulty(es[k], k, hint);
        assert 0 <= k < n;
      } else {
        forall k | 0 <= k < n
          ensures !Faulty(es[k], k, hint)
        {
        }
      }
    }
  }

  /**
    `ParseListCommand`: a reply to a command with no remembered parent is refused and
    changes nothing; a reply without children changes nothing; otherwise every entry is
    handled and the children still marked for removal are dropped.  The result is false
    exactly when some entry had no readable child count; such an entry does not stop the
    walk, the entries after it are handled all the same.
  */
  function ParseList(st: ListState, id: CommandId, value: Value, start: int, end: int): (r: (ListState, bool))
    requires StateOk(st)
    ensures StateOk(r.0)
    ensures id !in st.parents ==> r == (st, false)
  {
    if id !in st.parents then (st, false)
    else match Field(value, "children")
      case None => (st, true)
      case Some(children) =>
        var parent := st.parents[id];
        var es := Entries(children);
        var hint := DisplayHint(value);
        var w := ScanEntries(ListScan(st, ""), parent, es, |es|, hint, start, end);
        (w.st.(forest := RemoveMarkedChildren(w.st.forest, parent)), !AnyFaulty(es, |es|, hint))
  }

  // ---------------------------------------------------------------------------------
  // Properties of the walk.

  /**
    The walk only grows the state, and it waits for exactly one reply per command it
    issues, each of which has a parent to land under.
  */
  lemma {:induction false} ScanGrows(w: ListScan, parent: Handle, es: seq<Member>, n: nat, hint: Hint, start: int, end: int)
    requires StateOk(w.st) && parent in w.st.forest.nodes && n <= |es|
    ensures Grew(w.st, ScanEntries(w, parent, es, n, hint, start, end).st)
  {
    if n == 0 {
      ForestGrows(w.st, w.st.forest);
    } else {
      ScanGrows(w, parent, es, n - 1, hint, start, end);
      var mid := ScanEntries(w, parent, es, n - 1, hint, start, end);
      GrewTrans(w.st, mid.st, EntryStep(mid, parent, n - 1, es[n - 1], hint, start, end).st);
    }
  }

  /**
    A leaf or typed child whose id is not in the tree yet becomes a new node, allocated
    at the next handle, with the id from `name` and the given symbol.
  */
  lemma NewChildSymbol(st: ListState, parent: Handle, cv: Value, info: WatchInfo, symbol: string, start: int, end: int)
    requires StateOk(st) && parent in st.forest.nodes
    requires !(info.dynamic && info.hasMore) && (info.childrenCount == 0 || FieldString(cv, "type").Some?)
    requires FieldString(cv, "name").Some? && Find(ExpandOnce(st.forest, parent), FieldString(cv, "name").value).None?
    ensures var r := ChildStep(st, parent, cv, info, symbol, start, end);
      && st.forest.next in r.forest.nodes
      && r.forest.nodes[st.forest.next].symbol == symbol
      && r.forest.nodes[st.forest.next].id == FieldString(cv, "name").value
  {
    var f := ExpandOnce(st.forest, parent);
    assert f.next == st.forest.next;
    var added := AddChild(f, parent, cv, symbol);
    assert added.1 == Some(f.next);
  }

  /** A map key entry only records the key. */
  lemma MapKeyStep(w: ListScan, parent: Handle, k: nat, e: Member, hint: Hint, start: int, end: int)
    requires StateOk(w.st) && parent in w.st.forest.nodes && IsMapKey(e, k, hint)
    ensures EntryStep(w, parent, k, e, hint, start, end) == w.(mapKey := FieldString(e.value, "value").GetOr(""))
  {
    assert !Faulty(e, k, hint);
  }

  /** Whether entry `ii` describes a leaf or typed child that the walk adds under `parent` as a new node. */
  predicate AddsNewChild(f: Forest, parent: Handle, ii: nat, e: Member, hint: Hint)
    requires Watches.Valid(f) && parent in f.nodes
  {
    var info := ParseWatchInfo(e.value);
    && e.name == "child" && !IsMapKey(e, ii, hint) && !(info.dynamic && info.hasMore)
    && (info.childrenCount == 0 || (info.childrenCount != -1 && FieldString(e.value, "type").Some?))
    && FieldString(e.value, "name").Some? && Find(ExpandOnce(f, parent), FieldString(e.value, "name").value).None?
  }

  /** An entry that adds a new child labels it with the symbol the walk gives it: in a map, the last key read. */
  lemma MapValueStep(w: ListScan, parent: Handle, k: nat, e: Member, hint: Hint, start: int, end: int)
    requires StateOk(w.st) && parent in w.st.forest.nodes && hint == MapHint
    requires AddsNewChild(w.st.forest, parent, k, e, hint)
    ensures var r := EntryStep(w, parent, k, e, hint, start, end);
      w.st.forest.next in r.st.forest.nodes && r.st.forest.nodes[w.st.forest.next].symbol == w.mapKey
  {
    var info := ParseWatchInfo(e.value);
    assert !Faulty(e, k, hint);
    assert Symbol(e.value, hint, w.mapKey) == w.mapKey;
    assert EntryStep(w, parent, k, e, hint, start, end).st == ChildStep(w.st, parent, e.value, info, w.mapKey, start, end);
    NewChildSymbol(w.st, parent, e.value, info, w.mapKey, start, end);
  }

  /**
    In a map, the entry at an even position `k` only records the key: the action's state
    is left alone.  The entry after it, when it describes a leaf or typed child not yet in
    the tree, becomes a node labelled with that key.
  */
  lemma MapPairs(w: ListScan, parent: Handle, es: seq<Member>, k: nat, hint: Hint, start: int, end: int)
    requires StateOk(w.st) && parent in w.st.forest.nodes && k + 1 < |es| && k % 2 == 0
    requires hint == MapHint && es[k].name == "child"
    ensures ScanEntries(w, parent, es, k + 1, hint, start, end).mapKey == FieldString(es[k].value, "value").GetOr("")
    ensures ScanEntries(w, parent, es, k + 1, hint, start, end).st == ScanEntries(w, parent, es, k, hint, start, end).st
    ensures var keyed := ScanEntries(w, parent, es, k + 1, hint, start, end);
      AddsNewChild(keyed.st.forest, parent, k + 1, es[k + 1], hint) ==>
      var valued := ScanEntries(w, parent, es, k + 2, hint, start, end);
      keyed.st.forest.next in valued.st.forest.nodes
      && valued.st.forest.nodes[keyed.st.forest.next].symbol == FieldString(es[k].value, "value").GetOr("")
  {
    var before := ScanEntries(w, parent, es, k, hint, start, end);
    var keyed := ScanEntries(w, parent, es, k + 1, hint, start, end);
    MapKeyStep(before, parent, k, es[k], hint, start, end);
    if AddsNewChild(keyed.st.forest, parent, k + 1, es[k + 1], hint) {
      MapValueStep(keyed, parent, k + 1, es[k + 1], hint, start, end);
    }
  }

  /**
    As written, a typed child with children that is already in the tree gets one more
    placeholder every time it is described: `AppendNullChild` runs whether or not
    `AddChild` attached a new node.
  */
  lemma ExpandableFoundGrows(st: ListState, parent: Handle, cv: Value, symbol: string, h: Handle)
    requires StateOk(st) && parent in st.forest.nodes && FieldString(cv, "name").Some?
    requires Find(ExpandOnce(st.forest, parent), FieldString(cv, "name").value) == Some(h)
    ensures var r := ExpandableChild(st, parent, cv, symbol);
      && r.forest.next == st.forest.next + 1
      && r.forest.nodes[h].children == ExpandOnce(st.forest, parent).nodes[h].children + [st.forest.next]
      && r.forest.nodes[st.forest.next].symbol == Placeholder
  {
    var f := ExpandOnce(st.forest, parent);
    var added := AddChild(f, parent, cv, symbol);
    assert added.1 == Some(h) && SameShape(f, added.0);
  }

  /**
    The same child described twice under an expanded, live parent: as written, the
    second description adds another placeholder node.
  */
  lemma ExpandableAgainGrows(st: ListState, parent: Handle, cv: Value, symbol: string)
    requires StateOk(st) && parent in st.forest.nodes && FieldString(cv, "name").Some?
    requires st.forest.nodes[parent].hasBeenExpanded && Live(st.forest, parent)
    ensures var once := ExpandableChild(st, parent, cv, symbol);
      && parent in once.forest.nodes
      && ExpandableChild(once, parent, cv, symbol).forest.next == once.forest.next + 1
  {
    var once := ExpandableChild(st, parent, cv, symbol);
    var h := ExpandedFindsAgain(st, parent, cv, symbol);
    ExpandableFoundGrows(once, parent, cv, symbol, h);
  }

  /**
    After one typed child has been handled under an expanded, live parent, the parent
    is still expanded and a search for the child's id finds a node: the handle returned.
  */
  lemma ExpandedFindsAgain(st: ListState, parent: Handle, cv: Value, symbol: string) returns (h: Handle)
    requires StateOk(st) && parent in st.forest.nodes && FieldString(cv, "name").Some?
    requires st.forest.nodes[parent].hasBeenExpanded && Live(st.forest, parent)
    ensures var once := ExpandableChild(st, parent, cv, symbol);
      && parent in once.forest.nodes && once.forest.nodes[parent].hasBeenExpanded
      && Find(ExpandOnce(once.forest, parent), FieldString(cv, "name").value) == Some(h)
  {
    var id := FieldString(cv, "name").value;
    var added := AddChild(st.forest, parent, cv, symbol);
    AddChildLive(st.forest, parent, cv, symbol);
    var c := added.1.value;
    LiveAfterNullChild(added.0, c);
    var g := AppendNullChild(added.0, c);
    assert Live(g, c) && g.nodes[c].id == id;
    h := Find(g, id).value;
  }

  /**
    The corrected tree update: the placeholder goes only under a child attached just
    now, so a child already in the tree keeps the children it has.
  */
  function CorrectedExpandableForest(f: Forest, parent: Handle, cv: Value, symbol: string): (r: Forest)
    requires Watches.Valid(f) && parent in f.nodes
    ensures Watches.Valid(r) && Extends(f, r)
  {
    var added := AddChild(f, parent, cv, symbol);
    if added.1 == Some(f.next) then AppendNullChild(added.0, f.next) else added.0
  }

  /** The corrected step for a typed child with children. */
  function CorrectedExpandableChild(st: ListState, parent: Handle, cv: Value, symbol: string): (r: ListState)
    requires StateOk(st) && parent in st.forest.nodes
    ensures StateOk(r) && Grew(st, r) && r.issued == st.issued && r.pending == st.pending
  {
    var g := CorrectedExpandableForest(ExpandOnce(st.forest, parent), parent, cv, symbol);
    ForestGrows(st, g);
    st.(forest := g)
  }

  /** A child not yet in the tree is attached at the next handle, childless. */
  lemma AddChildNew(f: Forest, parent: Handle, cv: Value, symbol: string)
    requires Watches.Valid(f) && parent in f.nodes && FieldString(cv, "name").Some?
    requires Find(f, FieldString(cv, "name").value).None?
    ensures var added := AddChild(f, parent, cv, symbol);
      && added.1 == Some(f.next) && added.0.next == f.next + 1
      && f.next in added.0.nodes && added.0.nodes[f.next].children == []
  {
  }

  /** A placeholder appended under a childless node is its only child. */
  lemma PlaceholderUnder(g: Forest, c: Handle)
    requires Watches.Valid(g) && c in g.nodes && g.nodes[c].children == []
    ensures AppendNullChild(g, c).next == g.next + 1 && AppendNullChild(g, c).nodes[c].children == [g.next]
  {
  }

  /** The corrected update attaches a child not yet in the tree with a placeholder of its own. */
  lemma CorrectedExpandableNew(f: Forest, parent: Handle, cv: Value, symbol: string)
    requires Watches.Valid(f) && parent in f.nodes && FieldString(cv, "name").Some?
    requires Find(f, FieldString(cv, "name").value).None?
    ensures var r := CorrectedExpandableForest(f, parent, cv, symbol);
      && r.next == f.next + 2
      && f.next in r.nodes && r.nodes[f.next].children == [f.next + 1]
  {
    var added := AddChild(f, parent, cv, symbol);
    AddChildNew(f, parent, cv, symbol);
    PlaceholderUnder(added.0, f.next);
  }

  /** The corrected update adds no node for a child already in the tree. */
  lemma CorrectedExpandableFound(f: Forest, parent: Handle, cv: Value, symbol: string)
    requires Watches.Valid(f) && parent in f.nodes && FieldString(cv, "name").Some?
    requires Find(f, FieldString(cv, "name").value).Some?
    ensures var r := CorrectedExpandableForest(f, parent, cv, symbol);
      r.next == f.next && r.nodes.Keys == f.nodes.Keys
  {
    var added := AddChild(f, parent, cv, symbol);
    var h := Find(f, FieldString(cv, "name").value).value;
    assert h in f.nodes && h < f.next;
    assert added.1 == Some(h) && SameShape(f, added.0);
  }

  /**
    With the correction, reconciliation is idempotent in size: describing the same typed
    child a second time under an expanded, live parent adds no node.
  */
  lemma CorrectedExpandableAgain(st: ListState, parent: Handle, cv: Value, symbol: string)
    requires StateOk(st) && parent in st.forest.nodes && FieldString(cv, "name").Some?
    requires st.forest.nodes[parent].hasBeenExpanded && Live(st.forest, parent)
    ensures var once := CorrectedExpandableChild(st, parent, cv, symbol);
      && parent in once.forest.nodes
      && CorrectedExpandableChild(once, parent, cv, symbol).forest.next == once.forest.next
      && CorrectedExpandableChild(once, parent, cv, symbol).forest.nodes.Keys == once.forest.nodes.Keys
  {
    var id := FieldString(cv, "name").value;
    var once := CorrectedExpandableChild(st, parent, cv, symbol);
    var added := AddChild(st.forest, parent, cv, symbol);
    AddChildLive(st.forest, parent, cv, symbol);
    var c := added.1.value;
    if c == st.forest.next {
      LiveAfterNullChild(added.0, c);
    }
    assert Live(once.forest, c) && once.forest.nodes[c].id == id;
    assert once.forest.nodes[parent].hasBeenExpanded;
    assert Find(ExpandOnce(once.forest, parent), id).Some?;
    CorrectedExpandableFound(once.forest, parent, cv, symbol);
  }

  /** After a reply with children, no child of the parent is still marked for removal. */
  lemma ParseListSweeps(st: ListState, id: CommandId, value: Value, start: int, end: int)
    requires StateOk(st) && id in st.parents && Field(value, "children").Some?
    ensures var parent := st.parents[id]; var st' := ParseList(st, id, value, start, end).0;
      parent in st'.forest.nodes && forall c <- st'.forest.nodes[parent].children :: !st'.forest.nodes[c].removed
  {
    var parent := st.parents[id];
    var es := Entries(Field(value, "children").value);
    var w := ScanEntries(ListScan(st, ""), parent, es, |es|, DisplayHint(value), start, end);
    SweepKeepsUnmarked(w.st.forest, parent);
  }

  /** `ParseListCommand` succeeds exactly when no entry of the reply lacks a readable child count. */
  lemma ParseListResult(st: ListState, id: CommandId, value: Value, start: int, end: int)
    requires StateOk(st) && id in st.parents
    ensures var es := Entries(Field(value, "children").GetOr(Simple("")));
      ParseList(st, id, value, start, end).1 <==> forall k :: 0 <= k < |es| ==> !Faulty(es[k], k, DisplayHint(value))
  {
    var es := Entries(Field(value, "children").GetOr(Simple("")));
    AnyFaultyExists(es, |es|, DisplayHint(value));
  }

  /**
    A reply only grows the state: the tree keeps every node, earlier commands keep their
    parents, and the pending count grows by exactly the number of list commands the reply
    caused.
  */
  lemma ParseListGrows(st: ListState, id: CommandId, value: Value, start: int, end: int)
    requires StateOk(st)
    ensures Grew(st, ParseList(st, id, value, start, end).0)
  {
    if id !in st.parents {
      ForestGrows(st, st.forest);
    } else {
      match Field(value, "children")
      case None =>
        ForestGrows(st, st.forest);
      case Some(children) =>
        var parent := st.parents[id];
        var es := Entries(children);
        var w := ScanEntries(ListScan(st, ""), parent, es, |es|, DisplayHint(value), start, end);
        ScanGrows(ListScan(st, ""), parent, es, |es|, DisplayHint(value), start, end);
        ForestGrows(w.st, RemoveMarkedChildren(w.st.forest, parent));
        GrewTrans(st, w.st, w.st.(forest := RemoveMarkedChildren(w.st.forest, parent)));
    }
  }

  // ---------------------------------------------------------------------------------
  // The shared part of every watch action.

  class WatchBase {
    const core: ActionCore
    const tree: WatchStore.WatchTree
    /** `m_parent_map`: the watch each pending list command's children belong under. */
    var parentMap: map<CommandId, Handle>
    /** `m_sub_commands_left`: replies still awaited. */
    var pending: int
    /** `m_start`, `m_end`: the range of children to list, when both are above -1. */
    const rangeStart: int
    const rangeEnd: int

    function State(): ListState
      reads this, core, tree
    {
      ListState(tree.Snapshot(), core.issued, parentMap, pending)
    }

    ghost predicate Valid()
      reads this, core, tree
    {
      StateOk(State())
    }

    constructor (core: ActionCore, tree: WatchStore.WatchTree, rangeStart: int, rangeEnd: int)
      requires tree.Valid() && core.issued == []
      ensures Valid() && this.core == core && this.tree == tree
      ensures parentMap == map[] && pending == 0 && this.rangeStart == rangeStart && this.rangeEnd == rangeEnd
    {
      this.core := core;
      this.tree := tree;
      this.rangeStart := rangeStart;
      this.rangeEnd := rangeEnd;
      parentMap := map[];
      pending := 0;
    }

    /** `ExecuteListCommand(watch, parent)`: list `watch`'s children under `parent`, or under `watch` itself. */
    method ExecuteListCommand(watch: Handle, parent: Option<Handle>)
      requires Valid() && watch in tree.nodes && (parent.Some? ==> parent.value in tree.nodes)
      modifies this, core
      ensures State() == Issue(old(State()), tree.nodes[watch].id, parent.GetOr(watch), rangeStart, rangeEnd)
      ensures core.finishes == old(core.finishes) && core.refreshes == old(core.refreshes)
      ensures Valid()
    {
      var id := core.Execute(ListCommand(tree.nodes[watch].id, rangeStart, rangeEnd));
      parentMap := parentMap[id := parent.GetOr(watch)];
      pending := pending + 1;
    }

    /** `ExecuteListCommand(watch_id, parent)`: skipped when there is no parent. */
    method ExecuteListCommandById(watchId: string, parent: Option<Handle>)
      requires Valid() && (parent.Some? ==> parent.value in tree.nodes)
      modifies this, core
      ensures parent.None? ==> State() == old(State())
      ensures parent.Some? ==> State() == Issue(old(State()), watchId, parent.value, rangeStart, rangeEnd)
      ensures core.finishes == old(core.finishes) && core.refreshes == old(core.refreshes)
      ensures Valid()
    {
      if parent.None? {
        return;
      }
      var id := core.Execute(ListCommand(watchId, rangeStart, rangeEnd));
      parentMap := parentMap[id := parent.value];
      pending := pending + 1;
    }

    /** A child without grandchildren; see `LeafChild`. */
    method AddLeafChild(parent: Handle, cv: Value, dynamic: bool, symbol: string)
      requires Valid() && parent in tree.nodes
      modifies this, core, tree
      ensures State() == LeafChild(old(State()), parent, cv, dynamic, symbol, rangeStart, rangeEnd)
      ensures core.finishes == old(core.finishes) && core.refreshes == old(core.refreshes)
      ensures Valid()
    {
      tree.ExpandOnce(parent);
      var child := tree.AddChild(parent, cv, symbol);
      if child.Some? && dynamic {
        tree.Set(child.value, tree.nodes[child.value].(deleteOnCollapse := false));
        var name := FieldString(cv, "name");
        if name.Some? {
          ExecuteListCommandById(name.value, child);
        }
      }
    }

    /** A child with a type and grandchildren; see `ExpandableChild`. */
    method AddExpandableChild(parent: Handle, cv: Value, symbol: string)
      requires Valid() && parent in tree.nodes
      modifies tree
      ensures State() == ExpandableChild(old(State()), parent, cv, symbol)
      ensures Valid()
    {
      tree.ExpandOnce(parent);
      var child := tree.AddChild(parent, cv, symbol);
      if child.Some? {
        tree.AppendNullChild(child.value);
      }
    }

    /** A `child` entry that is neither a map key nor faulty; see `ChildStep`. */
    method HandleChild(parent: Handle, cv: Value, info: WatchInfo, symbol: string)
      requires Valid() && parent in tree.nodes
      modifies this, core, tree
      ensures State() == ChildStep(old(State()), parent, cv, info, symbol, rangeStart, rangeEnd)
      ensures core.finishes == old(core.finishes) && core.refreshes == old(core.refreshes)
      ensures Valid()
    {
      if info.dynamic && info.hasMore {
        ExecuteListCommandById(FieldString(cv, "name").GetOr(""), Some(parent));
      } else if info.childrenCount == 0 {
        AddLeafChild(parent, cv, info.dynamic, symbol);
      } else if FieldString(cv, "type").Some? {
        AddExpandableChild(parent, cv, symbol);
      } else {
        var name := FieldString(cv, "name");
        if name.Some? {
          ExecuteListCommandById(name.value, Some(parent));
        }
      }
    }

    /** One entry of a `children` list. */
    method ParseEntry(parent: Handle, ii: nat, e: Member, hint: Hint, error: bool, mapKey: string)
      returns (error': bool, mapKey': string)
      requires Valid() && parent in tree.nodes
      modifies this, core, tree
      ensures parent in tree.nodes
      ensures ListScan(State(), mapKey') == EntryStep(ListScan(old(State()), mapKey), parent, ii, e, hint, rangeStart, rangeEnd)
      ensures error' == (error || Faulty(e, ii, hint))
      ensures core.finishes == old(core.finishes) && core.refreshes == old(core.refreshes)
      ensures Valid()
    {
      error', mapKey' := error, mapKey;
      if e.name != "child" {
        return;
      }
      var cv := e.value;
      var info := ParseWatchInfo(cv);
      if hint == MapHint && ii % 2 == 0 {
        mapKey' := FieldString(cv, "value").GetOr("");
      } else if !(info.dynamic && info.hasMore) && info.childrenCount == -1 {
        error' := true;
      } else {
        HandleChild(parent, cv, info, Symbol(cv, hint, mapKey));
      }
    }

    /** After the first `ii` entries of `es`: the state and key the walk from `w0` reaches, and whether one was faulty. */
    ghost predicate Scanned(parent: Handle, es: seq<Member>, ii: nat, hint: Hint, w0: ListScan, mapKey: string, error: bool)
      reads this, core, tree
    {
      && ii <= |es| && StateOk(w0.st) && parent in w0.st.forest.nodes
      && ListScan(State(), mapKey) == ScanEntries(w0, parent, es, ii, hint, rangeStart, rangeEnd)
      && error == AnyFaulty(es, ii, hint)
    }

    /** One turn of the loop of `ScanChildren`. */
    method ScanStep(parent: Handle, es: seq<Member>, ii: nat, hint: Hint, error: bool, mapKey: string, ghost w0: ListScan)
      returns (error': bool, mapKey': string)
      requires ii < |es| && Scanned(parent, es, ii, hint, w0, mapKey, error)
      modifies this, core, tree
      ensures Scanned(parent, es, ii + 1, hint, w0, mapKey', error')
      ensures core.finishes == old(core.finishes) && core.refreshes == old(core.refreshes)
    {
      error', mapKey' := ParseEntry(parent, ii, es[ii], hint, error, mapKey);
    }

    /** The loop of `ParseListCommand`: every entry is handled, whatever the ones before it did. */
    method ScanLoop(parent: Handle, es: seq<Member>, hint: Hint, ghost w0: ListScan) returns (error: bool, mapKey: string)
      requires Scanned(parent, es, 0, hint, w0, "", false)
      modifies this, core, tree
      ensures Scanned(parent, es, |es|, hint, w0, mapKey, error)
      ensures core.finishes == old(core.finishes) && core.refreshes == old(core.refreshes)
    {
      mapKey := "";
      error := false;
      var ii := 0;
      while ii < |es|
        invariant ii <= |es| && Scanned(parent, es, ii, hint, w0, mapKey, error)
        invariant core.finishes == old(core.finishes) && core.refreshes == old(core.refreshes)
      {
        error, mapKey := ScanStep(parent, es, ii, hint, error, mapKey, w0);
        ii := ii + 1;
      }
    }

    /** The walk over the entries of a `children` list, from the current state. */
    method ScanChildren(parent: Handle, es: seq<Member>, hint: Hint) returns (error: bool)
      requires Valid() && parent in tree.nodes
      modifies this, core, tree
      ensures parent in tree.nodes
      ensures ListScan(State(), "").st == ScanEntries(ListScan(old(State()), ""), parent, es, |es|, hint, rangeStart, rangeEnd).st
      ensures error == AnyFaulty(es, |es|, hint)
      ensures core.finishes == old(core.finishes) && core.refreshes == old(core.refreshes)
      ensures Valid()
    {
      ghost var w0 := ListScan(State(), "");
      var mapKey;
      error, mapKey := ScanLoop(parent, es, hint, w0);
    }

    /** `ParseListCommand`: see `ParseList`. */
    method ParseListCommand(id: CommandId, value: Value) returns (ok: bool)
      requires Valid()
      modifies this, core, tree
      ensures State() == ParseList(old(State()), id, value, rangeStart, rangeEnd).0
      ensures ok == ParseList(old(State()), id, value, rangeStart, rangeEnd).1
      ensures core.finishes == old(core.finishes) && core.refreshes == old(core.refreshes)
      ensures Valid()
    {
      if id !in parentMap {
        return false;
      }
      var hint := DisplayHint(value);
      var children := Field(value, "children");
      if children.None? {
        return true;
      }
      var parent := parentMap[id];
      var es := Entries(children.value);
      var error := ScanChildren(parent, es, hint);
      tree.RemoveMarkedChildren(parent);
      ok := !error;
    }
  }
}
