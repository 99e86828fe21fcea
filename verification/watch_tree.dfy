/**
  The watch tree: every watch node the debugger plugin holds, in an arena.

  A watch node is addressed by a `Handle` (its identity as an object); its `id` is the
  name the debugger gave its variable object (`var1`, `var1.public.x`), empty until the
  create reply arrives.  A node owns its children by handle.  The container of
  top-level watches is `roots`.  A child is always a freshly allocated node, so every
  child's handle is larger than its parent's; this is what bounds every walk over the
  tree.  A node taken out of its parent's child list stays in the arena (an action may
  still hold it), but no walk from the roots reaches it any more.

  Each operation is a function on a `Forest` value; `WatchTree` is the mutable
  container whose methods perform the same operations in place.
*/
module Watches {
  import opened Reply

  type Handle = nat

  datatype Watch = Watch(
    id: string,
    symbol: string,
    value: string,
    typ: string,
    children: seq<Handle>,
    forTooltip: bool,
    expanded: bool,
    hasBeenExpanded: bool,
    deleteOnCollapse: bool,
    changed: bool,
    removed: bool)

  /** A watch as constructed: no id, value or type yet, no children, nothing marked. */
  function NewWatch(symbol: string, forTooltip: bool, deleteOnCollapse: bool): Watch {
    Watch("", symbol, "", "", [], forTooltip, false, false, deleteOnCollapse, false, false)
  }

  /** The text of the placeholder child that shows a watch can be expanded. */
  const Placeholder: string := "updating..."

  datatype Forest = Forest(nodes: map<Handle, Watch>, roots: seq<Handle>, next: Handle)

  /** Every child of `h` is a node allocated after `h`. */
  predicate ChildrenAfter(f: Forest, h: Handle)
    requires h in f.nodes
  {
    forall c <- f.nodes[h].children :: c in f.nodes && h < c
  }

  predicate Valid(f: Forest) {
    && (forall h :: h in f.nodes ==> h < f.next && ChildrenAfter(f, h))
    && (forall h <- f.roots :: h in f.nodes)
  }

  /** Storing a node whose children are allocated after it keeps the arena well formed. */
  lemma PutValid(f: Forest, h: Handle, w: Watch, n: Handle)
    requires Valid(f) && f.next <= n && h < n
    requires forall c <- w.children :: c in f.nodes && h < c
    ensures Valid(Forest(f.nodes[h := w], f.roots, n))
  {
    var g := Forest(f.nodes[h := w], f.roots, n);
    forall k | k in g.nodes
      ensures k < g.next && ChildrenAfter(g, k)
    {
      if k != h {
        assert g.nodes[k] == f.nodes[k];
        assert ChildrenAfter(f, k);
      }
    }
  }

  /** Two forests with the same handles, ids and child lists. */
  predicate SameShape(f: Forest, g: Forest) {
    && f.roots == g.roots && f.next == g.next && f.nodes.Keys == g.nodes.Keys
    && (forall h :: h in f.nodes ==> f.nodes[h].id == g.nodes[h].id && f.nodes[h].children == g.nodes[h].children)
  }

  lemma ShapeValid(f: Forest, g: Forest)
    requires Valid(f) && SameShape(f, g)
    ensures Valid(g)
  {
    forall k | k in g.nodes
      ensures k < g.next && ChildrenAfter(g, k)
    {
      assert ChildrenAfter(f, k);
    }
  }

  // ---------------------------------------------------------------------------------
  // Walking the tree.

  /** The nodes below `hs` (and `hs` themselves), each subtree in pre-order. */
  function OrderFrom(f: Forest, hs: seq<Handle>, lo: nat): (r: seq<Handle>)
    requires Valid(f) && lo <= f.next
    requires forall h <- hs :: h in f.nodes && lo <= h
    ensures forall x <- r :: x in f.nodes && lo <= x
    ensures forall h <- hs :: h in r
    decreases f.next - lo, 1, |hs|
  {
    if hs == [] then []
    else
      assert forall h <- hs[1..] :: h in hs;
      OrderAt(f, hs[0]) + OrderFrom(f, hs[1..], lo)
  }

  /** `h` followed by everything below it, in pre-order. */
  function OrderAt(f: Forest, h: Handle): (r: seq<Handle>)
    requires Valid(f) && h in f.nodes
    ensures forall x <- r :: x in f.nodes && h <= x
    ensures |r| >= 1 && r[0] == h
    decreases f.next - h, 0
  {
    [h] + OrderFrom(f, f.nodes[h].children, h + 1)
  }

  /** Every node reachable from the container, in the order a depth-first search visits them. */
  function Order(f: Forest): (r: seq<Handle>)
    requires Valid(f)
    ensures forall x <- r :: x in f.nodes
  {
    OrderFrom(f, f.roots, 0)
  }

  /** A node is live when the container reaches it. */
  predicate Live(f: Forest, h: Handle)
    requires Valid(f)
  {
    h in Order(f)
  }

  function FirstWithId(f: Forest, hs: seq<Handle>, id: string): (r: Option<Handle>)
    requires forall h <- hs :: h in f.nodes
    ensures r.Some? ==> r.value in hs && f.nodes[r.value].id == id
    ensures r.None? ==> forall h <- hs :: f.nodes[h].id != id
  {
    if hs == [] then None
    else if f.nodes[hs[0]].id == id then Some(hs[0])
    else FirstWithId(f, hs[1..], id)
  }

  /** `FindWatch`: the first live node, in depth-first order, whose id is `id`. */
  function Find(f: Forest, id: string): (r: Option<Handle>)
    requires Valid(f)
    ensures r.Some? ==> Live(f, r.value) && f.nodes[r.value].id == id
    ensures r.None? ==> forall h :: Live(f, h) ==> f.nodes[h].id != id
  {
    FirstWithId(f, Order(f), id)
  }

  // ---------------------------------------------------------------------------------
  // Operations on one node.

  /** Replaces what a node holds, keeping its children. */
  function Update(f: Forest, h: Handle, w: Watch): (r: Forest)
    requires Valid(f) && h in f.nodes && w.children == f.nodes[h].children
    ensures Valid(r) && Extends(f, r)
    ensures r.nodes == f.nodes[h := w]
  {
    assert ChildrenAfter(f, h);
    PutValid(f, h, w, f.next);
    f.(nodes := f.nodes[h := w])
  }

  /** Replacing a node by one with the same id and children keeps the shape of the tree. */
  lemma UpdateSameShape(f: Forest, h: Handle, w: Watch)
    requires Valid(f) && h in f.nodes && w.children == f.nodes[h].children
    ensures SameShape(f, Update(f, h, w)) <==> w.id == f.nodes[h].id
  {
  }

  /** A fresh childless node appended to `parent`'s children (`cbWatch::AddChild`). */
  function Attach(f: Forest, parent: Handle, w: Watch): (r: Forest)
    requires Valid(f) && parent in f.nodes && w.children == []
    ensures Valid(r) && Extends(f, r) && r.next == f.next + 1
    ensures f.next in r.nodes && r.nodes[f.next] == w && r.nodes[parent].children == f.nodes[parent].children + [f.next]
    ensures r.nodes[parent] == f.nodes[parent].(children := f.nodes[parent].children + [f.next])
    ensures forall h :: h in f.nodes && h != parent ==> r.nodes[h] == f.nodes[h]
    ensures r.nodes.Keys == f.nodes.Keys + {f.next} && r.roots == f.roots
  {
    var p := f.nodes[parent];
    var g := Forest(f.nodes[f.next := w], f.roots, f.next + 1);
    PutValid(f, f.next, w, f.next + 1);
    assert ChildrenAfter(f, parent);
    PutValid(g, parent, p.(children := p.children + [f.next]), f.next + 1);
    g.(nodes := g.nodes[parent := p.(children := p.children + [f.next])])
  }

  /** A new top-level watch. */
  function AddRoot(f: Forest, w: Watch): (r: Forest)
    requires Valid(f) && w.children == []
    ensures Valid(r) && r.roots == f.roots + [f.next] && r.nodes == f.nodes[f.next := w] && r.next == f.next + 1
  {
    PutValid(f, f.next, w, f.next + 1);
    f.(nodes := f.nodes[f.next := w], roots := f.roots + [f.next], next := f.next + 1)
  }

  function RemoveChildren(f: Forest, h: Handle): (r: Forest)
    requires Valid(f) && h in f.nodes
    ensures Valid(r) && Extends(f, r) && r.nodes[h].children == []
    ensures r.nodes == f.nodes[h := f.nodes[h].(children := [])]
  {
    PutValid(f, h, f.nodes[h].(children := []), f.next);
    f.(nodes := f.nodes[h := f.nodes[h].(children := [])])
  }

  /** `AppendNullChild`: one `updating...` child that shows the watch can be expanded. */
  function AppendNullChild(f: Forest, h: Handle): (r: Forest)
    requires Valid(f) && h in f.nodes
    ensures Valid(r) && Extends(f, r) && r.next == f.next + 1
    ensures r.nodes[h].children == f.nodes[h].children + [f.next]
    ensures f.next in r.nodes && r.nodes[f.next].symbol == Placeholder && r.nodes[f.next].children == []
    ensures forall k :: k in f.nodes && k != h ==> r.nodes[k] == f.nodes[k]
  {
    Attach(f, h, NewWatch(Placeholder, f.nodes[h].forTooltip, true))
  }

  /** The nodes with those of `cs` marked for removal. */
  function MarkAll(nodes: map<Handle, Watch>, cs: seq<Handle>): (m: map<Handle, Watch>)
    ensures m.Keys == nodes.Keys
    ensures forall k :: k in nodes ==> m[k] == nodes[k].(removed := nodes[k].removed || k in cs)
  {
    map k | k in nodes :: if k in cs then nodes[k].(removed := true) else nodes[k]
  }

  /** `MarkChildsAsRemoved`: every direct child of `h` marked for removal, and nothing else changed. */
  function MarkChildrenRemoved(f: Forest, h: Handle): (r: Forest)
    requires Valid(f) && h in f.nodes
    ensures Valid(r) && SameShape(f, r) && Extends(f, r)
    ensures forall k :: k in f.nodes ==> r.nodes[k] == f.nodes[k].(removed := f.nodes[k].removed || k in f.nodes[h].children)
  {
    var r := f.(nodes := MarkAll(f.nodes, f.nodes[h].children));
    ShapeValid(f, r);
    r
  }

  function Unmarked(f: Forest, cs: seq<Handle>): (r: seq<Handle>)
    requires forall c <- cs :: c in f.nodes
    ensures forall c <- r :: c in cs && !f.nodes[c].removed
    ensures forall c <- cs :: !f.nodes[c].removed ==> c in r
  {
    if cs == [] then []
    else if f.nodes[cs[0]].removed then Unmarked(f, cs[1..])
    else [cs[0]] + Unmarked(f, cs[1..])
  }

  /** `RemoveMarkedChildren`: the direct children of `h` still marked for removal are dropped. */
  function RemoveMarkedChildren(f: Forest, h: Handle): (r: Forest)
    requires Valid(f) && h in f.nodes
    ensures Valid(r) && Extends(f, r)
  {
    var w := f.nodes[h];
    assert ChildrenAfter(f, h);
    PutValid(f, h, w.(children := Unmarked(f, w.children)), f.next);
    f.(nodes := f.nodes[h := w.(children := Unmarked(f, w.children))])
  }

  /** `MarkAsChangedRecursive(false)` on every top-level watch. */
  function ClearChanged(f: Forest): (r: Forest)
    requires Valid(f)
    ensures Valid(r) && SameShape(f, r) && Extends(f, r)
  {
    var live := Order(f);
    var r := f.(nodes := map k | k in f.nodes :: if k in live then f.nodes[k].(changed := false) else f.nodes[k]);
    ShapeValid(f, r);
    r
  }

  /** `ParseWatchValueID`: the reply's `name`, `value` and `type`, where present, copied into `w`. */
  function ParseValueId(w: Watch, v: Value): Watch {
    w.(id := FieldString(v, "name").GetOr(w.id),
       value := FieldString(v, "value").GetOr(w.value),
       typ := FieldString(v, "type").GetOr(w.typ))
  }

  /**
    The first time a list of children arrives for a watch, the watch is marked expanded
    and its placeholder children are dropped; later lists leave it alone.
  */
  function ExpandOnce(f: Forest, h: Handle): (r: Forest)
    requires Valid(f) && h in f.nodes
    ensures Valid(r) && Extends(f, r) && r.nodes[h].hasBeenExpanded
    ensures r.next == f.next && r.nodes.Keys == f.nodes.Keys
    ensures f.nodes[h].hasBeenExpanded ==> r == f
    ensures !f.nodes[h].hasBeenExpanded ==> r.nodes[h].children == []
  {
    if f.nodes[h].hasBeenExpanded then f
    else RemoveChildren(Update(f, h, f.nodes[h].(hasBeenExpanded := true)), h)
  }

  /** An existing child described again: new value and type where given, no longer marked. */
  function Refreshed(w: Watch, cv: Value): Watch {
    w.(value := FieldString(cv, "value").GetOr(w.value),
       typ := FieldString(cv, "type").GetOr(w.typ),
       removed := false)
  }

  /**
    `AddChild`: materialise or refresh the child a list-children entry describes.  Without
    a `name` nothing happens.  A live node that already has that id only takes the new
    value and type; otherwise a new node labelled `symbol` is attached to `parent`.
    Either way the child is no longer marked for removal.
  */
  function AddChild(f: Forest, parent: Handle, cv: Value, symbol: string): (r: (Forest, Option<Handle>))
    requires Valid(f) && parent in f.nodes
    ensures Valid(r.0) && Extends(f, r.0)
    ensures r.1.Some? ==> r.1.value in r.0.nodes && !r.0.nodes[r.1.value].removed
    ensures FieldString(cv, "name").None? ==> r == (f, None)
    ensures FieldString(cv, "name").Some? && Find(f, FieldString(cv, "name").value).Some? ==>
      var h := Find(f, FieldString(cv, "name").value).value;
      && r.1 == Some(h) && SameShape(f, r.0)
      && r.0.nodes[h] == f.nodes[h].(value := r.0.nodes[h].value, typ := r.0.nodes[h].typ, removed := false)
      && (FieldString(cv, "value").Some? ==> r.0.nodes[h].value == FieldString(cv, "value").value)
      && (FieldString(cv, "type").Some? ==> r.0.nodes[h].typ == FieldString(cv, "type").value)
      && (FieldString(cv, "value").None? ==> r.0.nodes[h].value == f.nodes[h].value)
      && (FieldString(cv, "type").None? ==> r.0.nodes[h].typ == f.nodes[h].typ)
      && (forall k :: k in f.nodes && k != h ==> r.0.nodes[k] == f.nodes[k])
    ensures FieldString(cv, "name").Some? && Find(f, FieldString(cv, "name").value).None? ==>
      && r.1 == Some(f.next) && r.0.roots == f.roots && r.0.next == f.next + 1
      && r.0.nodes.Keys == f.nodes.Keys + {f.next}
      && r.0.nodes[parent].children == f.nodes[parent].children + [f.next]
      && r.0.nodes[f.next].id == FieldString(cv, "name").value && r.0.nodes[f.next].symbol == symbol
      && r.0.nodes[f.next].value == FieldString(cv, "value").GetOr("")
      && r.0.nodes[f.next].typ == FieldString(cv, "type").GetOr("")
      && r.0.nodes[f.next].children == [] && r.0.nodes[f.next].forTooltip == f.nodes[parent].forTooltip
      && r.0.nodes[f.next] == NewChild(f, parent, cv, symbol)
      && r.0.nodes[parent] == f.nodes[parent].(children := f.nodes[parent].children + [f.next])
      && (forall k :: k in f.nodes && k != parent ==> r.0.nodes[k] == f.nodes[k])
  {
    match FieldString(cv, "name")
    case None => (f, None)
    case Some(id) =>
      match Find(f, id)
      case Some(h) =>
        (Update(f, h, Refreshed(f.nodes[h], cv)), Some(h))
      case None =>
        (Attach(f, parent, NewChild(f, parent, cv, symbol)), Some(f.next))
  }

  // ---------------------------------------------------------------------------------
  // Properties.

  /** Nodes only ever join the arena; the container and existing handles stay. */
  predicate Extends(f: Forest, g: Forest) {
    && g.roots == f.roots
    && f.next <= g.next
    && (forall h :: h in f.nodes ==> h in g.nodes)
  }

  lemma {:induction false} OrderFromSameShape(f: Forest, g: Forest, hs: seq<Handle>, lo: nat)
    requires Valid(f) && Valid(g) && SameShape(f, g) && lo <= f.next
    requires forall h <- hs :: h in f.nodes && lo <= h
    ensures OrderFrom(f, hs, lo) == OrderFrom(g, hs, lo)
    decreases f.next - lo, 1, |hs|
  {
    if hs != [] {
      assert hs[0] in hs;
      OrderAtSameShape(f, g, hs[0]);
      OrderFromSameShape(f, g, hs[1..], lo);
    }
  }

  lemma {:induction false} OrderAtSameShape(f: Forest, g: Forest, h: Handle)
    requires Valid(f) && Valid(g) && SameShape(f, g) && h in f.nodes
    ensures OrderAt(f, h) == OrderAt(g, h)
    decreases f.next - h, 0
  {
    OrderFromSameShape(f, g, f.nodes[h].children, h + 1);
  }

  /** Searching depends only on ids and the shape of the tree, not on values, types or flags. */
  lemma FindSameShape(f: Forest, g: Forest, id: string)
    requires Valid(f) && Valid(g) && SameShape(f, g)
    ensures Find(f, id) == Find(g, id)
  {
    OrderFromSameShape(f, g, f.roots, 0);
    FirstWithIdSameIds(f, g, Order(f), id);
  }

  lemma {:induction false} FirstWithIdSameIds(f: Forest, g: Forest, hs: seq<Handle>, id: string)
    requires forall h <- hs :: h in f.nodes && h in g.nodes && f.nodes[h].id == g.nodes[h].id
    ensures FirstWithId(f, hs, id) == FirstWithId(g, hs, id)
  {
    if hs != [] {
      FirstWithIdSameIds(f, g, hs[1..], id);
    }
  }

  lemma {:induction false} OrderFromAttach(f: Forest, parent: Handle, w: Watch, hs: seq<Handle>, lo: nat)
    requires Valid(f) && parent in f.nodes && w.children == [] && lo <= f.next
    requires forall h <- hs :: h in f.nodes && lo <= h
    ensures forall x :: x in OrderFrom(Attach(f, parent, w), hs, lo) <==>
      x in OrderFrom(f, hs, lo) || (x == f.next && parent in OrderFrom(f, hs, lo))
    decreases f.next - lo, 1, |hs|
  {
    if hs != [] {
      assert hs[0] in hs;
      OrderAtAttach(f, parent, w, hs[0]);
      OrderFromAttach(f, parent, w, hs[1..], lo);
    }
  }

  lemma {:induction false} OrderAtAttach(f: Forest, parent: Handle, w: Watch, h: Handle)
    requires Valid(f) && parent in f.nodes && w.children == [] && h in f.nodes
    ensures forall x :: x in OrderAt(Attach(f, parent, w), h) <==>
      x in OrderAt(f, h) || (x == f.next && parent in OrderAt(f, h))
    decreases f.next - h, 0
  {
    var g := Attach(f, parent, w);
    var cs := f.nodes[h].children;
    OrderFromAttach(f, parent, w, cs, h + 1);
    if h == parent {
      OrderFromAppend(g, cs, f.next, h + 1);
      assert OrderAt(g, f.next) == [f.next] by {
        assert OrderFrom(g, [], f.next + 1) == [];
      }
    }
  }

  lemma {:induction false} OrderFromAppend(f: Forest, hs: seq<Handle>, c: Handle, lo: nat)
    requires Valid(f) && lo <= f.next && c in f.nodes && lo <= c
    requires forall h <- hs :: h in f.nodes && lo <= h
    ensures OrderFrom(f, hs + [c], lo) == OrderFrom(f, hs, lo) + OrderAt(f, c)
  {
    if hs == [] {
      assert [c][1..] == [];
    } else {
      assert (hs + [c])[1..] == hs[1..] + [c];
      OrderFromAppend(f, hs[1..], c, lo);
    }
  }

  /** Attaching a child to a live parent makes exactly that child live as well. */
  lemma LiveAfterAttach(f: Forest, parent: Handle, w: Watch)
    requires Valid(f) && parent in f.nodes && w.children == [] && Live(f, parent)
    ensures forall x :: Live(Attach(f, parent, w), x) <==> Live(f, x) || x == f.next
  {
    OrderFromAttach(f, parent, w, f.roots, 0);
  }

  /** A child attached under a live parent, with an id no live node had, is what a search for that id finds. */
  lemma FindAttached(f: Forest, parent: Handle, w: Watch)
    requires Valid(f) && parent in f.nodes && w.children == [] && Live(f, parent)
    requires Find(f, w.id) == None
    ensures Find(Attach(f, parent, w), w.id) == Some(f.next)
  {
    var g := Attach(f, parent, w);
    LiveAfterAttach(f, parent, w);
    forall y | Live(g, y) && y != f.next
      ensures g.nodes[y].id != w.id
    {
      assert Live(f, y);
      assert g.nodes[y].id == f.nodes[y].id;
    }
    assert Live(g, f.next);
  }

  /** The node `AddChild` creates when the described child is not found. */
  function NewChild(f: Forest, parent: Handle, cv: Value, symbol: string): Watch
    requires parent in f.nodes
  {
    ParseValueId(NewWatch(symbol, f.nodes[parent].forTooltip, true), cv)
  }

  lemma AddChildAgainFound(f: Forest, parent: Handle, cv: Value, symbol: string, id: string, h: Handle)
    requires Valid(f) && parent in f.nodes
    requires FieldString(cv, "name") == Some(id) && Find(f, id) == Some(h)
    ensures var f1 := Update(f, h, Refreshed(f.nodes[h], cv));
      AddChild(f, parent, cv, symbol) == (f1, Some(h)) && AddChild(f1, parent, cv, symbol) == (f1, Some(h))
  {
    var w := Refreshed(f.nodes[h], cv);
    var f1 := Update(f, h, w);
    UpdateSameShape(f, h, w);
    FindSameShape(f, f1, id);
    assert Refreshed(w, cv) == w;
    assert f1.nodes[h := w] == f1.nodes;
  }

  lemma AddChildAgainNew(f: Forest, parent: Handle, cv: Value, symbol: string, id: string)
    requires Valid(f) && parent in f.nodes && Live(f, parent)
    requires FieldString(cv, "name") == Some(id) && Find(f, id) == None
    ensures var f1 := Attach(f, parent, NewChild(f, parent, cv, symbol));
      AddChild(f, parent, cv, symbol) == (f1, Some(f.next)) && AddChild(f1, parent, cv, symbol) == (f1, Some(f.next))
  {
    var w := NewChild(f, parent, cv, symbol);
    var f1 := Attach(f, parent, w);
    FindAttached(f, parent, w);
    assert Refreshed(w, cv) == w;
    assert f1.nodes[f.next := w] == f1.nodes;
  }

  /**
    Refreshing a child is idempotent: describing the same child to the same live parent
    a second time finds the node the first call produced and changes nothing.
  */
  lemma AddChildIdempotent(f: Forest, parent: Handle, cv: Value, symbol: string)
    requires Valid(f) && parent in f.nodes && Live(f, parent)
    ensures parent in AddChild(f, parent, cv, symbol).0.nodes
    ensures AddChild(AddChild(f, parent, cv, symbol).0, parent, cv, symbol) == AddChild(f, parent, cv, symbol)
  {
    match FieldString(cv, "name")
    case None =>
    case Some(id) =>
      match Find(f, id)
      case Some(h) => AddChildAgainFound(f, parent, cv, symbol, id, h);
      case None => AddChildAgainNew(f, parent, cv, symbol, id);
  }

  /**
    Under a live parent, the child `AddChild` returns for a named entry is live and has
    the entry's id, and the parent stays live with its expansion flag unchanged.
  */
  lemma AddChildLive(f: Forest, parent: Handle, cv: Value, symbol: string)
    requires Valid(f) && parent in f.nodes && Live(f, parent) && FieldString(cv, "name").Some?
    ensures var r := AddChild(f, parent, cv, symbol);
      && r.1.Some? && Live(r.0, r.1.value) && r.0.nodes[r.1.value].id == FieldString(cv, "name").value
      && Live(r.0, parent) && r.0.nodes[parent].hasBeenExpanded == f.nodes[parent].hasBeenExpanded
  {
    var id := FieldString(cv, "name").value;
    match Find(f, id)
    case Some(h) =>
      var g := Update(f, h, Refreshed(f.nodes[h], cv));
      UpdateSameShape(f, h, Refreshed(f.nodes[h], cv));
      OrderFromSameShape(f, g, f.roots, 0);
    case None =>
      LiveAfterAttach(f, parent, NewChild(f, parent, cv, symbol));
  }

  /** Appending a placeholder under a live node keeps every live node live, and every node but that one as it was. */
  lemma LiveAfterNullChild(f: Forest, h: Handle)
    requires Valid(f) && h in f.nodes && Live(f, h)
    ensures var g := AppendNullChild(f, h);
      && (forall x :: Live(f, x) ==> Live(g, x))
      && g.next == f.next + 1 && g.nodes[h].children == f.nodes[h].children + [f.next]
      && g.nodes[f.next].symbol == Placeholder
      && (forall k :: k in f.nodes && k != h ==> g.nodes[k] == f.nodes[k])
      && g.nodes[h].hasBeenExpanded == f.nodes[h].hasBeenExpanded
  {
    LiveAfterAttach(f, h, NewWatch(Placeholder, f.nodes[h].forTooltip, true));
  }

  /**
    After a sweep no child of the swept node is marked, every unmarked child is kept in
    order, and no other node and nothing else of the tree changes.
  */
  lemma SweepKeepsUnmarked(f: Forest, h: Handle)
    requires Valid(f) && h in f.nodes
    ensures var g := RemoveMarkedChildren(f, h);
      && g.nodes[h].children == Unmarked(f, f.nodes[h].children)
      && (forall c <- g.nodes[h].children :: !g.nodes[c].removed)
      && g.nodes == f.nodes[h := f.nodes[h].(children := Unmarked(f, f.nodes[h].children))]
      && g.roots == f.roots && g.next == f.next
  {
    var g := RemoveMarkedChildren(f, h);
    forall c <- g.nodes[h].children
      ensures !g.nodes[c].removed
    {
      assert c in f.nodes[h].children;
      assert c != h;
    }
  }

  /**
    After clearing, no watch the container reaches is marked changed; every node differs
    at most in its change mark, and a node the container does not reach keeps it.
  */
  lemma ClearChangedClears(f: Forest)
    requires Valid(f)
    ensures var g := ClearChanged(f);
      && SameShape(f, g)
      && (forall h :: Live(g, h) ==> !g.nodes[h].changed)
      && (forall k :: k in f.nodes ==> g.nodes[k] == f.nodes[k].(changed := g.nodes[k].changed))
      && (forall k :: k in f.nodes && !Live(f, k) ==> g.nodes[k] == f.nodes[k])
  {
    var g := ClearChanged(f);
    OrderFromSameShape(f, g, f.roots, 0);
  }
}

/** The container of watches, updated in place by the actions. */
module WatchStore {
  import opened Reply
  import Watches
  type Handle = Watches.Handle
  type Watch = Watches.Watch
  type Forest = Watches.Forest

  class WatchTree {
    var nodes: map<Handle, Watch>
    var roots: seq<Handle>
    var next: Handle

    function Snapshot(): Forest
      reads this
    {
      Watches.Forest(nodes, roots, next)
    }

    ghost predicate Valid()
      reads this
    {
      Watches.Valid(Snapshot())
    }

    constructor ()
      ensures Valid() && nodes == map[] && roots == [] && next == 0
    {
      nodes, roots, next := map[], [], 0;
    }

    /** Adds a top-level watch for `symbol` (done by the plugin when the user adds a watch). */
    method AddWatch(symbol: string, forTooltip: bool) returns (h: Handle)
      requires Valid()
      modifies this
      ensures Snapshot() == Watches.AddRoot(old(Snapshot()), Watches.NewWatch(symbol, forTooltip, true))
      ensures h == old(next) && h in nodes
      ensures Valid()
    {
      h := next;
      nodes := nodes[h := Watches.NewWatch(symbol, forTooltip, true)];
      roots := roots + [h];
      next := next + 1;
    }

    /** Changes what node `h` holds (its value, type, flags), keeping its children. */
    method Set(h: Handle, w: Watch)
      requires Valid() && h in nodes && w.children == nodes[h].children
      modifies this
      ensures Snapshot() == Watches.Update(old(Snapshot()), h, w)
      ensures Valid()
    {
      nodes := nodes[h := w];
    }

    method ExpandOnce(h: Handle)
      requires Valid() && h in nodes
      modifies this
      ensures Snapshot() == Watches.ExpandOnce(old(Snapshot()), h)
      ensures Valid()
    {
      if !nodes[h].hasBeenExpanded {
        Set(h, nodes[h].(hasBeenExpanded := true));
        RemoveChildren(h);
      }
    }

    method RemoveChildren(h: Handle)
      requires Valid() && h in nodes
      modifies this
      ensures Snapshot() == Watches.RemoveChildren(old(Snapshot()), h)
      ensures Valid()
    {
      nodes := nodes[h := nodes[h].(children := [])];
    }

    method AppendNullChild(h: Handle)
      requires Valid() && h in nodes
      modifies this
      ensures Snapshot() == Watches.AppendNullChild(old(Snapshot()), h)
      ensures Valid()
    {
      var p := nodes[h];
      nodes := nodes[next := Watches.NewWatch(Watches.Placeholder, p.forTooltip, true)][h := p.(children := p.children + [next])];
      next := next + 1;
    }

    method MarkChildrenRemoved(h: Handle)
      requires Valid() && h in nodes
      modifies this
      ensures Snapshot() == Watches.MarkChildrenRemoved(old(Snapshot()), h)
      ensures Valid()
    {
      var cs := nodes[h].children;
      nodes := map k | k in nodes :: if k in cs then nodes[k].(removed := true) else nodes[k];
    }

    method RemoveMarkedChildren(h: Handle)
      requires Valid() && h in nodes
      modifies this
      ensures Snapshot() == Watches.RemoveMarkedChildren(old(Snapshot()), h)
      ensures Valid()
    {
      var w := nodes[h];
      nodes := nodes[h := w.(children := Watches.Unmarked(Snapshot(), w.children))];
    }

    method ClearChanged()
      requires Valid()
      modifies this
      ensures Snapshot() == Watches.ClearChanged(old(Snapshot()))
      ensures Valid()
    {
      var live := Watches.Order(Snapshot());
      nodes := map k | k in nodes :: if k in live then nodes[k].(changed := false) else nodes[k];
    }

    method AddChild(parent: Handle, cv: Value, symbol: string) returns (child: Option<Handle>)
      requires Valid() && parent in nodes
      modifies this
      ensures Snapshot() == Watches.AddChild(old(Snapshot()), parent, cv, symbol).0
      ensures child == Watches.AddChild(old(Snapshot()), parent, cv, symbol).1
      ensures Valid()
    {
      var f := Snapshot();
      var id := FieldString(cv, "name");
      if id.None? {
        return None;
      }
      var found := Watches.Find(f, id.value);
      if found.Some? {
        var h := found.value;
        assert Watches.AddChild(f, parent, cv, symbol) == (Watches.Update(f, h, Watches.Refreshed(f.nodes[h], cv)), found);
        Set(h, Watches.Refreshed(nodes[h], cv));
        child := found;
      } else {
        var w := Watches.NewChild(f, parent, cv, symbol);
        assert Watches.AddChild(f, parent, cv, symbol) == (Watches.Attach(f, parent, w), Some(next));
        var p := nodes[parent];
        nodes := nodes[next := w][parent := p.(children := p.children + [next])];
        child := Some(next);
        next := next + 1;
      }
    }
  }
}
