/** Deep copies: a recursive copy of a tree of nodes that shares no node with it. */
module JsonDuplicate {
  import opened Wrappers
  import opened JsonText
  import opened JsonList
  import opened JsonNodes
  import opened JsonCompareNodes
  import JsonCompare
  import JsonTree

  const CIRCULAR_LIMIT: nat := 10000

  // ----- Copying -----

  /** A copy in the making: the kids are linked, but the first one does not yet know the last one. */
  ghost predicate Partial(node: Node, last: Node?, kids: seq<Place>, nodes: set<Node>)
    reads node`child, nodes`child, nodes`next, nodes`prev
  {
    node !in nodes && Within(kids, nodes)
    && (forall i :: 0 <= i < |kids| ==> Stands(kids[i]))
    && Row(node.child, last, Roots(kids))
  }

  /** Hooks another copied child in behind the last one. */
  method Attach(newitem: Node, next: Node?, newchild: Node, ghost s: seq<Node>)
    requires Row(newitem.child, next, s) && Distinct(s) && newchild !in s && newchild.next == null
    modifies newitem`child, Only(next)`next, newchild`prev
    ensures Row(newitem.child, newchild, s + [newchild])
  {
    if next != null {
      next.next := newchild;
      newchild.prev := next;
    } else {
      newitem.child := newchild;
    }
  }

  method AttachCopy(newitem: Node, next: Node?, newchild: Node, ghost kids: seq<Place>, ghost nodes: set<Node>, ghost c: Place)
    requires Partial(newitem, next, kids, nodes)
    requires c.node == newchild && Stands(c) && newchild.next == null && c.nodes !! nodes && newitem !in c.nodes
    modifies newitem`child, Only(next)`next, newchild`prev
    ensures Partial(newitem, newchild, kids + [c], nodes + c.nodes)
  {
    hide Within, Row, Stands;
    StandsApart(c);
    WithinAppend(kids, nodes, c);
    RowLast(newitem.child, next, Roots(kids));
    Attach(newitem, next, newchild, Roots(kids));
    forall i | 0 <= i < |kids|
      ensures Stands(kids[i])
    {
    }
    assert Stands(c);
    assert forall i :: 0 <= i < |kids + [c]| ==> (kids + [c])[i] == if i < |kids| then kids[i] else c;
  }

  method CopyFields(item: Node) returns (newitem: Node)
    ensures fresh(newitem) && newitem.next == null && newitem.prev == null && newitem.child == null
    ensures newitem.kind == item.kind && newitem.valueint == item.valueint
    ensures newitem.valuestring == item.valuestring && newitem.name == item.name
  {
    newitem := new Node();
    newitem.kind := item.kind;
    newitem.valueint := item.valueint;
    newitem.valuestring := item.valuestring;
    newitem.name := item.name;
  }

  /** The trees represent the items. */
  ghost predicate Represent(places: seq<Place>, items: seq<Item>, nodes: set<Node>)
    reads nodes`kind, nodes`valueint, nodes`valuestring, nodes`name
  {
    |places| == |items|
    && forall j :: 0 <= j < |places| ==> Apart(places[j]) && places[j].nodes <= nodes && ItemOf(places[j]) == items[j]
  }

  /** A copy of the item alone, or of the whole tree, in new nodes only. */
  method Duplicate(item: Node, depth: nat, recurse: bool, ghost t: Place) returns (newitem: Node?, ghost c: Place)
    requires t.node == item && Stands(t) && Apart(t) && depth <= CIRCULAR_LIMIT
    ensures newitem != null <==> !recurse || depth + Height(t) <= CIRCULAR_LIMIT
    ensures newitem != null ==> c.node == newitem && Stands(c) && newitem.next == null && newitem.prev == null
    ensures newitem != null ==> Apart(c) && fresh(c.nodes)
    ensures newitem != null ==> ItemOf(c) == if recurse then ItemOf(t) else ItemOf(t).(kids := [])
    decreases t, 1
  {
    hide Within, Stands, ItemOf, Apart, Height, Partial, Represent, Children;
    newitem := CopyFields(item);
    c := Place(newitem, [], {newitem});
    ghost var items := ItemOf(t).kids;
    PlaceParts(t, items);
    if !recurse {
      LeafStands(c);
      return;
    }
    HeightParts(t);
    var ok, next;
    ghost var kids, nodes;
    ok, next, kids, nodes := DuplicateKids(newitem, item, depth, t, items);
    if !ok {
      return null, c;
    }
    c := FinishCopy(newitem, next, kids, nodes);
    CopyRepresents(t, c, items, nodes);
  }

  /** The loop over the children. */
  method DuplicateKids(newitem: Node, item: Node, depth: nat, ghost t: Place, ghost items: seq<Item>)
    returns (ok: bool, next: Node?, ghost kids: seq<Place>, ghost nodes: set<Node>)
    requires t.node == item && Stands(t) && Apart(t) && depth <= CIRCULAR_LIMIT
    requires newitem.child == null && newitem !in t.nodes && Represent(t.kids, items, t.nodes)
    modifies newitem`child
    ensures ok <==> t.kids == [] || depth + 1 + MaxHeight(t.kids) <= CIRCULAR_LIMIT
    ensures ok ==> Partial(newitem, next, kids, nodes) && Represent(kids, items, nodes)
    ensures ok ==> fresh(nodes) && |kids| == |t.kids|
    decreases t, 0
  {
    hide Within, Stands, ItemOf, Apart, Height, Partial, Represent, Children;
    kids, nodes := [], {};
    ghost var i := 0;
    StartCopy(newitem);
    FirstChildOf(t);
    RepresentCount(t.kids, items, t.nodes);
    var child := item.child;
    next := null;
    while child != null
      invariant i <= |t.kids| && child == if i < |t.kids| then t.kids[i].node else null
      invariant |kids| == i && Partial(newitem, next, kids, nodes)
      invariant fresh(nodes) && newitem !in nodes && (next != null ==> next in nodes)
      invariant Represent(kids, items[..i], nodes) && Represent(t.kids, items, t.nodes)
      invariant Stands(t)
      invariant i > 0 ==> depth < CIRCULAR_LIMIT
      invariant forall j :: 0 <= j < i ==> depth + 1 + Height(t.kids[j]) <= CIRCULAR_LIMIT
      decreases |t.kids| - i
    {
      if depth >= CIRCULAR_LIMIT {
        ok := false;
        return;
      }
      NextChildOf(t, i);
      var newchild, k := Duplicate(child, depth + 1, true, t.kids[i]);
      if newchild == null {
        ok := false;
        return;
      }
      RepresentNext(kids, items, nodes, k, t.kids, t.nodes);
      StandsNode(k);
      AttachCopy(newitem, next, newchild, kids, nodes, k);
      next, kids, nodes := newchild, kids + [k], nodes + k.nodes;
      child := child.next;
      i := i + 1;
    }
    assert items[..i] == items;
    ok := true;
  }

  /** The head of the copied list learns where its tail is. */
  method FinishCopy(newitem: Node, next: Node?, ghost kids: seq<Place>, ghost nodes: set<Node>) returns (ghost c: Place)
    requires Partial(newitem, next, kids, nodes)
    modifies nodes`prev
    ensures c == Place(newitem, kids, nodes + {newitem}) && Stands(c) && Apart(c)
  {
    hide Children, Apart;
    KidsApart(newitem, kids, nodes);
    ghost var s := Roots(kids);
    if newitem.child != null {
      newitem.child.prev := next;
    }
    assert Row(newitem.child, next, s);
    RowChildren(newitem, next, s);
    forall i | 0 <= i < |kids|
      ensures Stands(kids[i])
    {
    }
    c := Place(newitem, kids, nodes + {newitem});
    StandsApart(c);
  }

  lemma RepresentCount(places: seq<Place>, items: seq<Item>, nodes: set<Node>)
    requires Represent(places, items, nodes)
    ensures |places| == |items|
  {}

  lemma LeafStands(c: Place)
    requires c == Place(c.node, [], {c.node}) && c.node.child == null
    ensures Stands(c) && Apart(c)
    ensures ItemOf(c) == Item(c.node.kind, c.node.valueint, c.node.valuestring, c.node.name, [])
  {}

  lemma StartCopy(node: Node)
    requires node.child == null
    ensures Partial(node, null, [], {}) && Represent([], [], {})
  {}

  lemma PlaceParts(t: Place, items: seq<Item>)
    requires Stands(t) && Apart(t) && ItemOf(t).kids == items
    ensures t.node in t.nodes && Represent(t.kids, items, t.nodes)
    ensures ItemOf(t) == Item(t.node.kind, t.node.valueint, t.node.valuestring, t.node.name, items)
  {
    hide Children;
  }

  lemma HeightParts(t: Place)
    ensures Height(t) == if t.kids == [] then 0 else 1 + MaxHeight(t.kids)
  {}

  lemma RepresentNext(kids: seq<Place>, items: seq<Item>, nodes: set<Node>, k: Place, originals: seq<Place>, all: set<Node>)
    requires |kids| < |originals| == |items| && Represent(originals, items, all) && Represent(kids, items[..|kids|], nodes)
    requires Apart(k) && ItemOf(k) == ItemOf(originals[|kids|])
    ensures Represent(kids + [k], items[..|kids| + 1], nodes + k.nodes)
  {}

  lemma CopyRepresents(t: Place, c: Place, items: seq<Item>, nodes: set<Node>)
    requires Apart(t) && Apart(c) && Represent(c.kids, items, nodes) && Represent(t.kids, items, t.nodes)
    requires c.node.kind == t.node.kind && c.node.valueint == t.node.valueint
    requires c.node.valuestring == t.node.valuestring && c.node.name == t.node.name
    ensures ItemOf(c) == ItemOf(t)
  {}

  // ----- Copies compare equal -----

  /**
    A deep copy within the depth limit compares equal to its source exactly when the source has no
    repeated keys with different values.
   */
  method DuplicateAndCompare(item: Node, ghost t: Place, ghost v: JsonTree.Json)
    returns (copy: Node?, equal: bool, ghost c: Place)
    requires t.node == item && Shows(t, v)
    ensures copy != null <==> Height(t) <= CIRCULAR_LIMIT
    ensures copy != null ==> c.node == copy && Shows(c, v) && fresh(c.nodes)
    ensures copy != null ==> (equal <==> JsonCompare.Consistent(v))
  {
    hide Stands, Apart, JsonOf, Height, ItemOf;
    copy, c := Duplicate(item, 0, true, t);
    equal := false;
    if copy != null {
      equal := CompareNodes(copy, item, c, v, t, v);
      CopyIsOther(c, t);
      JsonCompare.CompareEquivalence(v, v, v);
    }
  }

  lemma CopyIsOther(c: Place, t: Place)
    requires Stands(c) && Stands(t) && c.nodes !! t.nodes
    ensures c.node != t.node
  {}
}
