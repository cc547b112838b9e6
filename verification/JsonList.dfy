/**
  The child list of an array or object: the first child's prev is the last child, the last child's next
  is null, and in between next and prev are inverse to each other.
 */
module JsonList {
  import opened Wrappers
  import opened JsonText

  datatype Kind = Invalid | NullKind | FalseKind | TrueKind | NumberKind | StringKind | ArrayKind | ObjectKind

  class Node {
    var next: Node?
    var prev: Node?
    var child: Node?
    var kind: Kind
    var valueint: int
    var valuestring: Option<Bytes>
    var name: Option<Bytes>

    constructor ()
      ensures next == null && prev == null && child == null
    {
      next, prev, child := null, null, null;
      kind, valueint, valuestring, name := Invalid, 0, None, None;
    }
  }

  // ----- Shape -----

  predicate Distinct(s: seq<Node>) {
    forall i, j :: 0 <= i < j < |s| ==> s[i] != s[j]
  }

  /** The children of parent are exactly the nodes s, in this order. */
  ghost predicate Children(parent: Node, s: seq<Node>)
    reads parent`child, s`next, s`prev
  {
    Distinct(s) && parent !in s &&
    if s == [] then parent.child == null
    else
      parent.child == s[0] && s[0].prev == s[|s| - 1] && s[|s| - 1].next == null
      && (forall i {:trigger s[i].next} :: 0 <= i < |s| - 1 ==> s[i].next == s[i + 1])
      && (forall i {:trigger s[i].prev} :: 1 <= i < |s| ==> s[i].prev == s[i - 1])
  }

  // ----- The same on values -----

  /** The links as they stand in the nodes. */
  ghost predicate Links(s: seq<Node>, nexts: seq<Node?>, prevs: seq<Node?>)
    reads s
  {
    |nexts| == |s| && |prevs| == |s|
    && (forall i {:trigger nexts[i]} {:trigger s[i].next} :: 0 <= i < |s| ==> s[i].next == nexts[i])
    && (forall i {:trigger prevs[i]} {:trigger s[i].prev} :: 0 <= i < |s| ==> s[i].prev == prevs[i])
  }

  lemma LinksOf(s: seq<Node>) returns (nexts: seq<Node?>, prevs: seq<Node?>)
    ensures Links(s, nexts, prevs)
  {
    nexts, prevs := [], [];
    for i := 0 to |s|
      invariant Links(s[..i], nexts, prevs)
    {
      assert s[..i + 1] == s[..i] + [s[i]];
      nexts, prevs := nexts + [s[i].next], prevs + [s[i].prev];
    }
    assert s[..|s|] == s;
  }

  ghost predicate Shape(s: seq<Node>, first: Node?, nexts: seq<Node?>, prevs: seq<Node?>) {
    |nexts| == |s| && |prevs| == |s| &&
    if s == [] then first == null
    else
      first == s[0] && prevs[0] == s[|s| - 1] && nexts[|s| - 1] == null
      && (forall i :: 0 <= i < |s| - 1 ==> nexts[i] == s[i + 1])
      && (forall i :: 1 <= i < |s| ==> prevs[i] == s[i - 1])
  }

  lemma ShapeOf(parent: Node, s: seq<Node>, nexts: seq<Node?>, prevs: seq<Node?>)
    requires Links(s, nexts, prevs)
    ensures Children(parent, s) <==> Distinct(s) && parent !in s && Shape(s, parent.child, nexts, prevs)
  {}

  lemma FirstChild(parent: Node, s: seq<Node>)
    requires Children(parent, s) && s != []
    ensures parent.child == s[0]
  {}

  lemma Neighbours(s: seq<Node>, i: nat, nexts: seq<Node?>, prevs: seq<Node?>)
    requires i < |s| && Shape(s, s[0], nexts, prevs)
    ensures i > 0 ==> prevs[i] == s[i - 1]
    ensures nexts[i] == if i + 1 < |s| then s[i + 1] else null
    ensures prevs[0] == s[|s| - 1]
  {}

  // ----- The list as a sequence -----

  /** An insertion behind the end appends. */
  function Inserted(s: seq<Node>, which: nat, item: Node): seq<Node> {
    if which < |s| then s[..which] + [item] + s[which..] else s + [item]
  }

  function Removed(s: seq<Node>, i: nat): seq<Node>
    requires i < |s|
  {
    s[..i] + s[i + 1..]
  }

  /** The item stands at the index, or at the end if the list is shorter; taking it out again leaves the others as they were. */
  lemma InsertedThere(s: seq<Node>, which: nat, item: Node)
    ensures var i := if which <= |s| then which else |s|;
      i < |Inserted(s, which, item)| && Inserted(s, which, item)[i] == item && Removed(Inserted(s, which, item), i) == s
  {}

  /** The children behind a removed one move up. */
  lemma RemovedThere(s: seq<Node>, i: nat)
    requires i < |s|
    ensures |Removed(s, i)| == |s| - 1
    ensures forall j :: 0 <= j < |s| - 1 ==> Removed(s, i)[j] == s[if j < i then j else j + 1]
  {}

  ghost function Only(n: Node?): set<Node> {
    if n == null then {} else {n}
  }

  // ----- Reading -----

  method GetArraySize(parent: Node, ghost s: seq<Node>) returns (size: nat)
    requires Children(parent, s)
    ensures size == |s|
  {
    var child := parent.child;
    size := 0;
    while child != null
      invariant size <= |s| && child == if size < |s| then s[size] else null
      decreases |s| - size
    {
      size := size + 1;
      child := child.next;
    }
  }

  method GetArrayItem(parent: Node, index: nat, ghost s: seq<Node>) returns (item: Node?)
    requires Children(parent, s)
    ensures item == if index < |s| then s[index] else null
  {
    item := parent.child;
    var left := index;
    ghost var i := 0;
    while item != null && left > 0
      invariant i <= |s| && i + left == index && item == if i < |s| then s[i] else null
    {
      left := left - 1;
      item := item.next;
      i := i + 1;
    }
  }

  // ----- Inserting -----

  /** An item can follow the children: it is none of them, and behind another child it leads nowhere. */
  predicate Appendable(s: seq<Node>, item: Node)
    reads item`next
  {
    item !in s && (s == [] || item.next == null)
  }

  /** Appends any item but the parent, and does so properly exactly when the item can follow the children. */
  method AddItemToArray(parent: Node?, item: Node?, ghost s: seq<Node>) returns (ok: bool)
    requires parent != null ==> Children(parent, s)
    modifies Only(parent)`child, s`next, s`prev, Only(item)`next, Only(item)`prev
    ensures ok <==> item != null && parent != null && parent != item
    ensures ok ==> (Children(parent, s + [item]) <==> old(Appendable(s, item)))
    ensures !ok && parent != null ==> Children(parent, s)
    ensures !ok && item != null ==> unchanged(item)
  {
    if item == null || parent == null || parent == item {
      return false;
    }
    var child := parent.child;
    assert s != [] ==> (s + [item])[|s|] == item;
    if child == null {
      parent.child := item;
      item.prev := item;
      item.next := null;
    } else if child.prev != null {
      SuffixObject(child.prev, item);
      parent.child.prev := item;
    }
    ok := true;
  }

  method SuffixObject(prev: Node, item: Node)
    modifies prev`next, item`prev
    ensures prev.next == item && item.prev == prev
  {
    prev.next := item;
    item.prev := prev;
  }

  /** Inserts any item, and does so properly exactly when it is new to the list, and can be appended at its end. */
  method InsertItemInArray(parent: Node, which: int, newitem: Node?, ghost s: seq<Node>) returns (ok: bool)
    requires Children(parent, s)
    modifies parent`child, s`next, s`prev, Only(newitem)`next, Only(newitem)`prev
    ensures ok <==> which >= 0 && newitem != null && (which < |s| || newitem != parent)
    ensures ok ==>
      (Children(parent, Inserted(s, which, newitem)) <==>
       newitem != parent && if which < |s| then newitem !in s else old(Appendable(s, newitem)))
    ensures !ok ==> Children(parent, s) && (newitem != null ==> unchanged(newitem))
  {
    if which < 0 || newitem == null {
      return false;
    }
    var afterInserted := GetArrayItem(parent, which, s);
    if afterInserted == null {
      ok := AddItemToArray(parent, newitem, s);
      return;
    }
    if afterInserted != parent.child && afterInserted.prev == null {
      return false;
    }
    LinkBefore(parent, newitem, afterInserted, s, which);
    ok := true;
  }

  /** Hooks an item in before the child s[i]. */
  method LinkBefore(parent: Node, newitem: Node, after: Node, ghost s: seq<Node>, ghost i: nat)
    requires Children(parent, s) && i < |s| && after == s[i]
    modifies parent`child, s`next, s`prev, newitem`next, newitem`prev
    ensures Children(parent, Inserted(s, i, newitem)) <==> newitem != parent && newitem !in s
  {
    hide Shape, Inserted;
    ghost var first := parent.child;
    ghost var nexts, prevs := LinksOf(s);
    ShapeOf(parent, s, nexts, prevs);
    newitem.next := after;
    newitem.prev := after.prev;
    after.prev := newitem;
    if after == parent.child {
      parent.child := newitem;
    } else {
      newitem.prev.next := newitem;
    }
    if newitem == parent || newitem in s {
      NotInserted(s, i, newitem);
    } else {
      ghost var n, p := if i == 0 then nexts else nexts[i - 1 := newitem], prevs[i := newitem];
      assert Links(s, n, p);
      LinksInserted(s, i, newitem, n, p);
      InsertedShape(s, i, newitem, first, nexts, prevs);
      ShapeOf(parent, Inserted(s, i, newitem), n[..i] + [after] + n[i..], p[..i] + [prevs[i]] + p[i..]);
    }
  }

  lemma NotInserted(s: seq<Node>, i: nat, item: Node)
    requires i < |s|
    ensures item in Inserted(s, i, item) && (item in s ==> !Distinct(Inserted(s, i, item)))
  {
    var t := Inserted(s, i, item);
    assert t[i] == item;
    if item in s {
      var k :| 0 <= k < |s| && s[k] == item;
      assert t[if k < i then k else k + 1] == item;
    }
  }

  lemma LinksInserted(s: seq<Node>, i: nat, item: Node, nexts: seq<Node?>, prevs: seq<Node?>)
    requires Distinct(s) && item !in s && i < |s| && Links(s, nexts, prevs)
    ensures Distinct(Inserted(s, i, item)) && forall n :: n in Inserted(s, i, item) ==> n == item || n in s
    ensures Links(Inserted(s, i, item), nexts[..i] + [item.next] + nexts[i..], prevs[..i] + [item.prev] + prevs[i..])
  {}

  lemma InsertedShape(s: seq<Node>, i: nat, item: Node, first: Node?, nexts: seq<Node?>, prevs: seq<Node?>)
    requires Shape(s, first, nexts, prevs) && i < |s|
    ensures
      var n, p := if i == 0 then nexts else nexts[i - 1 := item], prevs[i := item];
      Shape(Inserted(s, i, item), if i == 0 then item else first,
            n[..i] + [s[i]] + n[i..], p[..i] + [prevs[i]] + p[i..])
  {}

  // ----- Detaching -----

  /** Takes a child out.  An item that is not in a list at all is left alone. */
  method DetachItemViaPointer(parent: Node?, item: Node?, ghost s: seq<Node>) returns (detached: Node?)
    requires parent != null ==> Children(parent, s)
    requires parent != null && item != null && item !in s ==> item.prev == null
    modifies Only(parent)`child, s`next, s`prev
    ensures detached == if parent != null && item != null && item in s then item else null
    ensures detached == null && parent != null ==> Children(parent, s)
    ensures detached != null ==> item.next == null && item.prev == null
    ensures detached != null ==> forall i :: 0 <= i < |s| && s[i] == item ==> Children(parent, Removed(s, i))
  {
    if parent == null || item == null || (item != parent.child && item.prev == null) {
      return null;
    }
    ghost var i :| 0 <= i < |s| && s[i] == item;
    Unlink(parent, item, s, i);
    detached := item;
  }

  method Unlink(parent: Node, item: Node, ghost s: seq<Node>, ghost i: nat)
    requires Children(parent, s) && i < |s| && item == s[i]
    modifies parent`child, s`next, s`prev
    ensures Children(parent, Removed(s, i)) && item.next == null && item.prev == null
  {
    hide Shape, Removed;
    ghost var nexts, prevs := LinksOf(s);
    ShapeOf(parent, s, nexts, prevs);
    RemovedShape(s, i, nexts, prevs);
    if item != parent.child {
      item.prev.next := item.next;
    }
    if item.next != null {
      item.next.prev := item.prev;
    }
    if item == parent.child {
      parent.child := item.next;
    } else if item.next == null {
      parent.child.prev := item.prev;
    }
    item.prev := null;
    item.next := null;
    ghost var n, p := RemovedNexts(nexts, i), RemovedPrevs(prevs, i);
    LinksRemoved(s, i, n, p);
    ShapeOf(parent, Removed(s, i), n[..i] + n[i + 1..], p[..i] + p[i + 1..]);
  }

  /** The predecessor's next takes over the item's next. */
  function RemovedNexts(nexts: seq<Node?>, i: nat): seq<Node?>
    requires i < |nexts|
  {
    (if i == 0 then nexts else nexts[i - 1 := nexts[i]])[i := null]
  }

  /** The prev of the successor, or of the first child if there is none, takes over the item's prev. */
  function RemovedPrevs(prevs: seq<Node?>, i: nat): seq<Node?>
    requires i < |prevs|
  {
    (if i + 1 < |prevs| then prevs[i + 1 := prevs[i]] else prevs[0 := prevs[i]])[i := null]
  }

  lemma LinksRemoved(s: seq<Node>, i: nat, nexts: seq<Node?>, prevs: seq<Node?>)
    requires Distinct(s) && i < |s| && Links(s, nexts, prevs)
    ensures Distinct(Removed(s, i)) && forall n :: n in Removed(s, i) ==> n in s
    ensures Links(Removed(s, i), nexts[..i] + nexts[i + 1..], prevs[..i] + prevs[i + 1..])
  {}

  lemma RemovedShape(s: seq<Node>, i: nat, nexts: seq<Node?>, prevs: seq<Node?>)
    requires i < |s| && Shape(s, s[0], nexts, prevs)
    ensures
      var n, p := RemovedNexts(nexts, i), RemovedPrevs(prevs, i);
      Shape(Removed(s, i), if i == 0 then nexts[0] else s[0], n[..i] + n[i + 1..], p[..i] + p[i + 1..])
    ensures i > 0 ==> prevs[i] == s[i - 1]
    ensures nexts[i] == if i + 1 < |s| then s[i + 1] else null
  {}

  method DetachItemFromArray(parent: Node, which: int, ghost s: seq<Node>) returns (detached: Node?)
    requires Children(parent, s)
    modifies parent`child, s`next, s`prev
    ensures detached == if 0 <= which < |s| then s[which] else null
    ensures detached == null ==> Children(parent, s)
    ensures detached != null ==> Children(parent, Removed(s, which)) && detached.next == null && detached.prev == null
  {
    if which < 0 {
      return null;
    }
    var item := GetArrayItem(parent, which, s);
    detached := DetachItemViaPointer(parent, item, s);
  }

  // ----- Replacing -----

  /** Puts any replacement in the place of a child, and does so properly exactly when it is new, or the child itself. */
  method ReplaceItemViaPointer(parent: Node?, item: Node?, replacement: Node?, ghost s: seq<Node>, ghost i: nat) returns (ok: bool)
    requires parent != null ==> Children(parent, s)
    requires parent != null && item != null ==> i < |s| && item == s[i]
    modifies Only(parent)`child, s`next, s`prev, Only(replacement)`next, Only(replacement)`prev
    ensures ok <==> parent != null && item != null && replacement != null
    ensures ok ==>
      (Children(parent, s[i := replacement]) <==> replacement == item || (replacement !in s && replacement != parent))
    ensures ok && replacement != item ==> item.next == null && item.prev == null
    ensures !ok && parent != null ==> Children(parent, s)
    ensures !ok && replacement != null ==> unchanged(replacement)
  {
    if parent == null || parent.child == null || replacement == null || item == null {
      return false;
    }
    if replacement == item {
      return true;
    }
    Relink(parent, item, replacement, s, i);
    ok := true;
  }

  method Relink(parent: Node, item: Node, replacement: Node, ghost s: seq<Node>, ghost i: nat)
    requires Children(parent, s) && i < |s| && item == s[i] && replacement != item
    modifies parent`child, s`next, s`prev, replacement`next, replacement`prev
    ensures Children(parent, s[i := replacement]) <==> replacement !in s && replacement != parent
    ensures item.next == null && item.prev == null
  {
    hide Shape, Children;
    ghost var nexts, prevs := LinksOf(s);
    ShapeOf(parent, s, nexts, prevs);
    FirstChild(parent, s);
    Neighbours(s, i, nexts, prevs);
    replacement.next := item.next;
    replacement.prev := item.prev;
    if replacement.next != null {
      replacement.next.prev := replacement;
    }
    if parent.child == item {
      if parent.child.prev == parent.child {
        replacement.prev := replacement;
      }
      parent.child := replacement;
    } else {
      if replacement.prev != null {
        replacement.prev.next := replacement;
      }
      if replacement.next == null {
        parent.child.prev := replacement;
      }
    }
    item.next := null;
    item.prev := null;
    if replacement in s || replacement == parent {
      NotReplaced(parent, s, i, replacement);
    } else {
      ghost var n, p := ReplacedNexts(nexts, i, replacement), ReplacedPrevs(prevs, i, replacement);
      assert Links(s, n[i := null], p[i := null]);
      LinksReplaced(s, i, replacement, n, p);
      ReplacedShape(s, i, replacement, nexts, prevs);
      ShapeOf(parent, s[i := replacement], n, p);
    }
  }

  lemma NotReplaced(parent: Node, s: seq<Node>, i: nat, item: Node)
    requires i < |s| && item != s[i] && (item in s || item == parent)
    ensures !Children(parent, s[i := item])
  {
    var t := s[i := item];
    assert t[i] == item;
    if item in s {
      var k :| 0 <= k < |s| && s[k] == item;
      assert t[k] == item;
    }
  }

  /** The predecessor's next is the replacement, which takes over the item's next. */
  function ReplacedNexts(nexts: seq<Node?>, i: nat, item: Node): seq<Node?>
    requires i < |nexts|
  {
    if i == 0 then nexts else nexts[i - 1 := item]
  }

  /** The prev of the successor, or of the first child if there is none, is the replacement. */
  function ReplacedPrevs(prevs: seq<Node?>, i: nat, item: Node): seq<Node?>
    requires i < |prevs|
  {
    if i + 1 < |prevs| then prevs[i + 1 := item] else prevs[0 := item]
  }

  lemma LinksReplaced(s: seq<Node>, i: nat, item: Node, nexts: seq<Node?>, prevs: seq<Node?>)
    requires Distinct(s) && i < |s| == |nexts| == |prevs| && item !in s
    requires Links(s, nexts[i := null], prevs[i := null])
    requires item.next == nexts[i] && item.prev == prevs[i]
    ensures Distinct(s[i := item]) && forall n :: n in s[i := item] ==> n in s || n == item
    ensures Links(s[i := item], nexts, prevs)
  {}

  lemma ReplacedShape(s: seq<Node>, i: nat, item: Node, nexts: seq<Node?>, prevs: seq<Node?>)
    requires i < |s| && Shape(s, s[0], nexts, prevs)
    ensures Shape(s[i := item], if i == 0 then item else s[0], ReplacedNexts(nexts, i, item), ReplacedPrevs(prevs, i, item))
  {}

  method ReplaceItemInArray(parent: Node, which: int, newitem: Node?, ghost s: seq<Node>) returns (ok: bool)
    requires Children(parent, s)
    modifies parent`child, s`next, s`prev, Only(newitem)`next, Only(newitem)`prev
    ensures ok <==> 0 <= which < |s| && newitem != null
    ensures ok ==>
      (Children(parent, s[which := newitem]) <==> newitem == s[which] || (newitem !in s && newitem != parent))
    ensures !ok ==> Children(parent, s) && (newitem != null ==> unchanged(newitem))
  {
    if which < 0 {
      return false;
    }
    var item := GetArrayItem(parent, which, s);
    ok := ReplaceItemViaPointer(parent, item, newitem, s, which);
  }

  // ----- Whole runs -----

  datatype Operation =
    | Add(item: Node)
    | Insert(which: int, item: Node)
    | Detach(which: int)
    | Replace(which: int, item: Node)

  /** The children, and the items that are in no list. */
  datatype State = State(list: seq<Node>, loose: set<Node>)

  predicate Legal(state: State, op: Operation) {
    op.Detach? || op.item in state.loose
  }

  /** What an operation does to the sequence.  A replaced item is deleted, a detached one can be used again. */
  function Step(state: State, op: Operation): State
    requires Legal(state, op)
  {
    var State(list, loose) := state;
    match op
    case Add(item) => State(list + [item], loose - {item})
    case Insert(which, item) =>
      if which < 0 then state else State(Inserted(list, which, item), loose - {item})
    case Detach(which) =>
      if 0 <= which < |list| then State(Removed(list, which), loose + {list[which]}) else state
    case Replace(which, item) =>
      if 0 <= which < |list| then State(list[which := item], loose - {item}) else state
  }

  predicate LegalRun(state: State, ops: seq<Operation>)
    decreases |ops|
  {
    ops == [] || (Legal(state, ops[0]) && LegalRun(Step(state, ops[0]), ops[1..]))
  }

  function Run(state: State, ops: seq<Operation>): State
    requires LegalRun(state, ops)
    decreases |ops|
  {
    if ops == [] then state else Run(Step(state, ops[0]), ops[1..])
  }

  /** The heap agrees with the state. */
  ghost predicate Agrees(parent: Node, state: State)
    reads parent, state.list, state.loose
  {
    Children(parent, state.list) && parent !in state.loose
    && forall n :: n in state.loose ==> n !in state.list && n.next == null && n.prev == null
  }

  ghost function Footprint(state: State): set<Node> {
    state.loose + set n | n in state.list
  }

  lemma StepFootprint(state: State, op: Operation)
    requires Legal(state, op)
    ensures Footprint(Step(state, op)) <= Footprint(state)
  {}

  /** A step moves nodes between the list and the loose ones, and keeps them apart. */
  lemma StepApart(parent: Node, state: State, op: Operation)
    requires Legal(state, op) && Distinct(state.list) && parent !in state.list && parent !in state.loose
    requires forall n :: n in state.loose ==> n !in state.list
    ensures
      var next := Step(state, op);
      parent !in next.loose && forall n :: n in next.loose ==> n !in next.list
  {}

  method Perform(parent: Node, op: Operation, ghost state: State)
    requires Agrees(parent, state) && Legal(state, op)
    modifies parent`child, Footprint(state)`next, Footprint(state)`prev
    ensures Agrees(parent, Step(state, op))
  {
    hide Children, Inserted, Removed, Distinct;
    ChildrenApart(parent, state.list);
    StepApart(parent, state, op);
    match op
    case Add(item) =>
      assert Appendable(state.list, item);
      var ok := AddItemToArray(parent, item, state.list);
    case Insert(which, item) =>
      assert Appendable(state.list, item);
      var ok := InsertItemInArray(parent, which, item, state.list);
    case Detach(which) =>
      var detached := DetachItemFromArray(parent, which, state.list);
    case Replace(which, item) =>
      var ok := ReplaceItemInArray(parent, which, item, state.list);
  }

  lemma ChildrenApart(parent: Node, s: seq<Node>)
    requires Children(parent, s)
    ensures Distinct(s) && parent !in s
  {}

  /** Any run of operations leaves the children in the state that the operations on the sequence lead to. */
  method PerformAll(parent: Node, ops: seq<Operation>, ghost state: State)
    requires Agrees(parent, state) && LegalRun(state, ops)
    modifies parent`child, Footprint(state)`next, Footprint(state)`prev
    ensures Agrees(parent, Run(state, ops))
  {
    hide Agrees, Step, Footprint;
    ghost var current := state;
    assert ops[0..] == ops;
    for i := 0 to |ops|
      invariant Agrees(parent, current) && Footprint(current) <= Footprint(state)
      invariant LegalRun(current, ops[i..]) && Run(current, ops[i..]) == Run(state, ops)
    {
      assert ops[i..][1..] == ops[i + 1..];
      StepFootprint(current, ops[i]);
      Perform(parent, ops[i], current);
      current := Step(current, ops[i]);
    }
  }
}
