/** Trees of linked nodes: where their nodes are, and what they represent. */
module JsonNodes {
  import opened Wrappers
  import opened JsonText
  import opened JsonList
  import opened JsonTree

  // ----- Trees of nodes -----

  /** Where the nodes of a tree are: its root, the trees below it, and all of its nodes. */
  datatype Place = Place(node: Node, kids: seq<Place>, nodes: set<Node>)

  /** No node occurs twice in the tree. */
  ghost predicate Apart(t: Place) {
    t.node in t.nodes && Within(t.kids, t.nodes - {t.node})
    && forall i :: 0 <= i < |t.kids| ==> Apart(t.kids[i])
  }

  ghost predicate Within(kids: seq<Place>, nodes: set<Node>) {
    (forall i :: 0 <= i < |kids| ==> kids[i].node in kids[i].nodes && kids[i].nodes <= nodes)
    && (forall i, j :: 0 <= i < j < |kids| ==> kids[i].nodes !! kids[j].nodes)
  }

  function Roots(places: seq<Place>): (s: seq<Node>)
    ensures |s| == |places| && forall i :: 0 <= i < |s| ==> s[i] == places[i].node
  {
    seq(|places|, i requires 0 <= i < |places| => places[i].node)
  }

  /** The nodes are linked as the places say. */
  ghost predicate Stands(t: Place)
    reads t.nodes`child, (t.nodes - {t.node})`next, (t.nodes - {t.node})`prev
    decreases t
  {
    t.node in t.nodes && Within(t.kids, t.nodes - {t.node})
    && Children(t.node, Roots(t.kids))
    && (forall i :: 0 <= i < |t.kids| ==> Stands(t.kids[i]))
  }

  lemma StandsApart(t: Place)
    requires Stands(t)
    ensures Apart(t)
  {}

  lemma StandsNode(t: Place)
    requires Stands(t)
    ensures t.node in t.nodes
  {}

  lemma FirstChildOf(t: Place)
    requires Stands(t)
    ensures t.node.child == if t.kids == [] then null else t.kids[0].node
  {}

  lemma NextChildOf(t: Place, i: nat)
    requires Stands(t) && i < |t.kids|
    ensures t.kids[i].node.next == if i + 1 < |t.kids| then t.kids[i + 1].node else null
    ensures Stands(t.kids[i]) && Apart(t.kids[i]) && t.kids[i].nodes <= t.nodes && t.kids[i].node in t.nodes
  {
    assert Roots(t.kids)[i].next == if i + 1 < |t.kids| then Roots(t.kids)[i + 1] else null;
    StandsApart(t.kids[i]);
  }

  function Height(t: Place): nat
    decreases t, 0
  {
    if t.kids == [] then 0 else 1 + MaxHeight(t.kids)
  }

  function MaxHeight(kids: seq<Place>): (h: nat)
    ensures forall i :: 0 <= i < |kids| ==> Height(kids[i]) <= h
    ensures kids != [] ==> exists i :: 0 <= i < |kids| && Height(kids[i]) == h
    decreases kids, 1
  {
    if kids == [] then 0 else
      var rest := MaxHeight(kids[1..]);
      assert forall i :: 1 <= i < |kids| ==> kids[i] == kids[1..][i - 1];
      assert forall i :: 0 <= i < |kids| - 1 ==> kids[1..][i] == kids[i + 1];
      if Height(kids[0]) < rest then rest else Height(kids[0])
  }

  // ----- Lists in the making -----

  /** The nodes are linked from head to last, but the head does not yet know the last one. */
  ghost predicate Row(head: Node?, last: Node?, s: seq<Node>)
    reads s`next, s`prev
  {
    if s == [] then head == null && last == null
    else
      head == s[0] && last == s[|s| - 1] && s[|s| - 1].next == null
      && (forall i {:trigger s[i].next} :: 0 <= i < |s| - 1 ==> s[i].next == s[i + 1])
      && (forall i {:trigger s[i].prev} :: 1 <= i < |s| ==> s[i].prev == s[i - 1])
  }

  lemma RowLast(head: Node?, last: Node?, s: seq<Node>)
    requires Row(head, last, s)
    ensures last == if s == [] then null else s[|s| - 1]
    ensures head == if s == [] then null else s[0]
  {}

  lemma WithinAppend(kids: seq<Place>, nodes: set<Node>, c: Place)
    requires Within(kids, nodes) && c.node in c.nodes && c.nodes !! nodes
    ensures Within(kids + [c], nodes + c.nodes)
    ensures Roots(kids + [c]) == Roots(kids) + [c.node] && Distinct(Roots(kids)) && c.node !in Roots(kids)
    ensures forall i :: 0 <= i < |kids| ==> kids[i].nodes <= nodes && Roots(kids)[|kids| - 1] !in kids[i].nodes - {kids[i].node}
    ensures forall n :: n in Roots(kids) ==> n in nodes
  {}

  lemma KidsApart(node: Node, kids: seq<Place>, nodes: set<Node>)
    requires Within(kids, nodes) && node !in nodes
    ensures Distinct(Roots(kids)) && node !in Roots(kids)
    ensures Within(kids, nodes + {node} - {node})
    ensures kids != [] ==> forall i :: 0 <= i < |kids| ==> kids[0].node !in kids[i].nodes - {kids[i].node}
    ensures kids != [] ==> kids[0].node in nodes
  {}

  lemma RowChildren(node: Node, last: Node?, s: seq<Node>)
    requires Row(node.child, last, s) && Distinct(s) && node !in s && (s != [] ==> s[0].prev == last)
    ensures Children(node, s)
  {}

  // ----- What a tree represents -----

  datatype Item = Item(kind: Kind, valueint: int, valuestring: Option<Bytes>, name: Option<Bytes>, kids: seq<Item>)

  ghost function ItemOf(t: Place): Item
    requires Apart(t)
    reads t.nodes`kind, t.nodes`valueint, t.nodes`valuestring, t.nodes`name
    decreases t, 0
  {
    Item(t.node.kind, t.node.valueint, t.node.valuestring, t.node.name, ItemsOf(t.kids, t.nodes))
  }

  ghost function ItemsOf(kids: seq<Place>, nodes: set<Node>): (items: seq<Item>)
    requires forall i :: 0 <= i < |kids| ==> Apart(kids[i]) && kids[i].nodes <= nodes
    reads nodes`kind, nodes`valueint, nodes`valuestring, nodes`name
    ensures |items| == |kids| && forall i :: 0 <= i < |kids| ==> items[i] == ItemOf(kids[i])
    decreases kids, 1
  {
    if kids == [] then [] else [ItemOf(kids[0])] + ItemsOf(kids[1..], nodes)
  }

  // ----- As a value -----

  function Values(members: seq<Member>): (v: seq<Json>)
    ensures |v| == |members| && forall i :: 0 <= i < |v| ==> v[i] == members[i].value
  {
    seq(|members|, i requires 0 <= i < |members| => members[i].value)
  }

  /** The item as a value; an item of another kind than these is no JSON value. */
  function JsonOf(item: Item): Option<Json>
    decreases item, 0
  {
    match item.kind
    case Invalid => None
    case NullKind => Some(Null)
    case FalseKind => Some(False)
    case TrueKind => Some(True)
    case NumberKind => Some(Number(item.valueint))
    case StringKind => if item.valuestring.None? then None else Some(String(item.valuestring.value))
    case ArrayKind =>
      var members := MembersOf(item.kids, false);
      if members.None? then None
      else Some(Array(Values(members.value)))
    case ObjectKind =>
      var members := MembersOf(item.kids, true);
      if members.None? then None else Some(Object(members.value))
  }

  function MembersOf(kids: seq<Item>, named: bool): Option<seq<Member>>
    decreases kids, 1
  {
    if kids == [] then Some([])
    else
      var value, rest := JsonOf(kids[0]), MembersOf(kids[1..], named);
      if value.None? || rest.None? || (named && kids[0].name.None?) then None
      else Some([Member(if named then kids[0].name.value else [], value.value)] + rest.value)
  }

  /** What an item is given when its list is complete. */
  function ListValue(members: seq<Member>, named: bool): Json {
    if named then Object(members) else Array(Values(members))
  }

  /** The tree of nodes stands for the value. */
  ghost predicate Reads(t: Place, v: Json)
    requires Apart(t)
    reads t.nodes`kind, t.nodes`valueint, t.nodes`valuestring, t.nodes`name
  {
    JsonOf(ItemOf(t)) == Some(v)
  }

  lemma ItemFields(t: Place)
    requires Apart(t)
    ensures
      var item := ItemOf(t);
      item.kind == t.node.kind && |item.kids| == |t.kids|
      && forall i :: 0 <= i < |t.kids| ==>
        Apart(t.kids[i]) && item.kids[i] == ItemOf(t.kids[i]) && item.kids[i].name == t.kids[i].node.name
  {
    forall i | 0 <= i < |t.kids|
      ensures Apart(t.kids[i]) && ItemOf(t.kids[i]).name == t.kids[i].node.name
    {
    }
  }

  // ----- The children of a value -----

  /** Array elements as members without a name, or the members of an object. */
  function MembersIn(v: Json): seq<Member> {
    match v
    case Array(items) => seq(|items|, i requires 0 <= i < |items| => Member([], items[i]))
    case Object(members) => members
    case _ => []
  }

  lemma {:induction false} MembersEach(items: seq<Item>, named: bool)
    requires MembersOf(items, named).Some?
    ensures
      var members := MembersOf(items, named).value;
      |members| == |items|
      && forall i :: 0 <= i < |items| ==>
        JsonOf(items[i]) == Some(members[i].value) && (named ==> items[i].name == Some(members[i].key))
  {
    hide JsonOf;
    if items != [] {
      MembersEach(items[1..], named);
      assert forall i :: 1 <= i < |items| ==> items[i] == items[1..][i - 1];
    }
  }

  /** The children stand for the elements or members, in order. */
  lemma KidsRead(t: Place, v: Json)
    requires Apart(t) && Reads(t, v) && (v.Array? || v.Object?)
    ensures |t.kids| == |MembersIn(v)|
    ensures forall i :: 0 <= i < |t.kids| ==>
      Apart(t.kids[i]) && Reads(t.kids[i], MembersIn(v)[i].value)
      && (v.Object? ==> t.kids[i].node.name == Some(MembersIn(v)[i].key))
  {
    hide MembersOf, Apart;
    ItemFields(t);
    MembersEach(ItemOf(t).kids, v.Object?);
  }

  /** A tree of nodes that stands for a value. */
  ghost predicate Shows(t: Place, v: Json)
    reads t.nodes
  {
    Stands(t) && Apart(t) && Reads(t, v) && Valid(v)
  }

  /** Kinds and scalars of a node are those of its value. */
  lemma NodeShows(t: Place, v: Json)
    requires Shows(t, v)
    ensures match v
      case Null => t.node.kind == NullKind
      case False => t.node.kind == FalseKind
      case True => t.node.kind == TrueKind
      case Number(n) => t.node.kind == NumberKind && t.node.valueint == n
      case String(s) => t.node.kind == StringKind && t.node.valuestring == Some(s)
      case Array(items) => t.node.kind == ArrayKind
      case Object(members) => t.node.kind == ObjectKind
  {
    hide MembersOf;
    ItemFields(t);
  }

  lemma KidsShow(t: Place, v: Json)
    requires Shows(t, v) && (v.Array? || v.Object?)
    ensures |t.kids| == |MembersIn(v)|
    ensures forall i :: 0 <= i < |t.kids| ==>
      Shows(t.kids[i], MembersIn(v)[i].value) && t.kids[i].nodes <= t.nodes
      && (v.Object? ==> t.kids[i].node.name == Some(MembersIn(v)[i].key))
    ensures t.node.child == if t.kids == [] then null else t.kids[0].node
    ensures forall i :: 0 <= i < |t.kids| ==> t.kids[i].node.next == if i + 1 < |t.kids| then t.kids[i + 1].node else null
  {
    hide Reads, Children;
    KidsRead(t, v);
    FirstChildOf(t);
    forall i | 0 <= i < |t.kids|
      ensures Stands(t.kids[i]) && t.kids[i].nodes <= t.nodes
      ensures t.kids[i].node.next == if i + 1 < |t.kids| then t.kids[i + 1].node else null
    {
      NextChildOf(t, i);
    }
  }

  lemma NextKid(t: Place, w: Json, k: nat)
    requires Shows(t, w) && (w.Array? || w.Object?) && k < |t.kids|
    ensures |t.kids| == |MembersIn(w)|
    ensures t.kids[k].node.next == if k + 1 < |t.kids| then t.kids[k + 1].node else null
  {
    hide Reads, Stands;
    NextChildOf(t, k);
    KidsRead(t, w);
  }

  lemma ShowsValid(t: Place, v: Json)
    requires Shows(t, v)
    ensures Valid(v)
  {}
}
