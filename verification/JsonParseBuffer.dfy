/**
  The parser as the program runs it: a buffer with an offset and a depth that its methods advance, and nodes that
  they fill and link.  Every method is tied to the function of JsonParser on the input that is left, and to the tree
  of nodes that it builds.
 */
module JsonParseBuffer {
  import opened JsonText
  import opened JsonString
  import opened JsonList
  import opened JsonNodes
  import opened JsonTree
  import opened Wrappers
  import P = JsonParser

  /** What a parsing method returns; Unsupported is a number outside the range of int. */
  datatype Status = Parsed | Failed | Unsupported

  datatype Outcome<+T> = Done(value: T) | Rejected | Unknown

  /** The outcome with its value, which exists as nodes only. */
  function AsOutcome<T>(r: Status, v: T): Outcome<T> {
    match r
    case Parsed => Done(v)
    case Failed => Rejected
    case Unsupported => Unknown
  }

  // ----- Nodes and the values they stand for -----

  /** The node has become a tree that stands for the value; all its other nodes are in the set. */
  ghost predicate Became(t: Place, node: Node, v: Json)
    reads t.nodes`child, t.nodes`next, t.nodes`prev, t.nodes`kind, t.nodes`valueint, t.nodes`valuestring, t.nodes`name
  {
    t.node == node && Stands(t) && Apart(t) && Reads(t, v)
  }

  lemma LeafBecame(node: Node, v: Json)
    requires node.child == null
    requires match v
      case Null => node.kind == NullKind
      case False => node.kind == FalseKind
      case True => node.kind == TrueKind
      case Number(n) => node.kind == NumberKind && node.valueint == n
      case String(s) => node.kind == StringKind && node.valuestring == Some(s)
      case _ => false
    ensures Became(Place(node, [], {node}), node, v)
  {
    var t := Place(node, [], {node});
    assert Roots(t.kids) == [];
    assert ItemOf(t).kids == [];
  }

  /** The trees stand for the members, in order; array elements are members without a name. */
  ghost predicate MembersRead(kids: seq<Place>, nodes: set<Node>, members: seq<Member>, named: bool)
    reads nodes`kind, nodes`valueint, nodes`valuestring, nodes`name
  {
    |kids| == |members|
    && forall i :: 0 <= i < |kids| ==>
      Apart(kids[i]) && kids[i].nodes <= nodes && kids[i].node in nodes && Reads(kids[i], members[i].value)
      && (if named then kids[i].node.name == Some(members[i].key) else members[i].key == [])
  }

  /** A row of finished trees. */
  ghost predicate Built(head: Node?, last: Node?, kids: seq<Place>, nodes: set<Node>, members: seq<Member>, named: bool)
    reads nodes
  {
    Standing(kids, nodes) && RootsIn(kids, nodes) && Row(head, last, Roots(kids)) && MembersRead(kids, nodes, members, named)
  }

  ghost predicate RootsIn(kids: seq<Place>, nodes: set<Node>) {
    forall i :: 0 <= i < |kids| ==> kids[i].node in nodes
  }

  ghost predicate Standing(kids: seq<Place>, nodes: set<Node>)
    reads nodes`child, nodes`next, nodes`prev
  {
    Within(kids, nodes) && forall i :: 0 <= i < |kids| ==> Stands(kids[i])
  }

  lemma NothingBuilt(named: bool)
    ensures Built(null, null, [], {}, [], named)
  {}

  /** A blank node that was hooked in behind the last tree of a row. */
  ghost predicate Hooked(head: Node?, n: Node, kids: seq<Place>, nodes: set<Node>, members: seq<Member>, named: bool)
    reads nodes, n`next, n`prev
  {
    n !in nodes && n.next == null && Standing(kids, nodes) && RootsIn(kids, nodes)
    && Row(head, n, Roots(kids) + [n]) && MembersRead(kids, nodes, members, named)
  }

  method Hook(head: Node?, last: Node?, n: Node, ghost kids: seq<Place>, ghost nodes: set<Node>,
              ghost members: seq<Member>, named: bool) returns (first: Node)
    requires Built(head, last, kids, nodes, members, named) && n !in nodes && n.next == null
    modifies Only(last)`next, n`prev
    ensures Hooked(first, n, kids, nodes, members, named)
  {
    hide Within, Stands, MembersRead;
    ghost var s := Roots(kids);
    RootsDiffer(kids, nodes);
    RowLast(head, last, s);
    if last == null {
      first := n;
    } else {
      first := head;
      last.next := n;
      n.prev := last;
    }
    forall i | 0 <= i < |kids|
      ensures Stands(kids[i])
    {
    }
  }

  lemma RootsDiffer(kids: seq<Place>, nodes: set<Node>)
    requires Within(kids, nodes)
    ensures Distinct(Roots(kids)) && forall n :: n in Roots(kids) ==> n in nodes
    ensures forall i :: 0 <= i < |kids| ==> kids[i].nodes <= nodes
    ensures kids != [] ==> forall i :: 0 <= i < |kids| ==> Roots(kids)[|kids| - 1] !in kids[i].nodes - {kids[i].node}
  {}

  lemma BuiltHead(head: Node?, last: Node?, kids: seq<Place>, nodes: set<Node>, members: seq<Member>, named: bool)
    requires Built(head, last, kids, nodes, members, named)
    ensures head != null ==> head in nodes
  {
    RowLast(head, last, Roots(kids));
  }

  /** The hooked node has become a tree of its own. */
  lemma BuiltNext(head: Node?, n: Node, kids: seq<Place>, nodes: set<Node>, members: seq<Member>, named: bool,
                  k: Place, m: Member)
    requires Hooked(head, n, kids, nodes, members, named) && Became(k, n, m.value) && k.nodes !! nodes
    requires if named then n.name == Some(m.key) else m.key == []
    ensures Built(head, n, kids + [k], nodes + k.nodes, members + [m], named)
  {
    hide Within, Stands, Reads, Row, Apart;
    StandsNode(k);
    WithinAppend(kids, nodes, k);
    var all := kids + [k];
    assert forall i :: 0 <= i < |all| ==> all[i] == if i < |kids| then kids[i] else k;
    assert Roots(all) == Roots(kids) + [n];
  }

  lemma {:induction false} MembersOfKids(items: seq<Item>, members: seq<Member>, named: bool)
    requires |items| == |members|
    requires forall i :: 0 <= i < |items| ==>
      JsonOf(items[i]) == Some(members[i].value)
      && (if named then items[i].name == Some(members[i].key) else members[i].key == [])
    ensures MembersOf(items, named) == Some(members)
  {
    hide JsonOf;
    if items != [] {
      MembersOfKids(items[1..], members[1..], named);
      assert members == [members[0]] + members[1..];
    }
  }

  lemma ListReads(t: Place, members: seq<Member>, named: bool)
    requires Apart(t) && t.node.kind == (if named then ObjectKind else ArrayKind)
    requires MembersRead(t.kids, t.nodes, members, named)
    ensures Reads(t, ListValue(members, named))
  {
    hide MembersOf, Apart;
    ItemFields(t);
    var items := ItemOf(t).kids;
    MembersOfKids(items, members, named);
  }

  /** The end of an array or object: the first child learns where the last one is, and the item where the first is. */
  method FinishList(item: Node, head: Node?, last: Node?, ghost kids: seq<Place>, ghost nodes: set<Node>,
                    ghost members: seq<Member>, named: bool) returns (ghost t: Place)
    requires Built(head, last, kids, nodes, members, named) && item !in nodes
    modifies Only(head)`prev, item`kind, item`child
    ensures t.nodes == nodes + {item} && Became(t, item, ListValue(members, named))
  {
    hide Apart, Reads, Stands, MembersRead, Within, Row;
    RowLast(head, last, Roots(kids));
    KidsApart(item, kids, nodes);
    RootsDiffer(kids, nodes);
    LinkList(item, head, last, kids, nodes, named);
    t := Place(item, kids, nodes + {item});
    assert MembersRead(kids, nodes, members, named);
    FinishedStands(t, nodes);
    FinishedReads(t, nodes, members, named);
  }

  method LinkList(item: Node, head: Node?, last: Node?, ghost kids: seq<Place>, ghost nodes: set<Node>, named: bool)
    requires Standing(kids, nodes) && Row(head, last, Roots(kids)) && item !in nodes
    modifies Only(head)`prev, item`kind, item`child
    ensures Standing(kids, nodes) && Children(item, Roots(kids)) && item.kind == if named then ObjectKind else ArrayKind
  {
    hide Children, Apart, Within;
    RowLast(head, last, Roots(kids));
    KidsApart(item, kids, nodes);
    RootsDiffer(kids, nodes);
    if head != null {
      head.prev := last;
    }
    item.kind := if named then ObjectKind else ArrayKind;
    item.child := head;
    assert Row(item.child, last, Roots(kids));
    RowChildren(item, last, Roots(kids));
    forall i | 0 <= i < |kids|
      ensures Stands(kids[i])
    {
    }
  }

  lemma FinishedStands(t: Place, nodes: set<Node>)
    requires Standing(t.kids, nodes) && Children(t.node, Roots(t.kids)) && t.node !in nodes && t.nodes == nodes + {t.node}
    ensures Stands(t) && Apart(t)
  {
    hide Children;
    assert t.nodes - {t.node} == nodes;
    StandsApart(t);
  }

  lemma FinishedReads(t: Place, nodes: set<Node>, members: seq<Member>, named: bool)
    requires Apart(t) && MembersRead(t.kids, nodes, members, named) && nodes <= t.nodes
    requires t.node.kind == if named then ObjectKind else ArrayKind
    ensures Reads(t, ListValue(members, named))
  {
    hide Apart, Reads;
    ListReads(t, members, named);
  }

  // ----- Steps of the grammar -----

  lemma SpaceStep(s: Bytes)
    ensures s != [] && s[0] <= SPACE ==> P.DropSpace(s) == P.DropSpace(s[1..])
    ensures s == [] || s[0] > SPACE ==> P.DropSpace(s) == s
  {}

  lemma {:induction false} SkipTwice(s: Bytes)
    ensures P.Skip(P.Skip(s)) == P.Skip(s)
  {
    var r := P.DropSpace(s);
    if r == [] && s != [] {
      LastIsSpace(s);
      var last := s[|s| - 1..];
      assert last[1..] == [];
      SpaceStep(last);
      SpaceStep([]);
      assert last[|last| - 1..] == last;
    } else {
      SpaceStep(r);
    }
  }

  lemma {:induction false} LastIsSpace(s: Bytes)
    requires s != [] && P.DropSpace(s) == []
    ensures s[|s| - 1] <= SPACE
  {
    if |s| > 1 {
      LastIsSpace(s[1..]);
    }
  }

  function PrependItems<T>(front: seq<T>, tail: P.Parsed<seq<T>>): P.Parsed<seq<T>> {
    match tail
    case Ok(items, rest) => P.Ok(front + items, rest)
    case Rejected => P.Rejected
    case Unmodelled => P.Unmodelled
  }

  lemma PrependOne<T>(front: seq<T>, item: T, tail: P.Parsed<seq<T>>)
    ensures PrependItems(front, PrependItems([item], tail)) == PrependItems(front + [item], tail)
    ensures PrependItems([], tail) == tail
  {
    if tail.Ok? {
      assert front + ([item] + tail.value) == front + [item] + tail.value;
      assert [] + tail.value == tail.value;
    }
  }

  lemma PrependNothing<T>(front: seq<T>)
    ensures PrependItems(front, P.Rejected) == P.Rejected && PrependItems(front, P.Unmodelled) == P.Unmodelled
  {}

  lemma PrependLast<T>(front: seq<T>, item: T, rest: Bytes)
    ensures PrependItems(front, P.Ok([item], rest)) == P.Ok(front + [item], rest)
    ensures PrependItems(front, P.Rejected) == P.Rejected
  {}

  lemma TokenStep(s: Bytes, i: nat)
    requires i <= |s|
    ensures s[..i] + P.Token(s[i..]) ==
      if i < |s| && P.IsNumberByte(s[i]) then s[..i + 1] + P.Token(s[i + 1..]) else s[..i]
    ensures i == 0 ==> s[..i] + P.Token(s[i..]) == P.Token(s) && |P.Token(s)| <= |s|
  {
    if i < |s| {
      assert s[i..][1..] == s[i + 1..];
    }
    if i == 0 {
      assert s[0..] == s;
    }
  }

  class ParseBuffer {
    const content: Bytes
    var offset: nat
    var depth: nat

    constructor (content: Bytes)
      ensures this.content == content && offset == 0 && depth == 0
    {
      this.content := content;
      offset := 0;
      depth := 0;
    }

    ghost predicate Valid()
      reads this
    {
      offset <= |content|
    }

    /** The input that is left. */
    ghost function Rest(): Bytes
      requires Valid()
      reads this
    {
      content[offset..]
    }

    /** The outcome of a method and the state it leaves agree with the function's result. */
    ghost predicate Agrees<T>(p: P.Parsed<T>, r: Outcome<T>, before: nat)
      reads this
    {
      Valid() &&
      match p
      case Ok(value, rest) => r == Done(value) && Rest() == rest && depth == before
      case Rejected => r.Rejected?
      case Unmodelled => r.Unknown?
    }

    predicate At(b: byte)
      reads this
    {
      offset < |content| && content[offset] == b
    }

    lemma RestFacts()
      requires Valid()
      ensures Rest() == [] <==> offset == |content|
      ensures offset < |content| ==> Rest()[0] == content[offset] && Rest()[1..] == content[offset + 1..]
    {}

    lemma RestPrefix(n: nat)
      requires Valid() && offset + n <= |content|
      ensures content[offset..offset + n] == Rest()[..n]
    {}

    method SkipWhitespace()
      requires Valid()
      modifies this`offset
      ensures Valid() && Rest() == P.Skip(old(Rest()))
      ensures old(offset) < |content| ==> offset < |content|
      ensures offset == |content| ==> old(offset) == |content|
    {
      hide P.DropSpace;
      if offset >= |content| {
        SpaceStep([]);
        return;
      }
      ghost var start := offset;
      while offset < |content| && content[offset] <= SPACE
        invariant start <= offset <= |content|
        invariant P.DropSpace(content[start..]) == P.DropSpace(content[offset..])
      {
        RestFacts();
        SpaceStep(content[offset..]);
        offset := offset + 1;
      }
      SpaceStep(content[offset..]);
      if offset == |content| {
        offset := offset - 1;
        assert content[start..][|content[start..]| - 1..] == content[offset..];
      }
    }

    method StartsWith(text: Bytes) returns (ok: bool)
      requires Valid()
      ensures ok <==> text <= Rest()
    {
      ok := offset + |text| <= |content| && content[offset..offset + |text|] == text;
      if offset + |text| <= |content| {
        assert Rest()[..|text|] == content[offset..offset + |text|];
      }
    }

    /** Copies the bytes that may belong to a number. */
    method CopyToken() returns (token: Bytes)
      requires Valid()
      ensures token == P.Token(Rest())
    {
      hide P.Token, P.IsNumberByte, Agrees;
      ghost var s := Rest();
      var i := 0;
      TokenStep(s, 0);
      while offset + i < |content| && P.IsNumberByte(content[offset + i])
        invariant 0 <= i <= |s|
        invariant P.Token(s) == s[..i] + P.Token(s[i..])
        decreases |s| - i
      {
        TokenStep(s, i);
        i := i + 1;
      }
      TokenStep(s, i);
      token := content[offset..offset + i];
      RestPrefix(i);
    }

    method ParseNumber(item: Node) returns (r: Status, ghost v: Json)
      requires Valid()
      modifies this`offset, item`kind, item`valueint
      ensures Agrees(P.ParseNumber(old(Rest())), AsOutcome(r, v), depth)
      ensures r.Parsed? ==> item.kind == NumberKind && v == Number(item.valueint)
    {
      hide P.ReadNumber, P.Token;
      v := Null;
      var token := CopyToken();
      TokenStep(Rest(), 0);
      match P.ReadNumber(token)
      case NoNumber => r := Failed;
      case OtherNumber => r := Unsupported;
      case Integer(n, length) =>
        assert Rest()[length..] == content[offset + length..];
        offset := offset + length;
        item.valueint := n;
        item.kind := NumberKind;
        r, v := Parsed, Number(n);
    }

    /** A string literal, cut at its first NUL. */
    method ParseText(item: Node) returns (ok: bool, ghost text: Bytes)
      requires Valid() && offset < |content|
      modifies this`offset, item`kind, item`valuestring
      ensures Agrees(P.ParseText(old(Rest())), AsOutcome(if ok then Parsed else Failed, text), depth)
      ensures ok ==> item.kind == StringKind && item.valuestring == Some(text) && offset > old(offset)
    {
      hide ParseLiteral;
      text := [];
      var literal := ParseString(content[offset..]);
      match literal
      case None => ok := false;
      case Some((output, rest)) =>
        LiteralSuffix(content[offset..]);
        offset := |content| - |rest|;
        assert content[offset..] == rest;
        item.kind := StringKind;
        item.valuestring := Some(CString(output));
        ok, text := true, CString(output);
    }

    method ParseValue(item: Node) returns (r: Status, ghost v: Json, ghost t: Place)
      requires Valid() && item.child == null
      modifies this`offset, this`depth, item`child, item`kind, item`valueint, item`valuestring
      ensures Agrees(P.ParseValue(old(Rest()), old(depth)), AsOutcome(r, v), old(depth))
      ensures r.Parsed? ==> offset > old(offset) && Became(t, item, v) && fresh(t.nodes - {item})
      decreases |content| - offset, 4
    {
      hide P.ParseItems, P.ParseMembers, P.ParseText, P.ParseNumber, P.Skip, Became;
      ghost var s := Rest();
      v, t := Null, Place(item, [], {item});
      RestFacts();
      var isNull := StartsWith(NULL_TEXT);
      if isNull {
        item.kind := NullKind;
        offset := offset + 4;
        assert Rest() == s[4..];
        LeafBecame(item, Null);
        return Parsed, Null, t;
      }
      var isFalse := StartsWith(FALSE_TEXT);
      if isFalse {
        item.kind := FalseKind;
        offset := offset + 5;
        assert Rest() == s[5..];
        LeafBecame(item, False);
        return Parsed, False, t;
      }
      var isTrue := StartsWith(TRUE_TEXT);
      if isTrue {
        item.kind := TrueKind;
        item.valueint := 1;
        offset := offset + 4;
        assert Rest() == s[4..];
        LeafBecame(item, True);
        return Parsed, True, t;
      }
      if At(QUOTE) {
        var ok;
        ghost var text;
        ok, text := ParseText(item);
        if !ok {
          return Failed, v, t;
        }
        LeafBecame(item, String(text));
        r, v := Parsed, String(text);
      } else if offset < |content| && (content[offset] == MINUS || IsDigit(content[offset])) {
        r, v := ParseNumber(item);
        if r.Parsed? {
          LeafBecame(item, v);
        }
      } else if At(LBRACKET) {
        r, v, t := ParseArray(item);
      } else if At(LBRACE) {
        r, v, t := ParseObject(item);
      } else {
        r := Failed;
      }
    }

    /** Past the opening bracket and the white space behind it. */
    method EnterList()
      requires Valid() && offset < |content|
      modifies this`offset, this`depth
      ensures Valid() && depth == old(depth) + 1 && offset > old(offset) && Rest() == P.Skip(old(Rest())[1..])
    {
      hide P.Skip;
      ghost var s := Rest();
      depth := depth + 1;
      offset := offset + 1;
      assert Rest() == s[1..];
      SkipWhitespace();
    }

    method ParseArray(item: Node) returns (r: Status, ghost v: Json, ghost t: Place)
      requires Valid() && At(LBRACKET) && item.child == null
      modifies this`offset, this`depth, item`child, item`kind
      ensures Agrees(ArraySpec(old(Rest()), old(depth)), AsOutcome(r, v), old(depth))
      ensures r.Parsed? ==> offset > old(offset) && Became(t, item, v) && fresh(t.nodes - {item})
      decreases |content| - offset, 3
    {
      hide P.ParseItems, P.Skip, Became, Built;
      ghost var s := Rest();
      v, t := Null, Place(item, [], {item});
      if depth >= NESTING_LIMIT {
        return Failed, v, t;
      }
      EnterList();
      RestFacts();
      NothingBuilt(false);
      if At(RBRACKET) {
        depth := depth - 1;
        offset := offset + 1;
        t := FinishList(item, null, null, [], {}, [], false);
        assert ListValue([], false) == Array([]);
        return Parsed, Array([]), t;
      }
      if offset >= |content| {
        offset := offset - 1;
        NothingLeft(depth);
        return Failed, v, t;
      }
      ghost var first := Rest();
      SkipTwice(s[1..]);
      offset := offset - 1;
      assert content[offset + 1..] == first;
      var head, last;
      ghost var members, kids, nodes;
      r, head, last, members, kids, nodes := ParseItems(first);
      if r.Parsed? {
        v := Array(Values(members));
        BuiltHead(head, last, kids, nodes, members, false);
        t := FinishList(item, head, last, kids, nodes, members, false);
      }
    }

    /** What one element tells about the list of elements that starts with it. */
    ghost predicate ItemAt(first: Bytes, d: nat, item: Outcome<Json>, more: bool)
      reads this
    {
      Valid() &&
      match item
      case Rejected => P.ParseItems(first, d) == P.Rejected
      case Unknown => P.ParseItems(first, d) == P.Unmodelled
      case Done(value) =>
        depth == d && more == At(COMMA) &&
        P.ParseItems(first, d) ==
          if more then PrependItems([value], P.ParseItems(P.Skip(content[offset + 1..]), d))
          else if At(RBRACKET) then P.Ok([value], content[offset + 1..])
          else P.Rejected
    }

    /** One element and the white space around it. */
    method ParseItem(n: Node, ghost first: Bytes) returns (r: Status, more: bool, ghost v: Json, ghost k: Place)
      requires Valid() && offset < |content| && P.Skip(content[offset + 1..]) == first && n.child == null
      modifies this`offset, this`depth, n`child, n`kind, n`valueint, n`valuestring
      ensures ItemAt(first, old(depth), AsOutcome(r, v), more)
      ensures r.Parsed? ==> offset > old(offset) && Became(k, n, v) && fresh(k.nodes - {n})
      decreases |content| - offset, 0
    {
      hide P.ParseItems, P.ParseValue, P.Skip, PrependItems, Became;
      more := false;
      ItemsStep(first, depth);
      offset := offset + 1;
      SkipWhitespace();
      r, v, k := ParseValue(n);
      if r.Parsed? {
        SkipWhitespace();
        RestFacts();
        more := At(COMMA);
      }
    }

    /** One more element: its node is hooked in before it is filled. */
    method AppendItem(ghost first: Bytes, head: Node?, last: Node?, ghost members: seq<Member>, ghost kids: seq<Place>,
                      ghost nodes: set<Node>)
      returns (r: Status, more: bool, head': Node?, last': Node?, ghost v: Json, ghost members': seq<Member>,
               ghost kids': seq<Place>, ghost nodes': set<Node>)
      requires Valid() && offset < |content| && P.Skip(content[offset + 1..]) == first
      requires Built(head, last, kids, nodes, members, false)
      modifies this`offset, this`depth, Only(last)`next
      ensures ItemAt(first, old(depth), AsOutcome(r, v), more)
      ensures r.Parsed? ==> offset > old(offset) && Built(head', last', kids', nodes', members', false)
      ensures r.Parsed? ==> Values(members') == Values(members) + [v] && fresh(nodes' - nodes) && last' != null && last' in nodes'
      decreases |content| - offset, 1
    {
      hide P.ParseItems, P.Skip, PrependItems, Became, Built, Hooked, ItemAt;
      members', kids', nodes' := members, kids, nodes;
      last' := new Node();
      head' := Hook(head, last, last', kids, nodes, members, false);
      ghost var k;
      r, more, v, k := ParseItem(last', first);
      if r.Parsed? {
        TreeNodes(k, last', v);
        BuiltNext(head', last', kids, nodes, members, false, k, Member([], v));
        members', kids', nodes' := members + [Member([], v)], kids + [k], nodes + k.nodes;
      }
    }

    /** The loop over the elements; it starts on the byte before the first one. */
    method ParseItems(ghost first: Bytes)
      returns (r: Status, head: Node?, last: Node?, ghost members: seq<Member>, ghost kids: seq<Place>, ghost nodes: set<Node>)
      requires Valid() && offset < |content| && depth > 0 && P.Skip(content[offset + 1..]) == first
      modifies this`offset, this`depth
      ensures Agrees(P.ParseItems(first, old(depth)), AsOutcome(r, Values(members)), old(depth) - 1)
      ensures r.Parsed? ==> offset > old(offset) && Built(head, last, kids, nodes, members, false) && fresh(nodes)
      decreases |content| - offset, 2
    {
      hide P.ParseItems, P.Skip, PrependItems, Became, Built, Hooked;
      ghost var d, all, current := depth, P.ParseItems(first, depth), first;
      head, last, members, kids, nodes := null, null, [], [], {};
      NothingBuilt(false);
      assert Values([]) == [];
      PrependOne(Values(members), Null, all);
      var more := true;
      while more
        invariant Valid() && depth == d && offset >= old(offset)
        invariant !more ==> offset > old(offset)
        invariant more ==> offset < |content| && P.Skip(content[offset + 1..]) == current
        invariant more ==> all == PrependItems(Values(members), P.ParseItems(current, d))
        invariant !more ==> all == if At(RBRACKET) then P.Ok(Values(members), content[offset + 1..]) else P.Rejected
        invariant Built(head, last, kids, nodes, members, false) && fresh(nodes) && (last != null ==> last in nodes)
        decreases more, |content| - offset
      {
        ghost var v;
        ghost var before := Values(members);
        r, more, head, last, v, members, kids, nodes := AppendItem(current, head, last, members, kids, nodes);
        if !r.Parsed? {
          PrependNothing(before);
          return;
        }
        if more {
          current := P.Skip(content[offset + 1..]);
          PrependOne(before, v, P.ParseItems(current, d));
        } else {
          PrependLast(before, v, content[if offset < |content| then offset + 1 else offset..]);
        }
      }
      if !At(RBRACKET) {
        r := Failed;
        return;
      }
      depth := depth - 1;
      offset := offset + 1;
      r := Parsed;
    }

    method ParseObject(item: Node) returns (r: Status, ghost v: Json, ghost t: Place)
      requires Valid() && At(LBRACE) && item.child == null
      modifies this`offset, this`depth, item`child, item`kind
      ensures Agrees(ObjectSpec(old(Rest()), old(depth)), AsOutcome(r, v), old(depth))
      ensures r.Parsed? ==> offset > old(offset) && Became(t, item, v) && fresh(t.nodes - {item})
      decreases |content| - offset, 3
    {
      hide P.ParseMembers, P.Skip, Became, Built;
      ghost var s := Rest();
      v, t := Null, Place(item, [], {item});
      if depth >= NESTING_LIMIT {
        return Failed, v, t;
      }
      EnterList();
      RestFacts();
      NothingBuilt(true);
      if At(RBRACE) {
        depth := depth - 1;
        offset := offset + 1;
        t := FinishList(item, null, null, [], {}, [], true);
        return Parsed, Object([]), t;
      }
      if offset >= |content| {
        offset := offset - 1;
        NothingLeft(depth);
        return Failed, v, t;
      }
      ghost var first := Rest();
      SkipTwice(s[1..]);
      offset := offset - 1;
      assert content[offset + 1..] == first;
      var head, last;
      ghost var members, kids, nodes;
      r, head, last, members, kids, nodes := ParseMembers(first);
      if r.Parsed? {
        v := Object(members);
        BuiltHead(head, last, kids, nodes, members, true);
        t := FinishList(item, head, last, kids, nodes, members, true);
      }
    }

    /** What one member tells about the list of members that starts with it. */
    ghost predicate MemberAt(first: Bytes, d: nat, member: Outcome<Member>, more: bool)
      reads this
    {
      Valid() &&
      match member
      case Rejected => P.ParseMembers(first, d) == P.Rejected
      case Unknown => P.ParseMembers(first, d) == P.Unmodelled
      case Done(value) =>
        depth == d && more == At(COMMA) &&
        P.ParseMembers(first, d) ==
          if more then PrependItems([value], P.ParseMembers(P.Skip(content[offset + 1..]), d))
          else if At(RBRACE) then P.Ok([value], content[offset + 1..])
          else P.Rejected
    }

    /** One member and the white space around it; at the end of the input there is none. */
    method ParseOneMember(n: Node, ghost first: Bytes) returns (r: Status, more: bool, ghost m: Member, ghost k: Place)
      requires Valid() && offset < |content| && P.Skip(content[offset + 1..]) == first && n.child == null
      modifies this`offset, this`depth, n`child, n`kind, n`valueint, n`valuestring, n`name
      ensures MemberAt(first, old(depth), AsOutcome(r, m), more)
      ensures r.Parsed? ==>
        offset > old(offset) && Became(k, n, m.value) && fresh(k.nodes - {n}) && n.name == Some(m.key)
      decreases |content| - offset, 0
    {
      hide P.ParseMembers, P.Skip, MemberSpec, PrependItems, Became;
      more := false;
      m, k := Member([], Null), Place(n, [], {n});
      if offset + 1 >= |content| {
        NothingLeft(depth);
        assert content[offset + 1..] == [];
        return Failed, false, m, k;
      }
      MembersStep(first, depth);
      offset := offset + 1;
      SkipWhitespace();
      r, m, k := ParseMember(n);
      if r.Parsed? {
        SkipWhitespace();
        RestFacts();
        more := At(COMMA);
      }
    }

    /** One more member. */
    method AppendMember(ghost first: Bytes, head: Node?, last: Node?, ghost members: seq<Member>, ghost kids: seq<Place>,
                        ghost nodes: set<Node>)
      returns (r: Status, more: bool, head': Node?, last': Node?, ghost m: Member, ghost kids': seq<Place>,
               ghost nodes': set<Node>)
      requires Valid() && offset < |content| && P.Skip(content[offset + 1..]) == first
      requires Built(head, last, kids, nodes, members, true)
      modifies this`offset, this`depth, Only(last)`next
      ensures MemberAt(first, old(depth), AsOutcome(r, m), more)
      ensures r.Parsed? ==> offset > old(offset) && Built(head', last', kids', nodes', members + [m], true)
      ensures r.Parsed? ==> fresh(nodes' - nodes) && last' != null && last' in nodes'
      decreases |content| - offset, 1
    {
      hide P.ParseMembers, P.Skip, PrependItems, Became, Built, Hooked, MemberAt;
      kids', nodes' := kids, nodes;
      last' := new Node();
      head' := Hook(head, last, last', kids, nodes, members, true);
      ghost var k;
      r, more, m, k := ParseOneMember(last', first);
      if r.Parsed? {
        TreeNodes(k, last', m.value);
        BuiltNext(head', last', kids, nodes, members, true, k, m);
        kids', nodes' := kids + [k], nodes + k.nodes;
      }
    }

    /** The loop over the members. */
    method ParseMembers(ghost first: Bytes)
      returns (r: Status, head: Node?, last: Node?, ghost members: seq<Member>, ghost kids: seq<Place>, ghost nodes: set<Node>)
      requires Valid() && offset < |content| && depth > 0 && P.Skip(content[offset + 1..]) == first
      modifies this`offset, this`depth
      ensures Agrees(P.ParseMembers(first, old(depth)), AsOutcome(r, members), old(depth) - 1)
      ensures r.Parsed? ==> offset > old(offset) && Built(head, last, kids, nodes, members, true) && fresh(nodes)
      decreases |content| - offset, 2
    {
      hide P.ParseMembers, P.Skip, PrependItems, Became, Built, Hooked;
      ghost var d, all, current := depth, P.ParseMembers(first, depth), first;
      head, last, members, kids, nodes := null, null, [], [], {};
      NothingBuilt(true);
      PrependOne(members, Member([], Null), all);
      var more := true;
      while more
        invariant Valid() && depth == d && offset >= old(offset)
        invariant !more ==> offset > old(offset)
        invariant more ==> offset < |content| && P.Skip(content[offset + 1..]) == current
        invariant more ==> all == PrependItems(members, P.ParseMembers(current, d))
        invariant !more ==> all == if At(RBRACE) then P.Ok(members, content[offset + 1..]) else P.Rejected
        invariant Built(head, last, kids, nodes, members, true) && fresh(nodes) && (last != null ==> last in nodes)
        decreases more, |content| - offset
      {
        ghost var m;
        ghost var before := members;
        r, more, head, last, m, kids, nodes := AppendMember(current, head, last, members, kids, nodes);
        if !r.Parsed? {
          PrependNothing(before);
          return;
        }
        if more {
          current := P.Skip(content[offset + 1..]);
          PrependOne(members, m, P.ParseMembers(current, d));
        } else {
          PrependLast(members, m, content[if offset < |content| then offset + 1 else offset..]);
        }
        members := members + [m];
      }
      if !At(RBRACE) {
        r := Failed;
        return;
      }
      depth := depth - 1;
      offset := offset + 1;
      r := Parsed;
    }

    /** The name, which is parsed as the string of the item and then moved, a colon and the value. */
    method ParseMember(n: Node) returns (r: Status, ghost m: Member, ghost k: Place)
      requires Valid() && offset < |content| && n.child == null
      modifies this`offset, this`depth, n`child, n`kind, n`valueint, n`valuestring, n`name
      ensures Agrees(MemberSpec(old(Rest()), old(depth)), AsOutcome(r, m), old(depth))
      ensures r.Parsed? ==>
        offset > old(offset) && Became(k, n, m.value) && fresh(k.nodes - {n}) && n.name == Some(m.key)
      decreases |content| - offset, 2
    {
      hide P.ParseText, P.ParseValue, P.Skip, Became;
      RestFacts();
      m, k := Member([], Null), Place(n, [], {n});
      var ok;
      ghost var key;
      ok, key := ParseText(n);
      if !ok {
        return Failed, m, k;
      }
      SkipWhitespace();
      RestFacts();
      n.name := n.valuestring;
      n.valuestring := None;
      if !At(COLON) {
        return Failed, m, k;
      }
      offset := offset + 1;
      SkipWhitespace();
      ghost var v;
      r, v, k := ParseValue(n);
      m := Member(key, v);
    }
  }

  lemma TreeNodes(k: Place, n: Node, v: Json)
    requires Became(k, n, v)
    ensures k.node == n && n in k.nodes
  {}

  /**
    A document: the root of the tree and where parsing ended, or a position within the input that is reported as the
    place of the error.
   */
  method ParseWithLengthOpts(content: Bytes, requireNullTerminated: bool)
    returns (r: Status, root: Node?, end: nat, ghost v: Json, ghost t: Place)
    ensures match P.ParseDocument(content, requireNullTerminated)
      case Ok(value, rest) => r.Parsed? && v == value && end == |content| - |rest|
      case Rejected => r.Failed?
      case Unmodelled => r.Unsupported?
    ensures r.Parsed? <==> root != null
    ensures r.Parsed? ==> root.next == null && root.prev == null && Became(t, root, v) && fresh(t.nodes)
    ensures !r.Parsed? ==> end < |content| || content == []
  {
    hide P.ParseValue, P.Skip, Became;
    root, end, v := null, 0, Null;
    var item := new Node();
    t := Place(item, [], {item});
    if content == [] {
      r := Failed;
      return;
    }
    var buffer := new ParseBuffer(content);
    if |content| > 4 && content[..3] == BOM {
      buffer.offset := 3;
    }
    assert buffer.Rest() == P.SkipBom(content);
    buffer.SkipWhitespace();
    r, v, t := buffer.ParseValue(item);
    if r.Parsed? && requireNullTerminated {
      buffer.SkipWhitespace();
      buffer.RestFacts();
      if !buffer.At(NUL) {
        r := Failed;
      }
    }
    if r.Parsed? {
      root, end := item, buffer.offset;
    } else {
      end := if buffer.offset < |content| then buffer.offset else |content| - 1;
    }
  }

  // ----- The grammar, one step at a time -----

  /** An array whose opening bracket comes first. */
  function ArraySpec(s: Bytes, depth: nat): P.Parsed<Json>
    requires s != []
  {
    if depth >= NESTING_LIMIT then P.Rejected
    else
      var s' := P.Skip(s[1..]);
      if s' != [] && s'[0] == RBRACKET then P.Ok(Array([]), s'[1..])
      else
        match P.ParseItems(s', depth + 1)
        case Ok(items, rest) => P.Ok(Array(items), rest)
        case Rejected => P.Rejected
        case Unmodelled => P.Unmodelled
  }

  function ObjectSpec(s: Bytes, depth: nat): P.Parsed<Json>
    requires s != []
  {
    if depth >= NESTING_LIMIT then P.Rejected
    else
      var s' := P.Skip(s[1..]);
      if s' != [] && s'[0] == RBRACE then P.Ok(Object([]), s'[1..])
      else
        match P.ParseMembers(s', depth + 1)
        case Ok(members, rest) => P.Ok(Object(members), rest)
        case Rejected => P.Rejected
        case Unmodelled => P.Unmodelled
  }

  function MemberSpec(s: Bytes, depth: nat): P.Parsed<Member> {
    match P.ParseText(s)
    case Rejected => P.Rejected
    case Unmodelled => P.Unmodelled
    case Ok(key, rest) =>
      var s' := P.Skip(rest);
      if s' == [] || s'[0] != COLON then P.Rejected
      else
        match P.ParseValue(P.Skip(s'[1..]), depth)
        case Rejected => P.Rejected
        case Unmodelled => P.Unmodelled
        case Ok(value, rest') => P.Ok(Member(key, value), rest')
  }

  lemma NothingLeft(depth: nat)
    ensures P.Skip([]) == []
    ensures P.ParseItems([], depth) == P.Rejected && P.ParseMembers([], depth) == P.Rejected
  {
    assert P.ParseValue([], depth) == P.Rejected;
    assert ParseLiteral([]) == None;
  }

  lemma ItemsStep(s: Bytes, depth: nat)
    ensures P.ParseItems(s, depth) ==
      match P.ParseValue(s, depth)
      case Rejected => P.Rejected
      case Unmodelled => P.Unmodelled
      case Ok(item, rest) =>
        var s' := P.Skip(rest);
        if s' != [] && s'[0] == COMMA then PrependItems([item], P.ParseItems(P.Skip(s'[1..]), depth))
        else if s' != [] && s'[0] == RBRACKET then P.Ok([item], s'[1..])
        else P.Rejected
  {
    hide P.ParseValue, P.Skip;
  }

  lemma MembersStep(s: Bytes, depth: nat)
    ensures P.ParseMembers(s, depth) ==
      match MemberSpec(s, depth)
      case Rejected => P.Rejected
      case Unmodelled => P.Unmodelled
      case Ok(member, rest) =>
        var s' := P.Skip(rest);
        if s' != [] && s'[0] == COMMA then PrependItems([member], P.ParseMembers(P.Skip(s'[1..]), depth))
        else if s' != [] && s'[0] == RBRACE then P.Ok([member], s'[1..])
        else P.Rejected
  {
    hide P.ParseValue, P.Skip, P.ParseText;
  }

  /** What is left after a literal is a suffix of the input. */
  lemma LiteralSuffix(s: Bytes)
    ensures match ParseLiteral(s)
      case None => true
      case Some((output, rest)) => |rest| <= |s| && rest == s[|s| - |rest|..]
  {}
}
