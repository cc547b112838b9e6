/** The comparison on nodes: what it adds to the comparison of values is that a node always equals itself. */
module JsonCompareNodes {
  import opened JsonText
  import opened JsonList
  import opened JsonNodes
  import opened JsonTree
  import opened Wrappers
  import C = JsonCompare

  /** t is a proper part of s. */
  predicate Below(t: Place, s: Place)
    decreases s
  {
    exists i :: 0 <= i < |s.kids| && (t == s.kids[i] || Below(t, s.kids[i]))
  }

  /** Two trees without a common node, or one within the other. */
  predicate Unlike(s: Place, t: Place) {
    s.nodes !! t.nodes || Below(s, t) || Below(t, s)
  }

  /** Any two places of a forest: one and the same, within one another, or apart. */
  predicate Separate(s: Place, t: Place) {
    s == t || Unlike(s, t)
  }

  lemma {:induction false} BelowNodes(t: Place, s: Place)
    requires Apart(s) && Below(t, s)
    ensures Apart(t) && t.nodes <= s.nodes - {s.node} && t.node in t.nodes
    decreases s
  {
    var i :| 0 <= i < |s.kids| && (t == s.kids[i] || Below(t, s.kids[i]));
    if t != s.kids[i] {
      BelowNodes(t, s.kids[i]);
    }
  }

  lemma {:induction false} BelowKid(t: Place, s: Place, j: nat)
    requires Below(t, s) && j < |t.kids|
    ensures Below(t.kids[j], s)
    decreases s
  {
    var i :| 0 <= i < |s.kids| && (t == s.kids[i] || Below(t, s.kids[i]));
    if t == s.kids[i] {
      assert Below(t.kids[j], t);
    } else {
      BelowKid(t, s.kids[i], j);
    }
  }

  lemma PartKids(s: Place, t: Place, i: nat, j: nat)
    requires Apart(s) && Below(t, s) && i < |s.kids| && j < |t.kids|
    ensures Unlike(s.kids[i], t.kids[j])
  {
    var m :| 0 <= m < |s.kids| && (t == s.kids[m] || Below(t, s.kids[m]));
    if t != s.kids[m] {
      BelowNodes(t, s.kids[m]);
      if m == i {
        BelowKid(t, s.kids[m], j);
      }
    }
    assert t.nodes <= s.kids[m].nodes && t.kids[j].nodes <= t.nodes;
    assert t == s.kids[m] ==> Below(t.kids[j], s.kids[m]);
  }

  /** Children of different places are different places again. */
  lemma UnlikeKids(s: Place, t: Place, i: nat, j: nat)
    requires Apart(s) && Apart(t) && Unlike(s, t) && i < |s.kids| && j < |t.kids|
    ensures Unlike(s.kids[i], t.kids[j])
  {
    if Below(t, s) {
      PartKids(s, t, i, j);
    } else if Below(s, t) {
      PartKids(t, s, j, i);
    }
  }

  lemma UnlikeNodes(s: Place, t: Place)
    requires Apart(s) && Apart(t) && Unlike(s, t)
    ensures s.node != t.node
  {
    if Below(t, s) {
      BelowNodes(t, s);
    } else if Below(s, t) {
      BelowNodes(s, t);
    }
  }

  ghost predicate Equal(s: Place, v: Json, t: Place, w: Json) {
    s.node == t.node || C.Compare(v, w)
  }

  /** The comparison as it runs on nodes. */
  method CompareNodes(a: Node?, b: Node?, ghost s: Place, ghost v: Json, ghost t: Place, ghost w: Json) returns (equal: bool)
    requires a != null ==> a == s.node && Shows(s, v)
    requires b != null ==> b == t.node && Shows(t, w)
    requires a != null && b != null ==> Separate(s, t)
    ensures equal <==> a != null && b != null && Equal(s, v, t, w)
    decreases C.Size(v) + C.Size(w), 1
  {
    hide Shows, Valid, Unlike;
    if a == null || b == null {
      return false;
    }
    NodeShows(s, v);
    NodeShows(t, w);
    SameNode(s, v, t, w);
    if a.kind != b.kind {
      return false;
    }
    if a == b {
      return true;
    }
    match a.kind
    case NumberKind => equal := C.CompareDouble(a.valueint as real, b.valueint as real);
    case StringKind => equal := a.valuestring == b.valuestring;
    case ArrayKind => equal := CompareElements(a, b, s, v, t, w);
    case ObjectKind =>
      equal := CoverMembers(a, b, s, v, t, w);
      if equal {
        equal := CoverMembers(b, a, t, w, s, v);
      }
    case _ => equal := true;
  }

  /** One node stands for one value. */
  lemma SameNode(s: Place, v: Json, t: Place, w: Json)
    requires Shows(s, v) && Shows(t, w) && Separate(s, t)
    ensures s.node == t.node ==> s == t && v == w
    ensures s.node != t.node ==> Unlike(s, t) && Unlike(t, s)
  {
    if s != t {
      UnlikeNodes(s, t);
    }
  }

  /** Both lists are walked in step; the shorter one ends the walk. */
  method CompareElements(a: Node, b: Node, ghost s: Place, ghost v: Json, ghost t: Place, ghost w: Json) returns (equal: bool)
    requires a == s.node && Shows(s, v) && v.Array? && b == t.node && Shows(t, w) && w.Array? && Unlike(s, t)
    ensures equal == C.Compare(v, w)
    decreases C.Size(v) + C.Size(w), 0
  {
    hide Shows, C.Compare, Unlike;
    KidsShow(s, v);
    KidsShow(t, w);
    ghost var x, y := v.items, w.items;
    ghost var i := 0;
    var left, right := a.child, b.child;
    ArraysCompared(x, y);
    while left != null && right != null
      invariant i <= |x| && i <= |y|
      invariant left == if i < |x| then s.kids[i].node else null
      invariant right == if i < |y| then t.kids[i].node else null
      invariant forall j :: 0 <= j < i ==> C.Compare(x[j], y[j])
      decreases |x| - i
    {
      KidsUnlike(s, v, t, w, i, i);
      var same := CompareNodes(left, right, s.kids[i], x[i], t.kids[i], y[i]);
      ApartNodes(s.kids[i], x[i], t.kids[i], y[i]);
      if !same {
        return false;
      }
      NextKid(s, v, i);
      NextKid(t, w, i);
      left, right := left.next, right.next;
      i := i + 1;
    }
    equal := left == right;
  }

  lemma ArraysCompared(x: seq<Json>, y: seq<Json>)
    ensures C.Compare(Array(x), Array(y)) <==> |x| == |y| && forall i :: 0 <= i < |x| ==> C.Compare(x[i], y[i])
    ensures forall i :: 0 <= i < |x| ==> C.Size(x[i]) < C.Size(Array(x))
    ensures forall i :: 0 <= i < |y| ==> C.Size(y[i]) < C.Size(Array(y))
  {}

  lemma ApartNodes(s: Place, v: Json, t: Place, w: Json)
    requires Shows(s, v) && Shows(t, w) && Unlike(s, t)
    ensures s.node != t.node
  {
    UnlikeNodes(s, t);
  }

  lemma KidsUnlike(s: Place, v: Json, t: Place, w: Json, i: nat, j: nat)
    requires Shows(s, v) && Shows(t, w) && Unlike(s, t) && i < |s.kids| && j < |t.kids|
    ensures Unlike(s.kids[i], t.kids[j])
  {
    UnlikeKids(s, t, i, j);
  }

  /** Every child of a is compared with the first child of b that has its name. */
  method CoverMembers(a: Node, b: Node, ghost s: Place, ghost v: Json, ghost t: Place, ghost w: Json) returns (covered: bool)
    requires a == s.node && Shows(s, v) && v.Object? && b == t.node && Shows(t, w) && w.Object? && Unlike(s, t)
    ensures covered == C.Covers(v.members, w.members)
    decreases C.Size(v) + C.Size(w), 0
  {
    hide Shows, C.Matched, Unlike;
    KidsShow(s, v);
    KidsShow(t, w);
    ghost var x, y := v.members, w.members;
    ghost var i := 0;
    var element := a.child;
    while element != null
      invariant i <= |x| && element == if i < |x| then s.kids[i].node else null
      invariant forall j :: 0 <= j < i ==> C.Matched(x[j], y)
      decreases |x| - i
    {
      var found;
      ghost var k;
      found, k := GetObjectItem(b, element.name, t, w);
      MatchMeans(x[i], y);
      if found == null {
        return false;
      }
      MemberSizes(x, i);
      MemberSizes(y, k);
      KidsUnlike(s, v, t, w, i, k);
      var same := CompareNodes(element, found, s.kids[i], x[i].value, t.kids[k], y[k].value);
      ApartNodes(s.kids[i], x[i].value, t.kids[k], y[k].value);
      if !same {
        return false;
      }
      NextKid(s, v, i);
      element := element.next;
      i := i + 1;
    }
    covered := true;
  }

  lemma MatchMeans(member: Member, y: seq<Member>)
    ensures C.Matched(member, y) <==> C.Find(y, member.key).Some? && C.Compare(member.value, C.Find(y, member.key).value)
  {
    hide C.Compare;
  }

  lemma MemberSizes(x: seq<Member>, i: nat)
    requires i < |x|
    ensures C.Size(x[i].value) < C.Size(Object(x))
  {}

  /** The first child with the name. */
  method GetObjectItem(parent: Node?, name: Option<Bytes>, ghost t: Place, ghost w: Json) returns (found: Node?, ghost k: nat)
    requires parent != null ==> parent == t.node && Shows(t, w) && w.Object?
    ensures found == null <==> parent == null || name.None? || C.Find(w.members, name.value).None?
    ensures found != null ==>
      k < |t.kids| && k < |w.members| && found == t.kids[k].node && C.Find(w.members, name.value) == Some(w.members[k].value)
      && w.members[k].key == name.value && forall j :: 0 <= j < k ==> w.members[j].key != name.value
  {
    hide Shows, C.Find, MembersIn;
    k := 0;
    if parent == null || name.None? {
      return null, 0;
    }
    KidsShow(t, w);
    ghost var y := w.members;
    assert MembersIn(w) == y by { NamedMembers(w); }
    found := parent.child;
    FindFrom(y, 0, name.value);
    while found != null && found.name.Some? && found.name.value != name.value
      invariant k <= |y| && found == if k < |y| then t.kids[k].node else null
      invariant C.Find(y, name.value) == C.Find(y[k..], name.value)
      invariant forall j :: 0 <= j < k ==> y[j].key != name.value
      decreases |y| - k
    {
      FindFrom(y, k, name.value);
      NextKid(t, w, k);
      found := found.next;
      k := k + 1;
    }
    FindFrom(y, k, name.value);
    if found == null || found.name.None? {
      return null, 0;
    }
  }

  lemma NamedMembers(w: Json)
    requires w.Object?
    ensures MembersIn(w) == w.members
  {}

  lemma FindFrom(y: seq<Member>, k: nat, name: Bytes)
    requires k <= |y|
    ensures k == 0 ==> y[k..] == y
    ensures C.Find(y[k..], name) ==
      if k == |y| then None else if y[k].key == name then Some(y[k].value) else C.Find(y[k + 1..], name)
  {
    if k < |y| {
      assert y[k..][1..] == y[k + 1..];
    }
  }

  /** On nodes the comparison is an equivalence without exception. */
  lemma EqualIsEquivalence(r: Place, u: Json, s: Place, v: Json, t: Place, w: Json)
    requires Shows(r, u) && Shows(s, v) && Shows(t, w)
    requires Separate(r, s) && Separate(s, t) && Separate(r, t)
    ensures Equal(r, u, r, u)
    ensures Equal(r, u, s, v) <==> Equal(s, v, r, u)
    ensures Equal(r, u, s, v) && Equal(s, v, t, w) ==> Equal(r, u, t, w)
  {
    hide Shows, Valid, C.Compare, C.Consistent;
    ShowsValid(r, u);
    ShowsValid(s, v);
    ShowsValid(t, w);
    SameNode(r, u, s, v);
    SameNode(s, v, t, w);
    C.CompareEquivalence(u, v, w);
  }
}
