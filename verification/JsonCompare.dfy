/**
  Structural comparison of two trees.  Objects are compared by key: every member of either object must
  equal the first member of the other one that has its key.
 */
module JsonCompare {
  import opened FiniteSets
  import opened Wrappers
  import opened JsonText
  import opened JsonTree

  // ----- Numbers -----

  /** DBL_EPSILON, which is 2 to the power of -52. */
  const EPSILON: real := 1.0 / 4503599627370496.0

  function Abs(x: real): real {
    if x < 0.0 then -x else x
  }

  predicate CompareDouble(a: real, b: real) {
    var maxVal := if Abs(a) > Abs(b) then Abs(a) else Abs(b);
    Abs(a - b) <= maxVal * EPSILON
  }

  /** On the range of int the tolerant comparison is equality. */
  lemma IntegersExact(m: int, n: int)
    requires IsInt(m) && IsInt(n)
    ensures CompareDouble(m as real, n as real) <==> m == n
  {
    var a, b := m as real, n as real;
    var maxVal := if Abs(a) > Abs(b) then Abs(a) else Abs(b);
    assert 0.0 <= maxVal <= 2147483648.0;
    assert maxVal * EPSILON < 1.0;
    if m != n {
      assert Abs(a - b) >= 1.0;
    }
  }

  /** On other numbers it is no equivalence: three neighbouring doubles. */
  lemma DoublesNotTransitive()
    ensures CompareDouble(1.0, 1.0 + EPSILON) && CompareDouble(1.0 + EPSILON, 1.0 + EPSILON + EPSILON)
    ensures !CompareDouble(1.0, 1.0 + EPSILON + EPSILON)
  {}

  // ----- Comparison -----

  /** A measure for comparing two trees in either order. */
  function Size(t: Json): nat
    decreases t, 0
  {
    match t
    case Array(items) => 1 + ItemsSize(items)
    case Object(members) => 1 + MembersSize(members)
    case _ => 1
  }

  function ItemsSize(items: seq<Json>): (size: nat)
    ensures forall i :: 0 <= i < |items| ==> Size(items[i]) <= size
    decreases items, 1
  {
    if items == [] then 0 else
      assert forall i :: 1 <= i < |items| ==> items[i] == items[1..][i - 1];
      Size(items[0]) + ItemsSize(items[1..])
  }

  function MembersSize(members: seq<Member>): (size: nat)
    ensures forall i :: 0 <= i < |members| ==> Size(members[i].value) <= size
    decreases members, 1
  {
    if members == [] then 0 else
      assert forall i :: 1 <= i < |members| ==> members[i] == members[1..][i - 1];
      Size(members[0].value) + MembersSize(members[1..])
  }

  /** The value of the first member with the key. */
  function Find(members: seq<Member>, key: Bytes): (found: Option<Json>)
    ensures found.Some? <==> exists i :: 0 <= i < |members| && members[i].key == key
    ensures found.Some? ==> exists i :: 0 <= i < |members| && members[i] == Member(key, found.value)
  {
    if members == [] then None
    else if members[0].key == key then
      assert members[0] == Member(key, members[0].value);
      Some(members[0].value)
    else
      assert forall i :: 1 <= i < |members| ==> members[i] == members[1..][i - 1];
      assert forall i :: 0 <= i < |members| - 1 ==> members[1..][i] == members[i + 1];
      Find(members[1..], key)
  }

  /** Of members with one key the first is found. */
  lemma {:induction false} FindFirst(members: seq<Member>, i: nat)
    requires i < |members| && forall j :: 0 <= j < i ==> members[j].key != members[i].key
    ensures Find(members, members[i].key) == Some(members[i].value)
  {
    if i > 0 {
      FindFirst(members[1..], i - 1);
    }
  }

  lemma FoundSize(members: seq<Member>, key: Bytes)
    requires Find(members, key).Some?
    ensures Size(Find(members, key).value) <= MembersSize(members)
  {}

  /** Whether the two trees compare equal. */
  predicate Compare(a: Json, b: Json)
    decreases Size(a) + Size(b), 1
  {
    match (a, b)
    case (Null, Null) => true
    case (False, False) => true
    case (True, True) => true
    case (Number(m), Number(n)) => CompareDouble(m as real, n as real)
    case (String(s), String(t)) => s == t
    case (Array(x), Array(y)) =>
      |x| == |y| && forall i :: 0 <= i < |x| ==> Compare(x[i], y[i])
    case (Object(x), Object(y)) =>
      Covers(x, y) && Covers(y, x)
    case _ => false
  }

  /** Every member of x equals the first member of y with its key. */
  predicate Covers(x: seq<Member>, y: seq<Member>)
    decreases MembersSize(x) + MembersSize(y), 3
  {
    forall i :: 0 <= i < |x| ==> Matched(x[i], y)
  }

  predicate Matched(member: Member, y: seq<Member>)
    decreases Size(member.value) + MembersSize(y), 2
  {
    var found := Find(y, member.key);
    found.Some? &&
    (FoundSize(y, member.key);
     Compare(member.value, found.value))
  }

  // ----- What the comparison means -----

  /** A tree without the order of object members: of equal keys only the first counts. */
  datatype Canonical =
    | Atom(value: Json)
    | Listed(items: seq<Canonical>)
    | Keyed(members: map<Bytes, Canonical>)

  function Canon(t: Json): Canonical
    decreases t, 0
  {
    match t
    case Array(items) => Listed(CanonItems(items))
    case Object(members) => Keyed(CanonMembers(members))
    case _ => Atom(t)
  }

  function CanonItems(items: seq<Json>): (r: seq<Canonical>)
    ensures |r| == |items| && forall i :: 0 <= i < |items| ==> r[i] == Canon(items[i])
    decreases items, 1
  {
    if items == [] then [] else [Canon(items[0])] + CanonItems(items[1..])
  }

  function CanonMembers(members: seq<Member>): map<Bytes, Canonical>
    decreases members, 1
  {
    if members == [] then map[] else CanonMembers(members[1..])[members[0].key := Canon(members[0].value)]
  }

  lemma {:induction false} CanonFind(members: seq<Member>, key: Bytes)
    ensures key in CanonMembers(members) <==> Find(members, key).Some?
    ensures key in CanonMembers(members) ==> CanonMembers(members)[key] == Canon(Find(members, key).value)
  {
    hide Canon;
    if members != [] {
      CanonFind(members[1..], key);
    }
  }

  /** Members with the same key have the same canonical value, in every object of the tree. */
  predicate Consistent(t: Json)
    decreases t, 0
  {
    match t
    case Array(items) => forall i :: 0 <= i < |items| ==> Consistent(items[i])
    case Object(members) =>
      forall i :: 0 <= i < |members| ==>
        Consistent(members[i].value)
        && Find(members, members[i].key) != None
        && Canon(members[i].value) == Canon(Find(members, members[i].key).value)
    case _ => true
  }

  lemma FoundIsMember(members: seq<Member>, key: Bytes) returns (i: nat)
    requires Find(members, key).Some?
    ensures i < |members| && members[i] == Member(key, Find(members, key).value)
  {
    i :| 0 <= i < |members| && members[i] == Member(key, Find(members, key).value);
  }

  /** Comparison is equality of canonical forms, on trees whose repeated keys agree, and fails on all others. */
  lemma {:induction false} CompareMeaning(a: Json, b: Json)
    requires Valid(a) && Valid(b)
    ensures Compare(a, b) <==> Consistent(a) && Consistent(b) && Canon(a) == Canon(b)
    decreases Size(a) + Size(b), 1
  {
    match (a, b)
    case (Number(m), Number(n)) => IntegersExact(m, n);
    case (Array(x), Array(y)) => ArraysMeaning(x, y);
    case (Object(x), Object(y)) => ObjectsMeaning(x, y);
    case _ =>
  }

  lemma {:induction false} ArraysMeaning(x: seq<Json>, y: seq<Json>)
    requires Valid(Array(x)) && Valid(Array(y))
    ensures Compare(Array(x), Array(y)) <==> Consistent(Array(x)) && Consistent(Array(y)) && Canon(Array(x)) == Canon(Array(y))
    decreases ItemsSize(x) + ItemsSize(y), 2
  {
    if |x| == |y| {
      forall i | 0 <= i < |x|
        ensures Compare(x[i], y[i]) <==> Consistent(x[i]) && Consistent(y[i]) && Canon(x[i]) == Canon(y[i])
      {
        CompareMeaning(x[i], y[i]);
      }
      var cx, cy := CanonItems(x), CanonItems(y);
      assert cx == cy <==> forall i :: 0 <= i < |x| ==> cx[i] == cy[i];
    }
  }

  /** What a match of one member means. */
  lemma {:induction false} MatchedMeaning(member: Member, y: seq<Member>)
    requires Valid(member.value) && Valid(Object(y))
    ensures Matched(member, y) <==>
      Find(y, member.key).Some? && Consistent(member.value) && Consistent(Find(y, member.key).value)
      && Canon(member.value) == Canon(Find(y, member.key).value)
    decreases Size(member.value) + MembersSize(y), 2
  {
    if Find(y, member.key).Some? {
      FoundSize(y, member.key);
      var i := FoundIsMember(y, member.key);
      CompareMeaning(member.value, Find(y, member.key).value);
    }
  }

  lemma {:induction false} CoversMeaning(x: seq<Member>, y: seq<Member>)
    requires Valid(Object(x)) && Valid(Object(y))
    ensures Covers(x, y) <==> AllMatched(x, y)
    decreases MembersSize(x) + MembersSize(y), 3
  {
    hide Matched, Consistent, Canon;
    forall i | 0 <= i < |x|
      ensures Matched(x[i], y) <==> MeansMatched(x[i], y)
    {
      MatchedMeaning(x[i], y);
    }
  }

  lemma {:induction false} ObjectsMeaning(x: seq<Member>, y: seq<Member>)
    requires Valid(Object(x)) && Valid(Object(y))
    ensures Compare(Object(x), Object(y)) <==> Consistent(Object(x)) && Consistent(Object(y)) && Canon(Object(x)) == Canon(Object(y))
    decreases MembersSize(x) + MembersSize(y), 4
  {
    hide Covers, AllMatched, CanonMembers, Valid;
    CoversMeaning(x, y);
    CoversMeaning(y, x);
    if Compare(Object(x), Object(y)) {
      CoveredAgree(x, y);
      CoveredAgree(y, x);
      SameCanon(x, y);
    }
    if Consistent(Object(x)) && Consistent(Object(y)) && Canon(Object(x)) == Canon(Object(y)) {
      CanonCovers(x, y);
      CanonCovers(y, x);
    }
  }

  predicate MeansMatched(member: Member, y: seq<Member>) {
    Find(y, member.key).Some? && Consistent(member.value) && Consistent(Find(y, member.key).value)
    && Canon(member.value) == Canon(Find(y, member.key).value)
  }

  predicate AllMatched(x: seq<Member>, y: seq<Member>) {
    forall i :: 0 <= i < |x| ==> MeansMatched(x[i], y)
  }

  /** If each object covers the other, then the members of one key agree in both. */
  lemma CoveredAgree(x: seq<Member>, y: seq<Member>)
    requires AllMatched(x, y) && AllMatched(y, x)
    ensures Consistent(Object(x))
    ensures forall key :: key in CanonMembers(x) ==> key in CanonMembers(y) && CanonMembers(x)[key] == CanonMembers(y)[key]
  {
    hide Canon;
    forall i | 0 <= i < |x|
      ensures Consistent(x[i].value) && Find(x, x[i].key).Some? && Canon(x[i].value) == Canon(Find(x, x[i].key).value)
    {
      assert MeansMatched(x[i], y);
      var j := FoundIsMember(y, x[i].key);
      assert MeansMatched(y[j], x);
    }
    forall key | key in CanonMembers(x)
      ensures key in CanonMembers(y) && CanonMembers(x)[key] == CanonMembers(y)[key]
    {
      CanonFind(x, key);
      CanonFind(y, key);
      var i := FoundIsMember(x, key);
      assert MeansMatched(x[i], y);
    }
  }

  lemma SameCanon(x: seq<Member>, y: seq<Member>)
    requires forall key :: key in CanonMembers(x) ==> key in CanonMembers(y) && CanonMembers(x)[key] == CanonMembers(y)[key]
    requires forall key :: key in CanonMembers(y) ==> key in CanonMembers(x) && CanonMembers(y)[key] == CanonMembers(x)[key]
    ensures CanonMembers(x) == CanonMembers(y)
  {}

  lemma CanonCovers(x: seq<Member>, y: seq<Member>)
    requires Consistent(Object(x)) && Consistent(Object(y)) && CanonMembers(x) == CanonMembers(y)
    ensures AllMatched(x, y)
  {
    hide Canon;
    forall i | 0 <= i < |x|
      ensures MeansMatched(x[i], y)
    {
      CanonFind(x, x[i].key);
      CanonFind(y, x[i].key);
      var j := FoundIsMember(y, x[i].key);
    }
  }

  // ----- Consequences -----

  /** An equivalence on consistent trees, and reflexive on no others. */
  lemma CompareEquivalence(a: Json, b: Json, c: Json)
    requires Valid(a) && Valid(b) && Valid(c)
    ensures Compare(a, a) <==> Consistent(a)
    ensures Compare(a, b) <==> Compare(b, a)
    ensures Compare(a, b) && Compare(b, c) ==> Compare(a, c)
  {
    hide Compare, Consistent, Canon, Valid;
    CompareMeaning(a, a);
    CompareMeaning(a, b);
    CompareMeaning(b, a);
    CompareMeaning(b, c);
    CompareMeaning(a, c);
  }

  predicate DistinctKeys(t: Json)
    decreases t, 0
  {
    match t
    case Array(items) => forall i :: 0 <= i < |items| ==> DistinctKeys(items[i])
    case Object(members) =>
      KeysDiffer(members) && forall i :: 0 <= i < |members| ==> DistinctKeys(members[i].value)
    case _ => true
  }

  predicate KeysDiffer(members: seq<Member>) {
    forall i, j :: 0 <= i < j < |members| ==> members[i].key != members[j].key
  }

  lemma DistinctFind(members: seq<Member>, i: nat)
    requires KeysDiffer(members) && i < |members|
    ensures Find(members, members[i].key) == Some(members[i].value)
  {
    var j := FoundIsMember(members, members[i].key);
  }

  lemma {:induction false} DistinctConsistent(t: Json)
    requires DistinctKeys(t)
    ensures Consistent(t)
    decreases t
  {
    match t
    case Array(items) =>
      forall i | 0 <= i < |items|
        ensures Consistent(items[i])
      {
        DistinctConsistent(items[i]);
      }
    case Object(members) =>
      forall i | 0 <= i < |members|
        ensures Consistent(members[i].value) && Find(members, members[i].key) == Some(members[i].value)
      {
        DistinctConsistent(members[i].value);
        DistinctFind(members, i);
      }
    case _ =>
  }

  /** With distinct keys everywhere, comparison holds exactly between trees that differ in member order only. */
  lemma CompareDistinct(a: Json, b: Json)
    requires Valid(a) && Valid(b) && DistinctKeys(a) && DistinctKeys(b)
    ensures Compare(a, b) <==> SameUpToOrder(a, b)
  {
    hide Compare, Consistent, Canon, Valid, SameUpToOrder;
    DistinctConsistent(a);
    DistinctConsistent(b);
    CompareMeaning(a, b);
    OrderMeaning(a, b);
  }

  /** Arrays agree place by place, objects up to a one-to-one assignment of their members. */
  ghost predicate SameUpToOrder(a: Json, b: Json)
    decreases a
  {
    match (a, b)
    case (Array(x), Array(y)) => |x| == |y| && forall i :: 0 <= i < |x| ==> SameUpToOrder(x[i], y[i])
    case (Object(x), Object(y)) =>
      |x| == |y| && exists p: seq<nat> ::
        Permutation(p, |x|)
        && forall i :: 0 <= i < |x| ==> x[i].key == y[p[i]].key && SameUpToOrder(x[i].value, y[p[i]].value)
    case _ => a == b
  }

  predicate Permutation(p: seq<nat>, n: nat) {
    |p| == n && (forall i :: 0 <= i < n ==> p[i] < n) && (forall i, j :: 0 <= i < j < n ==> p[i] != p[j])
  }

  lemma {:induction false} OrderMeaning(a: Json, b: Json)
    requires DistinctKeys(a) && DistinctKeys(b)
    ensures SameUpToOrder(a, b) <==> Canon(a) == Canon(b)
    decreases a, 0
  {
    match (a, b)
    case (Array(x), Array(y)) =>
      if |x| == |y| {
        forall i | 0 <= i < |x|
          ensures SameUpToOrder(x[i], y[i]) <==> Canon(x[i]) == Canon(y[i])
        {
          OrderMeaning(x[i], y[i]);
        }
        var cx, cy := CanonItems(x), CanonItems(y);
        assert cx == cy <==> forall i :: 0 <= i < |x| ==> cx[i] == cy[i];
      }
    case (Object(x), Object(y)) => ObjectOrderMeaning(a, x, y);
    case _ =>
  }

  lemma {:induction false} ObjectOrderMeaning(a: Json, x: seq<Member>, y: seq<Member>)
    requires a == Object(x) && DistinctKeys(a) && DistinctKeys(Object(y))
    ensures SameUpToOrder(a, Object(y)) <==> CanonMembers(x) == CanonMembers(y)
    decreases a, -1
  {
    hide Canon, CanonMembers;
    forall i, j | 0 <= i < |x| && 0 <= j < |y|
      ensures SameUpToOrder(x[i].value, y[j].value) <==> Canon(x[i].value) == Canon(y[j].value)
    {
      OrderMeaning(x[i].value, y[j].value);
    }
    if SameUpToOrder(a, Object(y)) {
      var p: seq<nat> :| Permutation(p, |x|)
        && forall i :: 0 <= i < |x| ==> x[i].key == y[p[i]].key && SameUpToOrder(x[i].value, y[p[i]].value);
      AssignedSame(x, y, p);
    }
    if CanonMembers(x) == CanonMembers(y) {
      var p := Assign(x, y);
      assert forall i :: 0 <= i < |x| ==> x[i].key == y[p[i]].key && SameUpToOrder(x[i].value, y[p[i]].value);
    }
  }

  predicate Assigned(x: seq<Member>, y: seq<Member>, p: seq<nat>) {
    |x| == |y| && Permutation(p, |x|)
    && forall i :: 0 <= i < |x| ==> x[i].key == y[p[i]].key && Canon(x[i].value) == Canon(y[p[i]].value)
  }

  function Below(n: nat): (s: set<nat>)
    ensures |s| == n && forall k :: k in s <==> 0 <= k < n
  {
    if n == 0 then {} else Below(n - 1) + {n - 1}
  }

  /** A permutation reaches every place. */
  lemma PermutationOnto(p: seq<nat>, n: nat, j: nat) returns (i: nat)
    requires Permutation(p, n) && j < n
    ensures i < n && p[i] == j
  {
    var images := set k | 0 <= k < n :: p[k];
    ImageSize(p, n);
    if j !in images {
      SubsetSize(images, Below(n) - {j});
    }
    assert j in images;
    i :| 0 <= i < n && p[i] == j;
  }

  lemma {:induction false} ImageSize(p: seq<nat>, n: nat)
    requires n <= |p| && forall i, j :: 0 <= i < j < n ==> p[i] != p[j]
    ensures |set k | 0 <= k < n :: p[k]| == n
  {
    if n > 0 {
      ImageSize(p, n - 1);
      assert (set k | 0 <= k < n :: p[k]) == (set k | 0 <= k < n - 1 :: p[k]) + {p[n - 1]};
    }
  }

  lemma AssignedSame(x: seq<Member>, y: seq<Member>, p: seq<nat>)
    requires KeysDiffer(x) && KeysDiffer(y) && Assigned(x, y, p)
    ensures CanonMembers(x) == CanonMembers(y)
  {
    hide Canon;
    forall key | key in CanonMembers(x)
      ensures key in CanonMembers(y) && CanonMembers(x)[key] == CanonMembers(y)[key]
    {
      CanonFind(x, key);
      CanonFind(y, key);
      var i := FoundIsMember(x, key);
      DistinctFind(y, p[i]);
    }
    forall key | key in CanonMembers(y)
      ensures key in CanonMembers(x)
    {
      CanonFind(x, key);
      CanonFind(y, key);
      var j := FoundIsMember(y, key);
      var i := PermutationOnto(p, |x|, j);
      assert x[i].key == key;
    }
    SameCanon(x, y);
  }

  lemma {:induction false} CanonCount(members: seq<Member>)
    requires KeysDiffer(members)
    ensures |CanonMembers(members)| == |members|
  {
    hide Canon;
    if members != [] {
      CanonCount(members[1..]);
      CanonFind(members[1..], members[0].key);
      var rest := CanonMembers(members[1..]);
      assert members[0].key !in rest;
      assert CanonMembers(members).Keys == rest.Keys + {members[0].key};
    }
  }

  lemma Assign(x: seq<Member>, y: seq<Member>) returns (p: seq<nat>)
    requires KeysDiffer(x) && KeysDiffer(y) && CanonMembers(x) == CanonMembers(y)
    ensures Assigned(x, y, p)
  {
    hide Canon;
    CanonCount(x);
    CanonCount(y);
    p := [];
    for i := 0 to |x|
      invariant |p| == i
      invariant forall k :: 0 <= k < i ==> p[k] < |y| && x[k].key == y[p[k]].key && Canon(x[k].value) == Canon(y[p[k]].value)
    {
      DistinctFind(x, i);
      CanonFind(x, x[i].key);
      CanonFind(y, x[i].key);
      var j := FoundIsMember(y, x[i].key);
      p := p + [j];
    }
  }

  /** A repeated key with two different values: such an object does not even equal a copy of itself. */
  lemma RepeatedKey()
    ensures var t := Object([Member([97], Number(1)), Member([97], Number(2))]); Valid(t) && !Compare(t, t)
  {
    var members := [Member([97], Number(1)), Member([97], Number(2))];
    assert Find(members, [97]) == Some(Number(1));
    IntegersExact(2, 1);
    assert !Matched(members[1], members);
  }
}
