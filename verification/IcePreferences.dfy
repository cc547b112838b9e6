/**
  What preferences may do to a list of candidates: change its order and nothing else.
 */
module IcePreferences {
  import opened Wrappers
  import opened IceCandidates

  // ----- Teredo addresses, section 4 of RFC 4380 -----

  function HighByte(port: bv16): bv8 {
    ((port ^ 0xFFFF) >> 8) as bv8
  }

  function LowByte(port: bv16): bv8 {
    ((port ^ 0xFFFF) & 0xFF) as bv8
  }

  /** Prefix, server, flags, and the port and address of the client with all bits inverted. */
  function EncodeTeredo(server: seq<bv8>, flags: seq<bv8>, port: bv16, client: seq<bv8>): (b: seq<bv8>)
    requires |server| == 4 && |flags| == 2 && |client| == 4
    ensures |b| == 16
  {
    [0x20, 0x01, 0x00, 0x00] + server + flags + [HighByte(port), LowByte(port)]
    + [Inverted(client[0]), Inverted(client[1]), Inverted(client[2]), Inverted(client[3])]
  }

  lemma PortRoundTrip(port: bv16)
    ensures PortOf(HighByte(port), LowByte(port)) == port as nat
  {
    var high, low := ((port ^ 0xFFFF) >> 8) as bv8, ((port ^ 0xFFFF) & 0xFF) as bv8;
    assert !(((high as bv16) << 8) | (low as bv16)) == port;
  }

  lemma InvertedTwice(b: bv8)
    ensures Inverted(Inverted(b)) == b
  {}

  /** Decoding recovers the client of every Teredo address, unless its mapped port is zero. */
  lemma TeredoRoundTrip(text: string, server: seq<bv8>, flags: seq<bv8>, port: bv16, client: seq<bv8>, octets: Option<seq<nat>>)
    requires |server| == 4 && |flags| == 2 && |client| == 4 && ':' in text
    ensures
      DecodeTeredo(Address(text, Some(EncodeTeredo(server, flags, port, client)), octets))
      == if port as nat == 0 then None else Some(Client(client, port as nat))
  {
    hide PortOf, HighByte, LowByte, Inverted;
    PortRoundTrip(port);
    var b := EncodeTeredo(server, flags, port, client);
    assert b[..4] == [0x20, 0x01, 0x00, 0x00];
    assert b[10] == HighByte(port) && b[11] == LowByte(port);
    forall i | 0 <= i < 4
      ensures Inverted(b[12 + i]) == client[i]
    {
      InvertedTwice(client[i]);
    }
    assert [Inverted(b[12]), Inverted(b[13]), Inverted(b[14]), Inverted(b[15])] == client;
  }

  lemma PortUnique(high: bv8, low: bv8) returns (port: bv16)
    ensures port as nat == PortOf(high, low) && HighByte(port) == high && LowByte(port) == low
  {
    port := !(((high as bv16) << 8) | (low as bv16));
  }

  /** Nothing else is decoded. */
  lemma OnlyTeredo(a: Address) returns (port: bv16)
    requires DecodeTeredo(a).Some?
    ensures
      var b, c := a.bytes.value, DecodeTeredo(a).value;
      |b| == 16 && |c.octets| == 4
      && port as nat == c.port > 0 && b == EncodeTeredo(b[4..8], b[8..10], port, c.octets)
  {
    hide PortOf, HighByte, LowByte, Inverted;
    var b, c := a.bytes.value, DecodeTeredo(a).value;
    port := PortUnique(b[10], b[11]);
    forall i | 12 <= i < 16
      ensures Inverted(Inverted(b[i])) == b[i]
    {
      InvertedTwice(b[i]);
    }
    var e := EncodeTeredo(b[4..8], b[8..10], port, c.octets);
    assert b[..4] == e[..4] && b[4..8] == e[4..8] && b[8..10] == e[8..10] && b[10..] == e[10..];
    assert e == e[..4] + e[4..8] + e[8..10] + e[10..] && b == b[..4] + b[4..8] + b[8..10] + b[10..];
  }

  // ----- Sorting -----

  ghost predicate Sorted(s: seq<Ranked>) {
    forall i, j :: 0 <= i < j < |s| ==> Before(s[i], s[j])
  }

  /** No two candidates arrived at the same time. */
  ghost predicate DistinctOrders(s: seq<Ranked>) {
    forall i, j :: 0 <= i < j < |s| ==> s[i].order != s[j].order
  }

  lemma {:induction false} InsertElements(x: Ranked, s: seq<Ranked>)
    ensures multiset(Insert(x, s)) == multiset(s) + multiset{x}
  {
    if s == [] || Before(x, s[0]) {
      assert [x] + s == [x] + s[..];
    } else {
      InsertElements(x, s[1..]);
      assert s == [s[0]] + s[1..];
    }
  }

  lemma {:induction false} SortElements(s: seq<Ranked>)
    ensures multiset(Sort(s)) == multiset(s)
  {
    if s != [] {
      SortElements(s[1..]);
      InsertElements(s[0], Sort(s[1..]));
      assert s == [s[0]] + s[1..];
    }
  }

  lemma {:induction false} InsertSorted(x: Ranked, s: seq<Ranked>)
    requires Sorted(s) && forall y :: y in s ==> y.order != x.order
    ensures Sorted(Insert(x, s))
  {
    if s != [] && !Before(x, s[0]) {
      InsertSorted(x, s[1..]);
      InsertElements(x, s[1..]);
      var rest := Insert(x, s[1..]);
      forall j | 0 <= j < |rest|
        ensures Before(s[0], rest[j])
      {
        assert rest[j] in multiset(rest);
        assert rest[j] == x || rest[j] in s[1..];
      }
    } else if s != [] {
      forall j | 0 <= j < |s|
        ensures Before(x, s[j])
      {
      }
    }
  }

  lemma {:induction false} SortSorted(s: seq<Ranked>)
    requires DistinctOrders(s)
    ensures Sorted(Sort(s))
  {
    if s != [] {
      SortSorted(s[1..]);
      SortElements(s[1..]);
      forall y | y in Sort(s[1..])
        ensures y.order != s[0].order
      {
        assert y in multiset(Sort(s[1..]));
        assert y in s[1..];
      }
      InsertSorted(s[0], Sort(s[1..]));
    }
  }

  lemma TailElements(s: seq<Ranked>)
    requires s != []
    ensures multiset(s[1..]) == multiset(s) - multiset{s[0]}
  {
    assert s == [s[0]] + s[1..];
  }

  lemma SameElements(s: seq<Ranked>, t: seq<Ranked>)
    requires multiset(s) == multiset(t)
    ensures |s| == |t| && (s != [] ==> s[0] in t && t[0] in s)
  {
    assert |multiset(s)| == |s| && |multiset(t)| == |t|;
    if s != [] {
      assert s[0] in multiset(t) && t[0] in multiset(s);
    }
  }

  /** There is only one order by preference, rank and arrival. */
  lemma {:induction false} SortedUnique(s: seq<Ranked>, t: seq<Ranked>)
    requires Sorted(s) && Sorted(t) && multiset(s) == multiset(t)
    ensures s == t
  {
    SameElements(s, t);
    if s != [] {
      FirstIsLeast(s, t[0]);
      FirstIsLeast(t, s[0]);
      assert s[0] == t[0] by { NotBoth(s[0], t[0]); }
      TailElements(s);
      TailElements(t);
      TailSorted(s);
      TailSorted(t);
      SortedUnique(s[1..], t[1..]);
      assert s == [s[0]] + s[1..] && t == [t[0]] + t[1..];
    }
  }

  lemma NotBoth(x: Ranked, y: Ranked)
    ensures !(Before(x, y) && Before(y, x))
  {}

  lemma TailSorted(s: seq<Ranked>)
    requires Sorted(s) && s != []
    ensures Sorted(s[1..])
  {}

  lemma FirstIsLeast(s: seq<Ranked>, x: Ranked)
    requires Sorted(s) && x in s
    ensures s[0] == x || Before(s[0], x)
  {}

  ghost predicate InArrivalOrder(s: seq<Ranked>) {
    forall i :: 0 <= i < |s| ==> s[i].order == i
  }

  /** Candidates are ranked in the order of their arrival. */
  lemma {:induction false} RankOrders(expanded: seq<Payload>, preferPublic: bool, preference: Preference)
    ensures InArrivalOrder(RankAll(expanded, preferPublic, preference))
  {
    if expanded != [] {
      RankOrders(expanded[..|expanded| - 1], preferPublic, preference);
    }
  }

  /** The ranked candidates are sorted by preference, rank and arrival, and are the only list of them that is. */
  lemma StableOrder(expanded: seq<Payload>, preferPublic: bool, preference: Preference, s: seq<Ranked>)
    ensures
      var r := RankAll(expanded, preferPublic, preference);
      Sorted(s) && multiset(s) == multiset(r) <==> s == Sort(r)
  {
    var r := RankAll(expanded, preferPublic, preference);
    RankOrders(expanded, preferPublic, preference);
    SortSorted(r);
    SortElements(r);
    if Sorted(s) && multiset(s) == multiset(r) {
      SortedUnique(s, Sort(r));
    }
  }

  // ----- The text of a renumbered candidate -----

  /** What the parser guarantees about the fields: the remainder is trimmed and starts with its type. */
  predicate Parsed(parts: Parts) {
    "typ" <= parts.remainder && !IsSpace(parts.remainder[|parts.remainder| - 1]) && parts.port > 0
  }

  lemma OccursInAll(s: string, needle: string, i: nat, c: char)
    requires OccursAt(s, needle, i) && c in needle
    ensures c in s
  {
    var k :| 0 <= k < |needle| && needle[k] == c;
    assert s[i..i + |needle|][k] == s[i + k];
  }

  lemma ContainsLeft(a: string, b: string, needle: string)
    requires Contains(a, needle)
    ensures Contains(a + b, needle)
  {
    var i: nat :| i <= |a| && OccursAt(a, needle, i);
    assert (a + b)[i..i + |needle|] == a[i..i + |needle|];
    assert OccursAt(a + b, needle, i);
  }

  lemma ContainsRight(a: string, b: string, needle: string)
    requires Contains(b, needle)
    ensures Contains(a + b, needle)
  {
    var i: nat :| i <= |b| && OccursAt(b, needle, i);
    assert (a + b)[|a| + i..|a| + i + |needle|] == b[i..i + |needle|];
    assert OccursAt(a + b, needle, |a| + i);
  }

  lemma OccursChar(s: string, needle: string, i: nat, k: nat)
    requires OccursAt(s, needle, i) && i <= k < i + |needle|
    ensures s[k] in needle
  {
    assert s[i..i + |needle|][k - i] == s[k];
  }

  lemma SliceLeft(a: string, b: string, i: nat, n: nat)
    requires i + n <= |a|
    ensures (a + b)[i..i + n] == a[i..i + n]
  {}

  lemma SliceRight(a: string, b: string, i: nat, n: nat)
    requires i + n <= |b|
    ensures (a + b)[|a| + i..|a| + i + n] == b[i..i + n]
  {}

  /** An occurrence of a word without spaces lies on one side of a space. */
  lemma OccursAside(a: string, b: string, needle: string, i: nat)
    requires needle != [] && ' ' !in needle && OccursAt(a + " " + b, needle, i)
    ensures i + |needle| <= |a| || |a| < i
  {
    var s := a + " " + b;
    assert s[|a|] == ' ';
    forall k | i <= k < i + |needle|
      ensures s[k] in needle
    {
      OccursChar(s, needle, i, k);
    }
  }

  /** A word without spaces occurs in one of the two texts around a space. */
  lemma ContainsJoin(a: string, b: string, needle: string)
    requires needle != [] && ' ' !in needle
    ensures Contains(a + " " + b, needle) <==> Contains(a, needle) || Contains(b, needle)
  {
    if Contains(a, needle) {
      ContainsLeft(a, " ", needle);
      ContainsLeft(a + " ", b, needle);
    }
    if Contains(b, needle) {
      ContainsRight(a + " ", b, needle);
    }
    if Contains(a + " " + b, needle) {
      var i: nat :| i <= |a + " " + b| && OccursAt(a + " " + b, needle, i);
      OccursAside(a, b, needle, i);
      OccursSide(a, b, needle, i);
    }
  }

  lemma OccursSide(a: string, b: string, needle: string, i: nat)
    requires OccursAt(a + " " + b, needle, i) && (i + |needle| <= |a| || |a| < i)
    ensures Contains(a, needle) || Contains(b, needle)
  {
    var n := |needle|;
    if i + n <= |a| {
      SliceLeft(a, " " + b, i, n);
      assert a + " " + b == a + (" " + b);
      assert OccursAt(a, needle, i);
    } else {
      SliceRight(a + " ", b, i - |a| - 1, n);
      assert OccursAt(b, needle, i - |a| - 1);
    }
  }

  const TCPTYPE := "tcptype"

  /** The fields say that this is a TCP candidate. */
  predicate IsTcp(parts: Parts) {
    Contains(Lower(parts.address.text), TCPTYPE) || Contains(Lower(parts.remainder), TCPTYPE)
  }

  lemma LowerJoin(a: string, b: string)
    ensures Lower(a + b) == Lower(a) + Lower(b)
  {}

  lemma NoLetter(s: string, needle: string, c: char)
    requires c in needle && c !in s
    ensures !Contains(s, needle)
  {
    if Contains(s, needle) {
      var i: nat :| i <= |s| && OccursAt(s, needle, i);
      OccursInAll(s, needle, i, c);
    }
  }

  lemma NoTcp(s: string)
    requires 'y' !in s
    ensures !Contains(s, TCPTYPE)
  {
    assert TCPTYPE[4] == 'y';
    NoLetter(s, TCPTYPE, 'y');
  }

  lemma LowerDecimal(n: nat)
    ensures Lower(Decimal(n)) == Decimal(n) && 'y' !in Decimal(n) && ' ' !in Decimal(n)
  {}

  lemma LowerStart(s: string)
    requires Lower(s) == s && 'y' !in s
    ensures 'y' !in Lower("a=candidate:" + s)
  {
    LowerJoin("a=candidate:", s);
    assert Lower("a=candidate:") == "a=candidate:";
  }

  /** A word in front of a text is lowered on its own; one without a y says nothing about TCP. */
  lemma PlainWord(word: string, low: string, rest: string)
    requires Lower(word) == low && 'y' !in low
    ensures Lower(word + " " + rest) == low + " " + Lower(rest)
    ensures Contains(Lower(word + " " + rest), TCPTYPE) <==> Contains(Lower(rest), TCPTYPE)
  {
    hide Contains, Lower;
    LowerWords(word, rest);
    NoTcp(low);
  }

  /** The address, the port and the remainder. */
  function Tail(parts: Parts): string {
    parts.address.text + " " + (Decimal(parts.port) + " " + parts.remainder)
  }

  lemma TailTcp(parts: Parts)
    ensures Contains(Lower(Tail(parts)), TCPTYPE) <==> IsTcp(parts)
  {
    hide Contains, Decimal, Lower;
    LowerDecimal(parts.port);
    PlainWord(Decimal(parts.port), Decimal(parts.port), parts.remainder);
    LowerWords(parts.address.text, Decimal(parts.port) + " " + parts.remainder);
  }

  /** The component, the protocol and the priority in front of it. */
  lemma RestTcp(priority: nat, parts: Parts)
    ensures Lower(CandidateRest(priority, parts)) == "1" + " " + ("udp" + " " + Lower(Decimal(priority) + " " + Tail(parts)))
    ensures Contains(Lower(CandidateRest(priority, parts)), TCPTYPE) <==> IsTcp(parts)
  {
    hide Contains, Decimal, Lower, IsTcp, Tail;
    var d, tail := Decimal(priority), Tail(parts);
    RestWords(priority, parts);
    LowerDecimal(priority);
    LowerConstants();
    PlainWord(d, d, tail);
    PlainWord("UDP", "udp", d + " " + tail);
    PlainWord("1", "1", "UDP" + " " + (d + " " + tail));
    TailTcp(parts);
  }

  lemma RestWords(priority: nat, parts: Parts)
    ensures CandidateRest(priority, parts) == "1" + " " + ("UDP" + " " + (Decimal(priority) + " " + Tail(parts)))
  {
    hide Decimal;
  }

  /** Whether a renumbered candidate is dropped as TCP depends on its address and remainder only. */
  lemma InvalidText(n: nat, priority: nat, parts: Parts)
    ensures IsInvalid(CandidateText(Decimal(n), priority, parts)) <==> IsTcp(parts)
  {
    hide Contains, Decimal, Lower, CandidateRest, IsTcp, Tail;
    var start := "a=candidate:" + Decimal(n);
    LowerDecimal(n);
    LowerStart(Decimal(n));
    PlainWord(start, Lower(start), CandidateRest(priority, parts));
    RestTcp(priority, parts);
    SaysUdp(Lower(start), Lower(Decimal(priority) + " " + Tail(parts)));
  }

  lemma LowerConstants()
    ensures Lower("1") == "1" && Lower("UDP") == "udp"
  {}

  lemma LowerWords(a: string, b: string)
    ensures Lower(a + " " + b) == Lower(a) + " " + Lower(b)
    ensures Contains(Lower(a + " " + b), TCPTYPE) <==> Contains(Lower(a), TCPTYPE) || Contains(Lower(b), TCPTYPE)
  {
    hide Contains;
    LowerJoin(a + " ", b);
    LowerJoin(a, " ");
    assert Lower(" ") == " ";
    ContainsJoin(Lower(a), Lower(b), TCPTYPE);
  }

  lemma SaysUdp(a: string, b: string)
    ensures Contains(a + " " + ("1" + " " + ("udp" + " " + b)), " udp ")
  {
    var s := a + " " + ("1" + " " + ("udp" + " " + b));
    assert s == (a + " 1") + " udp " + b;
    assert s[|a| + 2..|a| + 7] == " udp ";
    assert OccursAt(s, " udp ", |a| + 2);
  }

  // ----- Renumbering -----

  lemma TrimNothing(s: string)
    requires s != [] && !IsSpace(s[0]) && !IsSpace(s[|s| - 1])
    ensures Trim(s) == s
  {}

  lemma TextEnds(n: nat, priority: nat, parts: Parts)
    requires Parsed(parts)
    ensures
      var t := CandidateText(Decimal(n), priority, parts);
      "a=candidate:" <= t && |t| > |"a=candidate:"| && t[|t| - 1] == parts.remainder[|parts.remainder| - 1]
  {
    hide Decimal;
  }

  lemma TextNormalized(n: nat, priority: nat, parts: Parts)
    requires Parsed(parts)
    ensures
      var t := CandidateText(Decimal(n), priority, parts);
      NormalizeForLibPeer(t) == t && IsAccepted(t) && t != [] && t != END
  {
    hide CandidateText, Decimal, Trim;
    TextEnds(n, priority, parts);
    var t := CandidateText(Decimal(n), priority, parts);
    assert t[0] == "a=candidate:"[0] && t[2] == "a=candidate:"[2];
    TrimNothing(t);
    assert "candidate:"[0] != t[0] && END[2] != t[2] && "end-of-candidates"[0] != t[0];
  }

  lemma FirstSpace(a: string, x: string)
    requires ' ' !in a
    ensures
      var s := a + " " + x;
      s[|a|] == ' ' && (forall k :: 0 <= k < |a| ==> s[k] != ' ') && s[..|a|] == a
  {}

  /** The text up to the first space. */
  lemma FirstWord(a: string, b: string, x: string, y: string)
    requires a + " " + x == b + " " + y && ' ' !in a && ' ' !in b
    ensures a == b
  {
    FirstSpace(a, x);
    FirstSpace(b, y);
  }

  lemma {:induction false} DecimalUnique(m: nat, n: nat)
    requires Decimal(m) == Decimal(n)
    ensures m == n
  {
    var s := Decimal(m);
    assert s[|s| - 1] == (m % 10) as char + '0' == (n % 10) as char + '0';
    assert m % 10 == n % 10;
    if m >= 10 || n >= 10 {
      DecimalLength(m);
      DecimalLength(n);
      assert Decimal(m / 10) == s[..|s| - 1] == Decimal(n / 10);
      DecimalUnique(m / 10, n / 10);
    }
  }

  lemma DecimalLength(n: nat)
    ensures |Decimal(n)| >= 2 <==> n >= 10
  {}

  lemma TextUnique(m: nat, n: nat, priority: nat, other: nat, parts: Parts, others: Parts)
    requires CandidateText(Decimal(m), priority, parts) == CandidateText(Decimal(n), other, others)
    ensures m == n
  {
    hide Decimal, CandidateRest;
    LowerDecimal(m);
    LowerDecimal(n);
    var a, b := "a=candidate:" + Decimal(m), "a=candidate:" + Decimal(n);
    FirstWord(a, b, CandidateRest(priority, parts), CandidateRest(other, others));
    assert Decimal(m) == a[|"a=candidate:"|..] && Decimal(n) == b[|"a=candidate:"|..];
    DecimalUnique(m, n);
  }

  /** The fields of the candidates that are kept. */
  function KeptParts(s: seq<Ranked>): seq<Option<Parts>> {
    if s == [] then []
    else
      KeptParts(s[..|s| - 1]) + (if IsTcp(s[|s| - 1].parts) then [] else [Some(s[|s| - 1].parts)])
  }

  function PartsOf(list: seq<Payload>): (r: seq<Option<Parts>>)
    ensures |r| == |list| && forall i :: 0 <= i < |r| ==> r[i] == list[i].parts
  {
    seq(|list|, i requires 0 <= i < |list| => list[i].parts)
  }

  ghost predicate AllParsed(s: seq<Ranked>) {
    forall i :: 0 <= i < |s| ==> Parsed(s[i].parts)
  }

  /** Every line carries one of the first n foundations. */
  ghost predicate Numbered(list: seq<Payload>, n: nat) {
    forall i :: 0 <= i < |list| ==> FoundedWithin(list[i], n)
  }

  ghost predicate FoundedWithin(p: Payload, n: nat) {
    exists m: nat :: m <= n && HasFoundation(p, m)
  }

  ghost predicate HasFoundation(p: Payload, m: nat) {
    p.parts.Some? && Parsed(p.parts.value)
    && p.candidate == CandidateText(Decimal(m), if m == 1 then TOP_PRIORITY else 1, p.parts.value)
  }

  lemma NotSame(list: seq<Payload>, n: nat, p: Payload)
    requires Numbered(list, n) && HasFoundation(p, n + 1)
    ensures !HasSame(list, p)
  {
    hide CandidateText;
    forall i | 0 <= i < |list|
      ensures !SameCandidate(list[i], p)
    {
      var m: nat :| m <= n && HasFoundation(list[i], m);
      if list[i].candidate == p.candidate {
        TextUnique(m, n + 1, if m == 1 then TOP_PRIORITY else 1, if n + 1 == 1 then TOP_PRIORITY else 1,
                   list[i].parts.value, p.parts.value);
      }
    }
  }

  lemma NumberedAppend(list: seq<Payload>, n: nat, p: Payload)
    requires Numbered(list, n) && HasFoundation(p, n + 1)
    ensures Numbered(list, n + 1) && Numbered(list + [p], n + 1)
  {
    hide HasFoundation;
    forall i | 0 <= i < |list|
      ensures FoundedWithin(list[i], n + 1)
    {
      var m: nat :| m <= n && HasFoundation(list[i], m);
    }
    assert FoundedWithin(p, n + 1);
  }

  /** Adding a renumbered candidate: it is dropped exactly when it is a TCP candidate. */
  lemma AppendRenumbered(list: seq<Payload>, n: nat, x: Ranked)
    requires Numbered(list, n) && Parsed(x.parts)
    ensures HasFoundation(Renumbered(x, n + 1), n + 1)
    ensures Append(Renumbered(x, n + 1), list) == if IsTcp(x.parts) then list else list + [Renumbered(x, n + 1)]
  {
    hide CandidateText, NormalizeForLibPeer, IsAccepted, IsInvalid, HasSame, IsTcp, Numbered;
    var p := Renumbered(x, n + 1);
    var priority := if n + 1 == 1 then TOP_PRIORITY else 1;
    TextNormalized(n + 1, priority, x.parts);
    InvalidText(n + 1, priority, x.parts);
    NotSame(list, n, p);
    assert Normalized(p) == p;
  }

  /** Renumbering drops the TCP candidates and keeps all others in order. */
  lemma {:induction false} RenumberKeeps(s: seq<Ranked>)
    requires AllParsed(s)
    ensures Numbered(RenumberAll(s), |s|) && PartsOf(RenumberAll(s)) == KeptParts(s)
  {
    hide Append, Renumbered, HasFoundation, IsTcp, Numbered, PartsOf;
    if s == [] {
      NoneNumbered();
    } else {
      var n := |s| - 1;
      RenumberKeeps(s[..n]);
      var list, p := RenumberAll(s[..n]), Renumbered(s[n], n + 1);
      AppendRenumbered(list, n, s[n]);
      NumberedAppend(list, n, p);
      RenumberedParts(s[n], n + 1);
      PartsAppend(list, p);
    }
  }

  lemma PartsAppend(list: seq<Payload>, p: Payload)
    ensures PartsOf(list + [p]) == PartsOf(list) + [p.parts]
  {}

  lemma NoneNumbered()
    ensures Numbered([], 0)
  {}

  lemma RenumberedParts(x: Ranked, n: nat)
    ensures Renumbered(x, n).parts == Some(x.parts)
  {}

  // ----- Preferences only reorder -----

  lemma KeptLast(s: seq<Ranked>)
    requires s != []
    ensures KeptParts(s) == KeptParts(s[..|s| - 1]) + KeptParts([s[|s| - 1]])
  {
    hide IsTcp;
    var one := [s[|s| - 1]];
    assert one[..0] == [];
  }

  lemma {:induction false} KeptAppend(s: seq<Ranked>, t: seq<Ranked>)
    ensures KeptParts(s + t) == KeptParts(s) + KeptParts(t)
  {
    hide IsTcp;
    if t == [] {
      assert s + t == s;
    } else {
      var k := |t| - 1;
      KeptAppend(s, t[..k]);
      assert (s + t)[..|s| + k] == s + t[..k] && (s + t)[|s| + k] == t[k];
      KeptLast(s + t);
      KeptLast(t);
      var last := KeptParts([t[k]]);
      assert KeptParts(s) + (KeptParts(t[..k]) + last) == KeptParts(s) + KeptParts(t[..k]) + last;
    }
  }

  lemma {:induction false} KeptInsert(x: Ranked, s: seq<Ranked>)
    ensures multiset(KeptParts(Insert(x, s))) == multiset(KeptParts([x] + s))
  {
    hide IsTcp, KeptParts, Before;
    if s != [] && !Before(x, s[0]) {
      var rest := s[1..];
      KeptInsert(x, rest);
      KeptAppend([s[0]], Insert(x, rest));
      KeptAppend([x], rest);
      KeptAppend([x], s);
      KeptAppend([s[0]], rest);
      assert s == [s[0]] + rest;
    }
  }

  /** Sorting does not change what is kept. */
  lemma {:induction false} KeptSort(s: seq<Ranked>)
    ensures multiset(KeptParts(Sort(s))) == multiset(KeptParts(s))
  {
    hide IsTcp, KeptParts, Insert;
    if s != [] {
      KeptSort(s[1..]);
      KeptInsert(s[0], Sort(s[1..]));
      KeptAppend([s[0]], Sort(s[1..]));
      KeptAppend([s[0]], s[1..]);
      assert s == [s[0]] + s[1..];
    }
  }

  /** Ranking does not change what is kept either. */
  lemma {:induction false} KeptRank(expanded: seq<Payload>, preferPublic: bool, preference: Preference, other: bool, others: Preference)
    ensures KeptParts(RankAll(expanded, preferPublic, preference)) == KeptParts(RankAll(expanded, other, others))
  {
    hide IsTcp, IsPreferred, Rank;
    if expanded != [] {
      KeptRank(expanded[..|expanded| - 1], preferPublic, preference, other, others);
    }
  }

  // ----- The input as the parser leaves it -----

  ghost predicate AllPayloadsParsed(list: seq<Payload>) {
    forall i :: 0 <= i < |list| && list[i].parts.Some? ==> Parsed(list[i].parts.value)
  }

  lemma AppendParsed(p: Payload, list: seq<Payload>)
    requires AllPayloadsParsed(list) && (p.parts.Some? ==> Parsed(p.parts.value))
    ensures AllPayloadsParsed(Append(p, list))
  {
    hide NormalizeForLibPeer, IsAccepted, IsInvalid, HasSame, Parsed;
  }

  lemma DerivedParsed(source: Payload, foundation: string, client: Client, port: nat)
    requires |client.octets| == 4 && port > 0
    ensures Derived(source, foundation, client, port).parts.Some? && Parsed(Derived(source, foundation, client, port).parts.value)
  {}

  lemma ExpandParsed(p: Payload, list: seq<Payload>)
    requires AllPayloadsParsed(list) && (p.parts.Some? ==> Parsed(p.parts.value))
    ensures AllPayloadsParsed(Expand(p, list))
  {
    hide Append, Derived, Parsed, AllPayloadsParsed, DecodeTeredo;
    if p.candidate != END && p.parts.Some? && DecodeTeredo(p.parts.value.address).Some? {
      var client := DecodeTeredo(p.parts.value.address).value;
      ClientPort(p.parts.value.address);
      ClientOctets(p.parts.value.address);
      DerivedParsed(p, "10", client, XBOX_PORT);
      DerivedParsed(p, "11", client, client.port);
      var first := Append(Derived(p, "10", client, XBOX_PORT), list);
      AppendParsed(Derived(p, "10", client, XBOX_PORT), list);
      AppendParsed(Derived(p, "11", client, client.port), first);
      AppendParsed(p, Append(Derived(p, "11", client, client.port), first));
    } else {
      AppendParsed(p, list);
    }
  }

  lemma ClientPort(a: Address)
    requires DecodeTeredo(a).Some?
    ensures DecodeTeredo(a).value.port > 0
  {}

  lemma {:induction false} ExpandAllParsed(candidates: seq<Payload>)
    requires AllPayloadsParsed(candidates)
    ensures AllPayloadsParsed(ExpandAll(candidates))
  {
    hide Expand, Parsed;
    if candidates != [] {
      ExpandAllParsed(candidates[..|candidates| - 1]);
      ExpandParsed(candidates[|candidates| - 1], ExpandAll(candidates[..|candidates| - 1]));
    }
  }

  lemma {:induction false} RankParsed(expanded: seq<Payload>, preferPublic: bool, preference: Preference)
    requires AllPayloadsParsed(expanded)
    ensures AllParsed(RankAll(expanded, preferPublic, preference))
  {
    hide Parsed, IsPreferred, Rank;
    if expanded != [] {
      RankParsed(expanded[..|expanded| - 1], preferPublic, preference);
    }
  }

  lemma SortParsed(s: seq<Ranked>)
    requires AllParsed(s)
    ensures AllParsed(Sort(s))
  {
    hide Parsed, Sort;
    SortElements(s);
    forall i | 0 <= i < |Sort(s)|
      ensures Parsed(Sort(s)[i].parts)
    {
      assert Sort(s)[i] in multiset(Sort(s));
      assert Sort(s)[i] in s;
    }
  }

  // ----- The results -----

  /** The end marker of the list, ready to be sent. */
  lemma EndAppended(expanded: seq<Payload>, list: seq<Payload>, n: nat)
    requires Numbered(list, n)
    ensures EndOf(expanded).candidate == END && Append(EndOf(expanded), list) == list + [EndOf(expanded)]
    ensures forall i :: 0 <= i < |list| ==> list[i].candidate != END
  {
    hide CandidateText, IsInvalid;
    EndText(expanded);
    var end := EndOf(expanded);
    EndIsValid();
    forall i | 0 <= i < |list|
      ensures list[i].candidate != END
    {
      var m: nat :| m <= n && HasFoundation(list[i], m);
      TextNormalized(m, if m == 1 then TOP_PRIORITY else 1, list[i].parts.value);
    }
    assert Normalized(end) == end;
  }

  lemma {:induction false} EndText(expanded: seq<Payload>)
    ensures EndOf(expanded).candidate == END
  {
    if expanded != [] {
      EndText(expanded[..|expanded| - 1]);
    }
  }

  lemma EndIsValid()
    ensures NormalizeForLibPeer(END) == END && IsAccepted(END) && !IsInvalid(END)
  {
    TrimNothing(END);
    assert Lower(END) == END;
    NoTcp(END);
    assert "candidate:"[0] != END[0];
  }

  /** The list that goes out: the renumbered candidates and one end marker behind them. */
  lemma RewrittenList(candidates: seq<Payload>, preferPublic: bool, preference: Preference)
    requires AllPayloadsParsed(candidates)
    ensures
      var s := Sort(RankAll(ExpandAll(candidates), preferPublic, preference));
      var out := Rewritten(candidates, preferPublic, preference);
      out == RenumberAll(s) + [EndOf(ExpandAll(candidates))] && PartsOf(RenumberAll(s)) == KeptParts(s)
      && OneEndMarker(out)
  {
    hide ExpandAll, RankAll, Sort, RenumberAll, Append, Parsed, KeptParts, EndOf;
    var expanded := ExpandAll(candidates);
    ExpandAllParsed(candidates);
    RankParsed(expanded, preferPublic, preference);
    var s := Sort(RankAll(expanded, preferPublic, preference));
    SortParsed(RankAll(expanded, preferPublic, preference));
    RenumberKeeps(s);
    EndAppended(expanded, RenumberAll(s), |s|);
  }

  /** The last line, and no other, is an end marker. */
  ghost predicate OneEndMarker(out: seq<Payload>) {
    out != [] && forall i :: 0 <= i < |out| ==> (out[i].candidate == END <==> i == |out| - 1)
  }

  ghost predicate SameButForOrder(x: seq<Payload>, y: seq<Payload>) {
    multiset(PartsOf(x)) == multiset(PartsOf(y)) && x != [] && y != [] && x[|x| - 1] == y[|y| - 1]
  }

  /** Whatever is preferred, the same addresses, ports and remainders go out, and the same end marker. */
  lemma PreferencesOnlyReorder(
    candidates: seq<Payload>, preferPublic: bool, preference: Preference, other: bool, others: Preference)
    requires AllPayloadsParsed(candidates)
    ensures
      SameButForOrder(Rewritten(candidates, preferPublic, preference), Rewritten(candidates, other, others))
  {
    hide Rewritten, ExpandAll, RankAll, Sort, RenumberAll, KeptParts, OneEndMarker, EndOf;
    var expanded := ExpandAll(candidates);
    var r, q := RankAll(expanded, preferPublic, preference), RankAll(expanded, other, others);
    RewrittenList(candidates, preferPublic, preference);
    RewrittenList(candidates, other, others);
    KeptSort(r);
    KeptSort(q);
    KeptRank(expanded, preferPublic, preference, other, others);
    var end := EndOf(expanded);
    assert PartsOf(RenumberAll(Sort(r)) + [end]) == KeptParts(Sort(r)) + [end.parts];
    assert PartsOf(RenumberAll(Sort(q)) + [end]) == KeptParts(Sort(q)) + [end.parts];
  }

  predicate MatchesNothing(expanded: seq<Payload>, preferPublic: bool, preference: Preference) {
    forall i :: 0 <= i < |expanded| && expanded[i].parts.Some? ==>
      !IsPreferred(expanded[i].parts.value, preferPublic, preference)
  }

  lemma {:induction false} NothingPreferred(expanded: seq<Payload>, preferPublic: bool, preference: Preference, none: Preference)
    requires none.port <= 0
    requires MatchesNothing(expanded, preferPublic, preference)
    ensures RankAll(expanded, preferPublic, preference) == RankAll(expanded, preferPublic, none)
  {
    hide AddressesEqual, Rank;
    if expanded != [] {
      NothingPreferred(expanded[..|expanded| - 1], preferPublic, preference, none);
    }
  }

  /** A preference that matches no candidate changes nothing. */
  lemma StalePreference(candidates: seq<Payload>, preferPublic: bool, preference: Preference, none: Preference)
    requires none.port <= 0
    requires MatchesNothing(ExpandAll(candidates), preferPublic, preference)
    ensures Rewritten(candidates, preferPublic, preference) == Rewritten(candidates, preferPublic, none)
  {
    hide ExpandAll, RankAll, Sort, RenumberAll, Append, EndOf;
    NothingPreferred(ExpandAll(candidates), preferPublic, preference, none);
  }

  /** Some line has foundation 1, and with it the top priority. */
  ghost predicate HasTop(list: seq<Payload>) {
    exists i :: 0 <= i < |list| && HasFoundation(list[i], 1)
  }

  lemma TopAppend(list: seq<Payload>, p: Payload)
    ensures HasTop(list + [p]) <==> HasTop(list) || HasFoundation(p, 1)
  {
    hide HasFoundation;
    var all := list + [p];
    if HasTop(list) {
      var i :| 0 <= i < |list| && HasFoundation(list[i], 1);
      assert HasFoundation(all[i], 1);
    }
    if HasFoundation(p, 1) {
      assert HasFoundation(all[|list|], 1);
    }
    if HasTop(all) {
      var i :| 0 <= i < |all| && HasFoundation(all[i], 1);
      assert i < |list| ==> HasFoundation(list[i], 1);
    }
  }

  /** The first candidate in order is announced with the top priority unless it is dropped; then none is. */
  lemma {:induction false} TopPriority(s: seq<Ranked>)
    requires AllParsed(s) && s != []
    ensures HasTop(RenumberAll(s)) <==> !IsTcp(s[0].parts)
    decreases |s|
  {
    hide Append, Renumbered, HasFoundation, IsTcp, Numbered, Parsed, HasTop;
    var n := |s| - 1;
    var front, p := RenumberAll(s[..n]), Renumbered(s[n], n + 1);
    RenumberKeeps(s[..n]);
    AppendRenumbered(front, n, s[n]);
    TopAppend(front, p);
    if n == 0 {
      NoTop();
    } else {
      TopPriority(s[..n]);
      OtherFoundation(p, n + 1);
    }
  }

  lemma NoTop()
    ensures !HasTop([])
  {}

  lemma OtherFoundation(p: Payload, n: nat)
    requires HasFoundation(p, n) && n != 1
    ensures !HasFoundation(p, 1)
  {
    hide CandidateText;
    if HasFoundation(p, 1) {
      TextUnique(n, 1, 1, TOP_PRIORITY, p.parts.value, p.parts.value);
    }
  }

  /** The end marker has no foundation. */
  lemma EndHasNoFoundation(p: Payload)
    requires p.candidate == END
    ensures !HasFoundation(p, 1)
  {
    hide CandidateText;
    if HasFoundation(p, 1) {
      TextNormalized(1, TOP_PRIORITY, p.parts.value);
    }
  }

  /** The same of the list that goes out: it has a line of top priority exactly when the first in order is kept. */
  lemma TopPriorityOut(candidates: seq<Payload>, preferPublic: bool, preference: Preference)
    requires AllPayloadsParsed(candidates)
    ensures
      var s := Sort(RankAll(ExpandAll(candidates), preferPublic, preference));
      HasTop(Rewritten(candidates, preferPublic, preference)) <==> s != [] && !IsTcp(s[0].parts)
  {
    hide ExpandAll, RankAll, Sort, Rewritten, HasFoundation, Parsed, IsTcp, EndOf, HasTop, OneEndMarker;
    var expanded := ExpandAll(candidates);
    var s := Sort(RankAll(expanded, preferPublic, preference));
    RewrittenList(candidates, preferPublic, preference);
    EndText(expanded);
    EndHasNoFoundation(EndOf(expanded));
    TopAppend(RenumberAll(s), EndOf(expanded));
    if s == [] {
      NoTop();
    } else {
      ExpandAllParsed(candidates);
      RankParsed(expanded, preferPublic, preference);
      SortParsed(RankAll(expanded, preferPublic, preference));
      TopPriority(s);
    }
  }

  // ----- A list without top priority -----

  const LOCAL := Parts(Address("192.168.1.2", None, Some([192, 168, 1, 2])), 9, "typ host " + (TCPTYPE + " active"))
  const GLOBAL := Parts(Address("8.8.8.8", None, Some([8, 8, 8, 8])), 3074, "typ srflx")

  /** A TCP candidate of the local network, and a UDP candidate of the internet. */
  function LocalTcp(): Payload {
    Payload(LocalText(), Some(LOCAL), "0", 0, "iceCandidate")
  }

  function LocalText(): string {
    "a=candidate:" + ("1 1 tcp 1 " + (LOCAL.address.text + (" 9 " + LOCAL.remainder)))
  }

  function GlobalUdp(): Payload {
    Payload(CandidateText(Decimal(2), 1, GLOBAL), Some(GLOBAL), "0", 0, "iceCandidate")
  }

  const NO_PREFERENCE := Preference(Address("", None, None), 0)

  lemma LocalEnds()
    ensures var t := LocalText(); "a=candidate:" <= t && |t| > 12 && t[12] == '1' && t[|t| - 1] == 'e'
  {}

  lemma LocalLetters()
    ensures 'u' !in Lower(LocalText())
  {
    hide Lower;
    AddressPlain();
    RemainderPlain();
    TextWithoutU(LOCAL.address.text, LOCAL.remainder);
  }

  lemma AddressPlain()
    ensures 'u' !in LOCAL.address.text && 'U' !in LOCAL.address.text
  {}

  lemma RemainderPlain()
    ensures 'u' !in LOCAL.remainder && 'U' !in LOCAL.remainder
  {
    JoinWithoutU(TCPTYPE, " active");
    JoinWithoutU("typ host ", TCPTYPE + " active");
  }

  lemma TextWithoutU(address: string, remainder: string)
    requires 'u' !in address && 'U' !in address && 'u' !in remainder && 'U' !in remainder
    ensures 'u' !in Lower("a=candidate:" + ("1 1 tcp 1 " + (address + (" 9 " + remainder))))
  {
    hide Lower;
    JoinWithoutU(" 9 ", remainder);
    JoinWithoutU(address, " 9 " + remainder);
    JoinWithoutU("1 1 tcp 1 ", address + (" 9 " + remainder));
    JoinWithoutU("a=candidate:", "1 1 tcp 1 " + (address + (" 9 " + remainder)));
    WithoutU("a=candidate:" + ("1 1 tcp 1 " + (address + (" 9 " + remainder))));
  }

  lemma JoinWithoutU(s: string, t: string)
    requires 'u' !in s && 'U' !in s && 'u' !in t && 'U' !in t
    ensures 'u' !in s + t && 'U' !in s + t
  {}

  lemma WithoutU(s: string)
    requires 'u' !in s && 'U' !in s
    ensures 'u' !in Lower(s)
  {}

  lemma NoUdp(s: string)
    requires 'u' !in s
    ensures !Contains(s, " udp ")
  {
    assert " udp "[1] == 'u';
    NoLetter(s, " udp ", 'u');
  }

  lemma LocalIsNoEnd()
    ensures LocalText() != END
  {
    hide LocalText;
    LocalEnds();
    assert LocalText()[2] == "a=candidate:"[2] != END[2];
  }

  lemma LocalAppended()
    ensures Append(LocalTcp(), []) == [LocalTcp()]
  {
    hide LocalText, Lower, Trim;
    var text := LocalText();
    LocalEnds();
    LocalLetters();
    assert text[0] == "a=candidate:"[0];
    TrimNothing(text);
    assert text[0] != "candidate:"[0] && text[0] != "end-of-candidates"[0];
    NoUdp(Lower(text));
  }

  lemma GlobalIsUdp()
    ensures !IsTcp(GLOBAL)
  {
    hide Contains;
    assert Lower("8.8.8.8") == "8.8.8.8" && Lower("typ") == "typ" && Lower("srflx") == "srflx";
    NoTcp("8.8.8.8");
    LowerWords("typ", "srflx");
    assert "typ" + " " + "srflx" == "typ srflx";
    assert !Contains("typ", TCPTYPE) && !Contains("srflx", TCPTYPE) by { TooShort("typ"); TooShort("srflx"); }
  }

  lemma TooShort(s: string)
    requires |s| < |TCPTYPE|
    ensures !Contains(s, TCPTYPE)
  {}

  lemma GlobalAppended()
    ensures Append(GlobalUdp(), [LocalTcp()]) == [LocalTcp(), GlobalUdp()]
  {
    hide IsTcp, NormalizeForLibPeer, IsAccepted, IsInvalid, CandidateRest, LocalText;
    var text := GlobalUdp().candidate;
    LocalEnds();
    TextNormalized(2, 1, GLOBAL);
    InvalidText(2, 1, GLOBAL);
    GlobalIsUdp();
    assert text == "a=candidate:" + Decimal(2) + " " + CandidateRest(1, GLOBAL);
    assert text[12] == Decimal(2)[0] == '2';
  }

  lemma BothExpanded()
    ensures ExpandAll([LocalTcp(), GlobalUdp()]) == [LocalTcp(), GlobalUdp()]
  {
    hide Append, CandidateText, Decimal, LocalText;
    var l, g := LocalTcp(), GlobalUdp();
    LocalAppended();
    GlobalAppended();
    TextNormalized(2, 1, GLOBAL);
    LocalIsNoEnd();
    assert [l, g][..1] == [l];
    assert !IsV6(LOCAL.address) && !IsV6(GLOBAL.address);
    assert ExpandAll([]) == [];
    assert ExpandAll([l]) == [l];
  }

  lemma LocalFirst()
    ensures
      var s := Sort(RankAll([LocalTcp(), GlobalUdp()], false, NO_PREFERENCE));
      |s| == 2 && s[0].parts == LOCAL && s[1].parts == GLOBAL
  {
    hide CandidateText, Decimal, LocalText, Sort, Rank, IsPreferred;
    var l, g := LocalTcp(), GlobalUdp();
    TextNormalized(2, 1, GLOBAL);
    LocalIsNoEnd();
    LocalRanks();
    var x, y := Ranked(l, LOCAL, false, 0, 0), Ranked(g, GLOBAL, false, 1, 1);
    assert [l, g][..1] == [l];
    assert RankAll([], false, NO_PREFERENCE) == [];
    assert RankAll([l], false, NO_PREFERENCE) == [x];
    assert RankAll([l, g], false, NO_PREFERENCE) == [x, y];
    TwoSorted(x, y);
  }

  lemma LocalRanks()
    ensures Rank(LOCAL, false) == 0 && Rank(GLOBAL, false) == 1
    ensures forall parts :: !IsPreferred(parts, false, NO_PREFERENCE)
  {
    assert IsPrivateIpv4(LOCAL.address) && IsPublicIpv4(GLOBAL.address);
  }

  lemma TwoSorted(x: Ranked, y: Ranked)
    requires Before(x, y)
    ensures Sort([x, y]) == [x, y]
  {
    assert [x, y][1..] == [y] && [y][1..] == [];
    assert Sort([y]) == [y];
  }

  lemma LocalIsTcp()
    ensures IsTcp(LOCAL)
  {
    hide Lower;
    LowerJoin("typ host ", TCPTYPE + " active");
    LowerJoin(TCPTYPE, " active");
    assert Lower(TCPTYPE) == TCPTYPE by { TypeIsLower(); }
    assert OccursAt(TCPTYPE, TCPTYPE, 0);
    ContainsLeft(TCPTYPE, Lower(" active"), TCPTYPE);
    ContainsRight(Lower("typ host "), TCPTYPE + Lower(" active"), TCPTYPE);
  }

  lemma TypeIsLower()
    ensures Lower(TCPTYPE) == TCPTYPE
  {}

  /** The TCP candidate comes first and is dropped; the other one goes out alone, and not with top priority. */
  lemma TcpTakesTop()
    ensures
      var out := Rewritten([LocalTcp(), GlobalUdp()], false, NO_PREFERENCE);
      PartsOf(out) == [Some(GLOBAL), None] && !HasTop(out)
  {
    hide Sort, RankAll, ExpandAll, Rewritten, Contains, IsTcp, HasTop, RenumberAll, CandidateText, Decimal, LocalText, EndOf;
    var candidates := [LocalTcp(), GlobalUdp()];
    assert AllPayloadsParsed(candidates);
    BothExpanded();
    LocalFirst();
    LocalIsTcp();
    GlobalIsUdp();
    RewrittenList(candidates, false, NO_PREFERENCE);
    TopPriorityOut(candidates, false, NO_PREFERENCE);
    var s := Sort(RankAll(candidates, false, NO_PREFERENCE));
    assert s[..1][..0] == [] && s[..1][0] == s[0];
    assert KeptParts(s[..1]) == [];
    assert KeptParts(s) == [Some(GLOBAL)];
    TextNormalized(2, 1, GLOBAL);
    LocalIsNoEnd();
    NoEndMarker(LocalTcp(), GlobalUdp());
  }

  lemma NoEndMarker(p: Payload, q: Payload)
    requires p.candidate != END && q.candidate != END
    ensures EndOf([p, q]) == DEFAULT_END
  {
    assert [p, q][..1] == [p];
    assert EndOf([]) == DEFAULT_END;
    assert EndOf([p]) == DEFAULT_END;
  }
}
