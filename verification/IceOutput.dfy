/**
  What goes out, in terms of what came in: behind every Teredo address the console's own address is offered, nothing is
  made up, and the list is ordered by the kind of network.
 */
module IceOutput {
  import opened Wrappers
  import opened IceCandidates
  import opened IcePreferences

  // ----- Adding lines -----

  predicate Acceptable(line: string) {
    line != [] && IsAccepted(line) && !IsInvalid(line)
  }

  /** An acceptable line is added at the end unless there is an equal one. */
  function New(list: seq<Payload>, line: Payload): seq<Payload> {
    if !Acceptable(line.candidate) || HasSame(list, line) then [] else [line]
  }

  lemma AppendIs(p: Payload, list: seq<Payload>)
    ensures Append(p, list) == list + New(list, Normalized(p))
  {
    hide IsAccepted, IsInvalid, HasSame, NormalizeForLibPeer;
    assert list + [] == list;
  }

  lemma SameStays(list: seq<Payload>, more: seq<Payload>, p: Payload)
    requires HasSame(list, p)
    ensures HasSame(list + more, p)
  {
    var i :| 0 <= i < |list| && SameCandidate(list[i], p);
    assert SameCandidate((list + more)[i], p);
  }

  lemma SameAdded(list: seq<Payload>, p: Payload)
    requires Acceptable(p.candidate)
    ensures HasSame(list + New(list, p), p)
  {
    hide Acceptable;
    if HasSame(list, p) {
      assert list + [] == list;
    } else {
      assert SameCandidate((list + [p])[|list|], p);
    }
  }

  // ----- The client behind a Teredo address -----

  /** The parts of a Teredo address (section 4 of RFC 4380): the client and the port that it is mapped to. */
  datatype Teredo = Teredo(server: seq<bv8>, flags: seq<bv8>, port: bv16, client: seq<bv8>) {
    /** Well formed, and mapped. */
    ghost predicate Valid() {
      |server| == 4 && |flags| == 2 && |client| == 4 && port as nat > 0
    }

    ghost function Bytes(): seq<bv8>
      requires Valid()
    {
      EncodeTeredo(server, flags, port, client)
    }
  }

  /** The address of the candidate is this Teredo address. */
  ghost predicate IsTeredo(p: Payload, m: Teredo) {
    m.Valid() && p.candidate != END && p.parts.Some? && ':' in p.parts.value.address.text
    && p.parts.value.address.bytes == Some(m.Bytes())
  }

  function Dotted(client: seq<bv8>): string
    requires |client| == 4
  {
    Decimal(client[0] as nat) + "." + Decimal(client[1] as nat) + "." + Decimal(client[2] as nat) + "." + Decimal(client[3] as nat)
  }

  /** The client's own IPv4 address at a port, as a host candidate. */
  function ClientParts(client: seq<bv8>, port: nat): Parts
    requires |client| == 4
  {
    var octets := [client[0] as nat, client[1] as nat, client[2] as nat, client[3] as nat];
    Parts(Address(Dotted(client), Some(client), Some(octets)), port, "typ host")
  }

  function ClientLine(foundation: string, client: seq<bv8>, port: nat): string
    requires |client| == 4
  {
    "a=candidate:" + foundation + " 1 UDP 1 " + Dotted(client) + " " + Decimal(port) + " typ host"
  }

  /** The line for the client, in the media section of the Teredo candidate. */
  function ClientOffer(p: Payload, foundation: string, client: seq<bv8>, port: nat): Payload
    requires |client| == 4
  {
    Payload(ClientLine(foundation, client, port), Some(ClientParts(client, port)), if p.sdpMid == "" then "0" else p.sdpMid,
            p.sdpMlineIndex, if p.messageType == "" then "iceCandidate" else p.messageType)
  }

  lemma {:induction false} DecimalValue(n: nat)
    ensures TextValue(Decimal(n)) == n
  {
    if n < 10 {
      assert Decimal(n)[..0] == "";
      assert TextValue("") == 0;
    } else {
      DecimalValue(n / 10);
      var s := Decimal(n);
      assert s[..|s| - 1] == Decimal(n / 10);
    }
  }

  /** What a decimal text says. */
  function TextValue(s: string): int {
    if s == "" then 0 else TextValue(s[..|s| - 1]) * 10 + (s[|s| - 1] as int - '0' as int)
  }

  lemma Joined(a: string, b: string, c: string)
    ensures a + " " + ("1 UDP " + "1" + " " + b + " " + c + " " + "typ host") == a + " 1 UDP 1 " + b + " " + c + " typ host"
  {
    assert " 1 UDP 1 " == " " + "1 UDP " + "1" + " " && " typ host" == " " + "typ host";
  }

  lemma DerivedIs(p: Payload, foundation: string, client: seq<bv8>, mapped: nat, port: nat)
    requires |client| == 4
    ensures Derived(p, foundation, Client(client, mapped), port) == ClientOffer(p, foundation, client, port)
  {
    hide Decimal;
    OnePriority();
    assert DottedText(client) == Dotted(client);
    Joined("a=candidate:" + foundation, Dotted(client), Decimal(port));
  }

  lemma OnePriority()
    ensures Decimal(1) == "1"
  {}

  /** A line for a client is acceptable as it is. */
  lemma ClientAcceptable(n: nat, client: seq<bv8>, port: nat)
    requires |client| == 4 && port > 0
    ensures var line := ClientLine(Decimal(n), client, port); Acceptable(line) && NormalizeForLibPeer(line) == line && line != END
    ensures !IsTcp(ClientParts(client, port)) && Parsed(ClientParts(client, port))
  {
    hide Decimal, IsInvalid, IsTcp, CandidateText;
    var parts := ClientParts(client, port);
    var p := Payload("", None, "", 0, "");
    DerivedIs(p, Decimal(n), client, port, port);
    assert Parsed(parts) by { HostParsed(client, port); }
    TextNormalized(n, 1, parts);
    InvalidText(n, 1, parts);
    assert CandidateText(Decimal(n), 1, parts) == ClientLine(Decimal(n), client, port) by { SameText(n, client, port); }
    ClientIsNoTcp(client, port);
  }

  lemma HostParsed(client: seq<bv8>, port: nat)
    requires |client| == 4 && port > 0
    ensures Parsed(ClientParts(client, port))
  {
    hide Decimal;
  }

  lemma SameText(n: nat, client: seq<bv8>, port: nat)
    requires |client| == 4
    ensures CandidateText(Decimal(n), 1, ClientParts(client, port)) == ClientLine(Decimal(n), client, port)
  {
    hide Decimal, Dotted;
    OnePriority();
    Joined("a=candidate:" + Decimal(n), Dotted(client), Decimal(port));
  }

  lemma ClientIsNoTcp(client: seq<bv8>, port: nat)
    requires |client| == 4
    ensures !IsTcp(ClientParts(client, port))
  {
    hide Decimal, Contains;
    forall i: nat | i < 4 {
      LowerDecimal(client[i] as nat);
    }
    var text := Dotted(client);
    assert 'y' !in Lower(text) by { DottedPlain(client); }
    NoTcp(Lower(text));
    assert Lower("typ") == "typ" && Lower("host") == "host";
    LowerWords("typ", "host");
    assert "typ" + " " + "host" == "typ host";
    TooShort("typ");
    TooShort("host");
  }

  lemma DottedPlain(client: seq<bv8>)
    requires |client| == 4
    ensures forall c :: c in Dotted(client) ==> c == '.' || '0' <= c <= '9'
  {
    hide Decimal;
  }

  // ----- One candidate -----

  lemma TeredoClient(p: Payload, m: Teredo)
    requires IsTeredo(p, m)
    ensures DecodeTeredo(p.parts.value.address) == Some(Client(m.client, m.port as nat))
  {
    hide DecodeTeredo;
    var a := p.parts.value.address;
    TeredoRoundTrip(a.text, m.server, m.flags, m.port, m.client, a.octets);
  }

  lemma TeredoOnly(p: Payload) returns (m: Teredo)
    requires p.candidate != END && p.parts.Some? && DecodeTeredo(p.parts.value.address).Some?
    ensures IsTeredo(p, m)
  {
    var b := p.parts.value.address.bytes.value;
    var port := OnlyTeredo(p.parts.value.address);
    m := Teredo(b[4..8], b[8..10], port, DecodeTeredo(p.parts.value.address).value.octets);
  }

  ghost predicate HasClient(p: Payload) {
    exists m: Teredo :: IsTeredo(p, m)
  }

  /** In front of a Teredo candidate its client is offered at the console's port and at the mapped one. */
  lemma TeredoInTurn(p: Payload, m: Teredo, list: seq<Payload>)
    requires IsTeredo(p, m)
    ensures
      var a := list + New(list, ClientOffer(p, "10", m.client, 9002));
      var b := a + New(a, ClientOffer(p, "11", m.client, m.port as nat));
      Expand(p, list) == b + New(b, Normalized(p))
  {
    hide IsTeredo, DecodeTeredo, Append, New, ClientOffer, Derived, NormalizeForLibPeer;
    TeredoClient(p, m);
    TeredoFields(p, m);
    var x, y := ClientOffer(p, "10", m.client, 9002), ClientOffer(p, "11", m.client, m.port as nat);
    DerivedIs(p, "10", m.client, m.port as nat, 9002);
    DerivedIs(p, "11", m.client, m.port as nat, m.port as nat);
    var a := list + New(list, x);
    var b := a + New(a, y);
    OfferAppended(p, 10, "10", m.client, 9002, list);
    OfferAppended(p, 11, "11", m.client, m.port as nat, a);
    AppendIs(p, b);
  }

  lemma TeredoFields(p: Payload, m: Teredo)
    requires IsTeredo(p, m)
    ensures |m.client| == 4 && m.port as nat > 0 && p.candidate != END && p.parts.Some?
  {}

  lemma OfferAppended(p: Payload, n: nat, foundation: string, client: seq<bv8>, port: nat, list: seq<Payload>)
    requires |client| == 4 && port > 0 && 10 <= n <= 11 && foundation == (if n == 10 then "10" else "11")
    ensures
      var x := ClientOffer(p, foundation, client, port);
      Acceptable(x.candidate) && Normalized(x) == x && Append(x, list) == list + New(list, x)
  {
    hide Append, New, Acceptable, NormalizeForLibPeer, ClientLine, IsTcp;
    TwoDigits();
    ClientAcceptable(n, client, port);
    AppendIs(ClientOffer(p, foundation, client, port), list);
  }

  lemma TwoDigits()
    ensures Decimal(10) == "10" && Decimal(11) == "11"
  {
    assert Decimal(1) == "1";
  }

  /** Any other candidate is added alone. */
  lemma OtherInTurn(p: Payload, list: seq<Payload>)
    requires !HasClient(p)
    ensures Expand(p, list) == list + New(list, Normalized(p))
  {
    hide DecodeTeredo, IsTeredo, Append, New, Derived;
    AppendIs(p, list);
    if p.candidate != END && p.parts.Some? && DecodeTeredo(p.parts.value.address).Some? {
      var m := TeredoOnly(p);
    }
  }

  // ----- The expanded list -----

  /** Expanding never takes a line away. */
  lemma ExpandGrows(p: Payload, list: seq<Payload>)
    ensures list <= Expand(p, list)
  {
    hide IsTeredo, New, ClientOffer;
    if HasClient(p) {
      var m: Teredo :| IsTeredo(p, m);
      TeredoInTurn(p, m, list);
    } else {
      OtherInTurn(p, list);
    }
  }

  lemma {:induction false} ExpandAllGrows(candidates: seq<Payload>, i: nat)
    requires i <= |candidates|
    ensures ExpandAll(candidates[..i]) <= ExpandAll(candidates)
    decreases |candidates|
  {
    hide Expand;
    if i < |candidates| {
      var front := candidates[..|candidates| - 1];
      ExpandAllGrows(front, i);
      assert front[..i] == candidates[..i];
      ExpandGrows(candidates[|candidates| - 1], ExpandAll(front));
    } else {
      assert candidates[..i] == candidates;
    }
  }

  lemma SameIn(list: seq<Payload>, longer: seq<Payload>, p: Payload)
    requires HasSame(list, p) && list <= longer
    ensures HasSame(longer, p)
  {
    SameStays(list, longer[|list|..], p);
    assert longer == list + longer[|list|..];
  }

  lemma ExpandAt(candidates: seq<Payload>, i: nat)
    requires i < |candidates|
    ensures ExpandAll(candidates[..i + 1]) == Expand(candidates[i], ExpandAll(candidates[..i]))
    ensures ExpandAll(candidates[..i + 1]) <= ExpandAll(candidates)
  {
    hide Expand;
    assert candidates[..i + 1][..i] == candidates[..i];
    ExpandAllGrows(candidates, i + 1);
  }

  /** The client behind every Teredo candidate is offered, at both ports. */
  lemma ClientOffered(candidates: seq<Payload>, i: nat, m: Teredo)
    requires i < |candidates| && IsTeredo(candidates[i], m)
    ensures |m.client| == 4
    ensures HasSame(ExpandAll(candidates), ClientOffer(candidates[i], "10", m.client, 9002))
    ensures HasSame(ExpandAll(candidates), ClientOffer(candidates[i], "11", m.client, m.port as nat))
  {
    hide IsTeredo, New, Expand, HasSame, ExpandAll, ClientOffer, Acceptable;
    TeredoFields(candidates[i], m);
    var list := ExpandAll(candidates[..i]);
    TeredoInTurn(candidates[i], m, list);
    ExpandAt(candidates, i);
    var x, y := ClientOffer(candidates[i], "10", m.client, 9002), ClientOffer(candidates[i], "11", m.client, m.port as nat);
    OfferAppended(candidates[i], 10, "10", m.client, 9002, list);
    SameAdded(list, x);
    var a := list + New(list, x);
    OfferAppended(candidates[i], 11, "11", m.client, m.port as nat, a);
    SameAdded(a, y);
    SameIn(a, ExpandAll(candidates), x);
    SameIn(a + New(a, y), ExpandAll(candidates), y);
  }

  /** Every acceptable candidate is in the list, as it is normalised. */
  lemma InputOffered(candidates: seq<Payload>, i: nat)
    requires i < |candidates| && Acceptable(Normalized(candidates[i]).candidate)
    ensures HasSame(ExpandAll(candidates), Normalized(candidates[i]))
  {
    hide IsTeredo, New, Expand, HasSame, ExpandAll, ClientOffer, Acceptable, NormalizeForLibPeer;
    var p, list := candidates[i], ExpandAll(candidates[..i]);
    ExpandAt(candidates, i);
    if HasClient(p) {
      var m: Teredo :| IsTeredo(p, m);
      TeredoFields(p, m);
      TeredoInTurn(p, m, list);
      var a := list + New(list, ClientOffer(p, "10", m.client, 9002));
      SameAdded(a + New(a, ClientOffer(p, "11", m.client, m.port as nat)), Normalized(p));
    } else {
      OtherInTurn(p, list);
      SameAdded(list, Normalized(p));
    }
    SameIn(Expand(p, list), ExpandAll(candidates), Normalized(p));
  }

  /** Candidate i accounts for a line: it is the line, or the line offers its client. */
  ghost predicate Accounts(p: Payload, x: Payload) {
    (x == Normalized(p) && Acceptable(x.candidate))
    || exists m: Teredo :: OffersClient(p, m, x)
  }

  ghost predicate OffersClient(p: Payload, m: Teredo, x: Payload) {
    IsTeredo(p, m)
    && (x == ClientOffer(p, "10", m.client, 9002) || x == ClientOffer(p, "11", m.client, m.port as nat))
  }

  /** Nothing else is in the list. */
  lemma {:induction false} NothingMadeUp(candidates: seq<Payload>, k: nat) returns (i: nat)
    requires k < |ExpandAll(candidates)|
    ensures i < |candidates| && Accounts(candidates[i], ExpandAll(candidates)[k])
    decreases |candidates|
  {
    hide IsTeredo, Expand, ClientOffer, Accounts;
    var n := |candidates| - 1;
    var p, list := candidates[n], ExpandAll(candidates[..n]);
    ExpandGrows(p, list);
    if k < |list| {
      i := NothingMadeUp(candidates[..n], k);
    } else {
      i := n;
      AddedAccounts(p, list, k);
    }
  }

  lemma AddedAccounts(p: Payload, list: seq<Payload>, k: nat)
    requires |list| <= k < |Expand(p, list)|
    ensures Accounts(p, Expand(p, list)[k])
  {
    hide IsTeredo, Expand, ClientOffer, Acceptable, NormalizeForLibPeer;
    if HasClient(p) {
      var m: Teredo :| IsTeredo(p, m);
      TeredoFields(p, m);
      TeredoInTurn(p, m, list);
      var x, y := ClientOffer(p, "10", m.client, 9002), ClientOffer(p, "11", m.client, m.port as nat);
      var z := Expand(p, list)[k];
      assert z == x || z == y || (z == Normalized(p) && Acceptable(z.candidate));
      assert z == x || z == y ==> OffersClient(p, m, z);
    } else {
      OtherInTurn(p, list);
    }
  }

  ghost predicate NoneTwice(list: seq<Payload>) {
    forall i, j :: 0 <= i < j < |list| ==> !SameCandidate(list[i], list[j])
  }

  lemma NewOnce(list: seq<Payload>, x: Payload)
    requires NoneTwice(list)
    ensures NoneTwice(list + New(list, x))
  {}

  /** No line is in the list twice. */
  lemma {:induction false} LinesOnce(candidates: seq<Payload>)
    ensures NoneTwice(ExpandAll(candidates))
  {
    hide IsTeredo, Expand, ClientOffer, NoneTwice, New;
    if candidates == [] {
      assert NoneTwice([]) by { NothingTwice(); }
    } else {
      var n := |candidates| - 1;
      var p, list := candidates[n], ExpandAll(candidates[..n]);
      LinesOnce(candidates[..n]);
      if HasClient(p) {
        var m: Teredo :| IsTeredo(p, m);
        TeredoFields(p, m);
        TeredoInTurn(p, m, list);
        var a := list + New(list, ClientOffer(p, "10", m.client, 9002));
        var b := a + New(a, ClientOffer(p, "11", m.client, m.port as nat));
        NewOnce(list, ClientOffer(p, "10", m.client, 9002));
        NewOnce(a, ClientOffer(p, "11", m.client, m.port as nat));
        NewOnce(b, Normalized(p));
      } else {
        OtherInTurn(p, list);
        NewOnce(list, Normalized(p));
      }
    }
  }

  lemma NothingTwice()
    ensures NoneTwice([])
  {}

  // ----- The fields that go out -----

  /** The fields are read off the line, by a parser that knows candidates only and reads the lines for clients. */
  ghost predicate Reads(read: string -> Option<Parts>, candidates: seq<Payload>) {
    (forall i :: 0 <= i < |candidates| ==> candidates[i].parts == read(NormalizeForLibPeer(candidates[i].candidate)))
    && (forall s: string :: read(s).Some? ==> "a=candidate:" <= s && Parsed(read(s).value))
    && ReadsClients(read)
  }

  ghost predicate ReadsClients(read: string -> Option<Parts>) {
    forall client: seq<bv8>, port: nat :: |client| == 4 && port > 0 ==>
      read(ClientLine("10", client, port)) == read(ClientLine("11", client, port)) == Some(ClientParts(client, port))
  }

  lemma LinesRead(read: string -> Option<Parts>, candidates: seq<Payload>, k: nat)
    requires Reads(read, candidates) && k < |ExpandAll(candidates)|
    ensures ExpandAll(candidates)[k].parts == read(ExpandAll(candidates)[k].candidate)
  {
    hide ExpandAll, ClientLine, ClientParts, NormalizeForLibPeer, Acceptable, Parsed, IsTeredo;
    var x := ExpandAll(candidates)[k];
    var i := NothingMadeUp(candidates, k);
    if x != Normalized(candidates[i]) {
      var m: Teredo :| OffersClient(candidates[i], m, x);
      TeredoFields(candidates[i], m);
    }
  }

  /** A candidate asks for fields: they are its own, or its client's at one of the two ports. */
  ghost predicate Asks(p: Payload, f: Parts) {
    (p.parts == Some(f) && Acceptable(NormalizeForLibPeer(p.candidate)))
    || exists m: Teredo :: AsksClient(p, m, f)
  }

  ghost predicate AsksClient(p: Payload, m: Teredo, f: Parts) {
    IsTeredo(p, m) && (f == ClientParts(m.client, 9002) || f == ClientParts(m.client, m.port as nat))
  }

  /** Fields are listed after the expansion exactly when some candidate asks for them. */
  lemma ListedExactly(read: string -> Option<Parts>, candidates: seq<Payload>, f: Parts)
    requires Reads(read, candidates)
    ensures (exists k :: 0 <= k < |ExpandAll(candidates)| && ExpandAll(candidates)[k].parts == Some(f))
      <==> exists i :: 0 <= i < |candidates| && Asks(candidates[i], f)
  {
    hide ExpandAll, ClientLine, ClientParts, NormalizeForLibPeer, Acceptable, Parsed, IsTeredo, Asks, Accounts;
    var list := ExpandAll(candidates);
    if exists k :: 0 <= k < |list| && list[k].parts == Some(f) {
      var k :| 0 <= k < |list| && list[k].parts == Some(f);
      var i := NothingMadeUp(candidates, k);
      AccountsAsks(candidates[i], list[k], f);
    }
    if exists i :: 0 <= i < |candidates| && Asks(candidates[i], f) {
      var i :| 0 <= i < |candidates| && Asks(candidates[i], f);
      var line := AskedLine(read, candidates, i, f);
      var k :| 0 <= k < |list| && list[k].candidate == line;
      LinesRead(read, candidates, k);
    }
  }

  lemma AccountsAsks(p: Payload, x: Payload, f: Parts)
    requires Accounts(p, x) && x.parts == Some(f)
    ensures Asks(p, f)
  {
    hide ClientLine, ClientParts, NormalizeForLibPeer, Acceptable, IsTeredo;
    if !(x == Normalized(p) && Acceptable(x.candidate)) {
      var m: Teredo :| OffersClient(p, m, x);
      TeredoFields(p, m);
      assert AsksClient(p, m, f);
    }
  }

  lemma AskedLine(read: string -> Option<Parts>, candidates: seq<Payload>, i: nat, f: Parts) returns (line: string)
    requires Reads(read, candidates) && i < |candidates| && Asks(candidates[i], f)
    ensures read(line) == Some(f) && exists k :: 0 <= k < |ExpandAll(candidates)| && ExpandAll(candidates)[k].candidate == line
  {
    hide ExpandAll, ClientLine, ClientParts, NormalizeForLibPeer, Acceptable, Parsed, IsTeredo;
    var p := candidates[i];
    var x := Normalized(p);
    if p.parts == Some(f) && Acceptable(x.candidate) {
      InputOffered(candidates, i);
    } else {
      var m: Teredo :| AsksClient(p, m, f);
      TeredoFields(p, m);
      ClientOffered(candidates, i, m);
      x := if f == ClientParts(m.client, 9002) then ClientOffer(p, "10", m.client, 9002) else ClientOffer(p, "11", m.client, m.port as nat);
    }
    line := x.candidate;
    var k :| 0 <= k < |ExpandAll(candidates)| && SameCandidate(ExpandAll(candidates)[k], x);
  }

  lemma {:induction false} KeptContains(s: seq<Ranked>, f: Parts)
    ensures Some(f) in KeptParts(s) <==> !IsTcp(f) && exists i :: 0 <= i < |s| && s[i].parts == f
  {
    hide IsTcp;
    if s != [] {
      var front, last := s[..|s| - 1], s[|s| - 1];
      KeptContains(front, f);
      assert KeptParts(s) == KeptParts(front) + (if IsTcp(last.parts) then [] else [Some(last.parts)]);
      if exists i :: 0 <= i < |s| && s[i].parts == f {
        var i :| 0 <= i < |s| && s[i].parts == f;
        assert i < |front| ==> front[i].parts == f;
      }
      if exists i :: 0 <= i < |front| && front[i].parts == f {
        var i :| 0 <= i < |front| && front[i].parts == f;
        assert s[i].parts == f;
      }
    }
  }

  ghost predicate RankedWith(s: seq<Ranked>, f: Parts) {
    exists i :: 0 <= i < |s| && s[i].parts == f
  }

  /** Some line that is no end marker has these fields. */
  ghost predicate ListedWith(list: seq<Payload>, f: Parts) {
    exists k :: 0 <= k < |list| && list[k].candidate != END && list[k].parts == Some(f)
  }

  lemma RankedNext(s: seq<Ranked>, x: Ranked, f: Parts)
    ensures RankedWith(s + [x], f) <==> RankedWith(s, f) || x.parts == f
  {
    var all := s + [x];
    assert all[|s|] == x && forall i :: 0 <= i < |s| ==> all[i] == s[i];
  }

  lemma ListedNext(list: seq<Payload>, p: Payload, f: Parts)
    ensures ListedWith(list + [p], f) <==> ListedWith(list, f) || (p.candidate != END && p.parts == Some(f))
  {
    var all := list + [p];
    assert all[|list|] == p && forall i :: 0 <= i < |list| ==> all[i] == list[i];
  }

  lemma {:induction false} RankContains(expanded: seq<Payload>, preferPublic: bool, preference: Preference, f: Parts)
    ensures RankedWith(RankAll(expanded, preferPublic, preference), f) <==> ListedWith(expanded, f)
  {
    hide IsPreferred, Rank, RankedWith, ListedWith;
    if expanded == [] {
      NothingListed(f);
    } else {
      var n := |expanded| - 1;
      var front, p := expanded[..n], expanded[n];
      RankContains(front, preferPublic, preference, f);
      var q, r := RankAll(front, preferPublic, preference), RankAll(expanded, preferPublic, preference);
      ListedNext(front, p, f);
      assert front + [p] == expanded;
      if p.candidate != END && p.parts.Some? {
        RankedNext(q, r[|q|], f);
      }
    }
  }

  lemma NothingListed(f: Parts)
    ensures !RankedWith([], f) && !ListedWith([], f)
  {}

  /**
    Exactly these fields go out: of acceptable candidates their own, and of Teredo candidates the client's at 9002 and at
    the mapped port; except those that say TCP.
   */
  lemma FieldsOut(read: string -> Option<Parts>, candidates: seq<Payload>, preferPublic: bool, preference: Preference, f: Parts)
    requires Reads(read, candidates)
    ensures
      Some(f) in PartsOf(Rewritten(candidates, preferPublic, preference))
      <==> !IsTcp(f) && exists i :: 0 <= i < |candidates| && Asks(candidates[i], f)
  {
    hide ExpandAll, RankAll, Sort, RenumberAll, Rewritten, IsTcp, EndOf, KeptParts, OneEndMarker, Asks, NormalizeForLibPeer, Parsed,
      ReadsClients;
    var expanded := ExpandAll(candidates);
    var r := RankAll(expanded, preferPublic, preference);
    var out := Rewritten(candidates, preferPublic, preference);
    RewrittenList(candidates, preferPublic, preference);
    PartsAppend(RenumberAll(Sort(r)), EndOf(expanded));
    assert PartsOf(out) == KeptParts(Sort(r)) + [EndOf(expanded).parts];
    EndReads(read, candidates, expanded);
    KeptSort(r);
    assert Some(f) in KeptParts(Sort(r)) <==> Some(f) in multiset(KeptParts(Sort(r)));
    assert Some(f) in KeptParts(r) <==> Some(f) in multiset(KeptParts(r));
    KeptContains(r, f);
    RankContains(expanded, preferPublic, preference, f);
    ListedExactly(read, candidates, f);
    NoEndAmong(read, candidates, f);
  }

  /** A line with fields is no end marker. */
  lemma NoEndAmong(read: string -> Option<Parts>, candidates: seq<Payload>, f: Parts)
    requires Reads(read, candidates)
    ensures forall k :: 0 <= k < |ExpandAll(candidates)| && ExpandAll(candidates)[k].parts == Some(f) ==>
      ExpandAll(candidates)[k].candidate != END
  {
    hide ExpandAll, NormalizeForLibPeer, Parsed, ReadsClients;
    forall k | 0 <= k < |ExpandAll(candidates)| && ExpandAll(candidates)[k].parts == Some(f)
      ensures ExpandAll(candidates)[k].candidate != END
    {
      LinesRead(read, candidates, k);
      assert "a=candidate:"[2] != END[2];
    }
  }

  lemma EndReads(read: string -> Option<Parts>, candidates: seq<Payload>, expanded: seq<Payload>)
    requires Reads(read, candidates) && expanded == ExpandAll(candidates)
    ensures EndOf(expanded).parts == None
  {
    hide ExpandAll, NormalizeForLibPeer, Parsed, ReadsClients, EndOf;
    EndIsDefaultOrListed(expanded);
    if EndOf(expanded) != DEFAULT_END {
      var k :| 0 <= k < |expanded| && expanded[k] == EndOf(expanded);
      LinesRead(read, candidates, k);
      EndText(expanded);
      assert "a=candidate:"[2] != END[2];
    }
  }

  lemma {:induction false} EndIsDefaultOrListed(expanded: seq<Payload>)
    ensures EndOf(expanded) == DEFAULT_END || exists k :: 0 <= k < |expanded| && expanded[k] == EndOf(expanded)
  {
    if expanded != [] && expanded[|expanded| - 1].candidate != END {
      var front := expanded[..|expanded| - 1];
      EndIsDefaultOrListed(front);
      if EndOf(front) != DEFAULT_END {
        var k :| 0 <= k < |front| && front[k] == EndOf(front);
        assert expanded[k] == EndOf(expanded);
      }
    }
  }

  // ----- The order of the output -----

  /** The candidate that the console was last reached at. */
  predicate LastReached(f: Parts, preference: Preference) {
    preference.port > 0 && f.port == preference.port && AddressesEqual(f.address, preference.address)
  }

  /**
    In the cloud public IPv4 comes before IPv6, and that before private IPv4. At home what was last reached comes first,
    then private IPv4, then public IPv4, then IPv6. Anything else comes last.
   */
  predicate MayPrecede(x: Parts, y: Parts, preferPublic: bool, preference: Preference) {
    var a, b := x.address, y.address;
    if preferPublic then
      (IsPublicIpv4(b) ==> IsPublicIpv4(a)) && (IsV6(b) ==> IsPublicIpv4(a) || IsV6(a))
      && (IsPrivateIpv4(b) ==> IsPublicIpv4(a) || IsV6(a) || IsPrivateIpv4(a))
    else
      (LastReached(y, preference) ==> LastReached(x, preference))
      && (LastReached(x, preference)
          || ((IsPrivateIpv4(b) ==> IsPrivateIpv4(a)) && (IsPublicIpv4(b) ==> IsPrivateIpv4(a) || IsPublicIpv4(a))
              && (IsV6(b) ==> IsPrivateIpv4(a) || IsPublicIpv4(a) || IsV6(a))))
  }

  lemma BeforeMayPrecede(x: Ranked, y: Ranked, preferPublic: bool, preference: Preference)
    requires Before(x, y) && RankedBy(x, preferPublic, preference) && RankedBy(y, preferPublic, preference)
    ensures MayPrecede(x.parts, y.parts, preferPublic, preference)
  {
    hide IsPublicIpv4, IsPrivateIpv4, IsV6, AddressesEqual;
    PrivateIsNotPublic(x.parts.address);
    PrivateIsNotPublic(y.parts.address);
  }

  /** Four octets as one number. */
  function AddressNumber(octets: seq<nat>): nat
    requires |octets| == 4
  {
    octets[0] * 0x100_0000 + octets[1] * 0x1_0000 + octets[2] * 0x100 + octets[3]
  }

  /**
    Private are the three blocks of section 3 of RFC 1918. Public are the other addresses from 1.0.0.0 to 126.255.255.255
    and from 128.0.0.0 to 223.255.255.255.
   */
  lemma AddressBlocks(a: Address)
    requires IsIpv4(a)
    ensures |a.octets.value| == 4
    ensures
      var n := AddressNumber(a.octets.value);
      var private := 0x0A00_0000 <= n <= 0x0AFF_FFFF || 0xAC10_0000 <= n <= 0xAC1F_FFFF || 0xC0A8_0000 <= n <= 0xC0A8_FFFF;
      IsPrivateIpv4(a) == private
      && IsPublicIpv4(a) == (!private && (0x0100_0000 <= n <= 0x7EFF_FFFF || 0x8000_0000 <= n <= 0xDFFF_FFFF))
  {
    var o := a.octets.value;
    assert o[0] <= 255 && o[1] <= 255 && o[2] <= 255 && o[3] <= 255;
  }

  lemma PrivateIsNotPublic(a: Address)
    ensures !(IsPrivateIpv4(a) && IsPublicIpv4(a))
  {}

  predicate RankedBy(x: Ranked, preferPublic: bool, preference: Preference) {
    x.rank == Rank(x.parts, preferPublic) && x.preferred == IsPreferred(x.parts, preferPublic, preference)
  }

  ghost predicate EachRankedBy(s: seq<Ranked>, preferPublic: bool, preference: Preference) {
    forall i :: 0 <= i < |s| ==> RankedBy(s[i], preferPublic, preference)
  }

  lemma {:induction false} AllRankedBy(expanded: seq<Payload>, preferPublic: bool, preference: Preference)
    ensures EachRankedBy(RankAll(expanded, preferPublic, preference), preferPublic, preference)
  {
    if expanded != [] {
      AllRankedBy(expanded[..|expanded| - 1], preferPublic, preference);
    }
  }

  /** The candidates that are kept stay in order. */
  lemma {:induction false} KeptInOrder(s: seq<Ranked>, a: nat, b: nat) returns (i: nat, j: nat)
    requires a < b < |KeptParts(s)|
    ensures i < j < |s| && KeptParts(s)[a] == Some(s[i].parts) && KeptParts(s)[b] == Some(s[j].parts)
  {
    hide IsTcp;
    var n := |s| - 1;
    if b < |KeptParts(s[..n])| {
      i, j := KeptInOrder(s[..n], a, b);
    } else {
      i := KeptAt(s[..n], a);
      j := n;
    }
  }

  lemma {:induction false} KeptAt(s: seq<Ranked>, a: nat) returns (i: nat)
    requires a < |KeptParts(s)|
    ensures i < |s| && KeptParts(s)[a] == Some(s[i].parts)
  {
    hide IsTcp;
    var n := |s| - 1;
    if a < |KeptParts(s[..n])| {
      i := KeptAt(s[..n], a);
    } else {
      i := n;
    }
  }

  /** The list that goes out is ordered by the kind of network; the end marker is last. */
  lemma OrderOut(candidates: seq<Payload>, preferPublic: bool, preference: Preference, a: nat, b: nat)
    requires AllPayloadsParsed(candidates)
    requires a < b < |Rewritten(candidates, preferPublic, preference)| - 1
    ensures
      var out := Rewritten(candidates, preferPublic, preference);
      out[a].parts.Some? && out[b].parts.Some? && MayPrecede(out[a].parts.value, out[b].parts.value, preferPublic, preference)
  {
    hide ExpandAll, RankAll, Sort, RenumberAll, Rewritten, EndOf, KeptParts, OneEndMarker, Parsed, MayPrecede, RankedBy;
    var r := RankAll(ExpandAll(candidates), preferPublic, preference);
    var s := Sort(r);
    RewrittenList(candidates, preferPublic, preference);
    var i, j := KeptInOrder(s, a, b);
    assert PartsOf(RenumberAll(s))[a] == Some(s[i].parts) && PartsOf(RenumberAll(s))[b] == Some(s[j].parts);
    AllRankedBy(ExpandAll(candidates), preferPublic, preference);
    RankOrders(ExpandAll(candidates), preferPublic, preference);
    SortSorted(r);
    SortElements(r);
    assert s[i] in multiset(s) && s[j] in multiset(s);
    assert s[i] in r && s[j] in r;
    assert RankedBy(s[i], preferPublic, preference) && RankedBy(s[j], preferPublic, preference);
    BeforeMayPrecede(s[i], s[j], preferPublic, preference);
  }

  // ----- The normal form of a line -----

  ghost predicate AllSpace(w: string) {
    forall i :: 0 <= i < |w| ==> IsSpace(w[i])
  }

  lemma {:induction false} LeftTrimmed(w: string, s: string)
    requires AllSpace(w) && s != "" && !IsSpace(s[0])
    ensures TrimLeft(w + s) == s
  {
    hide IsSpace;
    if w == "" {
      assert w + s == s;
    } else {
      assert (w + s)[0] == w[0] && (w + s)[1..] == w[1..] + s;
      LeftTrimmed(w[1..], s);
    }
  }

  lemma {:induction false} RightTrimmed(s: string, w: string)
    requires AllSpace(w) && s != "" && !IsSpace(s[|s| - 1])
    ensures TrimRight(s + w) == s
    decreases |w|
  {
    hide IsSpace;
    if w == "" {
      assert s + w == s;
    } else {
      var n := |w| - 1;
      assert (s + w)[|s| + n] == w[n] && (s + w)[..|s| + n] == s + w[..n];
      RightTrimmed(s, w[..n]);
    }
  }

  lemma Trimmed(left: string, s: string, right: string)
    requires AllSpace(left) && AllSpace(right) && s != "" && !IsSpace(s[0]) && !IsSpace(s[|s| - 1])
    ensures Trim(left + s + right) == s
  {
    hide IsSpace;
    assert left + s + right == left + (s + right);
    LeftTrimmed(left, s + right);
    RightTrimmed(s, right);
  }

  /** White space around a line and a missing "a=" make no difference. */
  lemma NormalForm(left: string, body: string, right: string)
    requires AllSpace(left) && AllSpace(right) && (body == "" || !IsSpace(body[|body| - 1]))
    ensures NormalizeForLibPeer(left + ("candidate:" + body) + right) == "a=candidate:" + body
    ensures NormalizeForLibPeer(left + ("a=candidate:" + body) + right) == "a=candidate:" + body
    ensures NormalizeForLibPeer(left + "end-of-candidates" + right) == END == NormalizeForLibPeer(left + END + right)
  {
    hide Trim;
    var short, long := "candidate:" + body, "a=candidate:" + body;
    assert "a=" + short == long;
    assert "candidate:" <= short;
    assert long[0] == 'a' && long[2] == 'c' && END[2] == 'e' && END[0] == 'a' && "candidate:"[0] == 'c' && "end-of-candidates"[0] == 'e';
    Trimmed(left, short, right);
    Trimmed(left, long, right);
    Trimmed(left, "end-of-candidates", right);
    Trimmed(left, END, right);
  }
}
