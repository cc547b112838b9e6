/**
  The remote ICE candidates of a connection: Teredo addresses are expanded, the candidates are ranked and
  renumbered, and an end marker closes the list.
 */
module IceCandidates {
  import opened Wrappers

  const END := "a=end-of-candidates"
  const TOP_PRIORITY := 2130706431
  const XBOX_PORT := 9002

  // ----- Text -----

  predicate IsSpace(c: char) {
    c in " \t\n\r" || c == '\U{0B}' || c == '\U{0C}'
  }

  function TrimLeft(s: string): string {
    if s != [] && IsSpace(s[0]) then TrimLeft(s[1..]) else s
  }

  function TrimRight(s: string): string {
    if s != [] && IsSpace(s[|s| - 1]) then TrimRight(s[..|s| - 1]) else s
  }

  function Trim(s: string): string {
    TrimRight(TrimLeft(s))
  }

  function LowerChar(c: char): char {
    if 'A' <= c <= 'Z' then c - 'A' + 'a' else c
  }

  function Lower(s: string): (r: string)
    ensures |r| == |s| && forall i :: 0 <= i < |s| ==> r[i] == LowerChar(s[i])
  {
    seq(|s|, i requires 0 <= i < |s| => LowerChar(s[i]))
  }

  predicate OccursAt(s: string, needle: string, i: nat) {
    i + |needle| <= |s| && s[i..i + |needle|] == needle
  }

  predicate Contains(s: string, needle: string) {
    exists i :: 0 <= i <= |s| && OccursAt(s, needle, i)
  }

  function Decimal(n: nat): (s: string)
    ensures s != [] && forall i :: 0 <= i < |s| ==> '0' <= s[i] <= '9'
  {
    if n < 10 then [n as char + '0'] else Decimal(n / 10) + [(n % 10) as char + '0']
  }

  // ----- Candidates -----

  /** An address as it is written, what inet_pton makes of it, and its four decimal octets if it has them. */
  datatype Address = Address(text: string, bytes: Option<seq<bv8>>, octets: Option<seq<nat>>)

  predicate IsV6(a: Address) {
    ':' in a.text
  }

  /** The fields of a candidate line; the remainder starts with its type. */
  datatype Parts = Parts(address: Address, port: nat, remainder: string)

  /** A line and the fields that it parses into, if it does. */
  datatype Payload = Payload(candidate: string, parts: Option<Parts>, sdpMid: string, sdpMlineIndex: int, messageType: string)

  function NormalizeForLibPeer(candidate: string): string {
    var s := Trim(candidate);
    if "candidate:" <= s then "a=" + s else if s == "end-of-candidates" then END else s
  }

  predicate IsAccepted(s: string) {
    "a=candidate:" <= s || "candidate:" <= s || s == END || s == "end-of-candidates"
  }

  /** TCP candidates that claim to be UDP. */
  predicate IsInvalid(s: string) {
    Contains(Lower(s), " udp ") && Contains(Lower(s), "tcptype")
  }

  predicate SameCandidate(p: Payload, q: Payload) {
    p.candidate == q.candidate && p.sdpMid == q.sdpMid && p.sdpMlineIndex == q.sdpMlineIndex
  }

  predicate HasSame(list: seq<Payload>, p: Payload) {
    exists i :: 0 <= i < |list| && SameCandidate(list[i], p)
  }

  function Normalized(p: Payload): Payload {
    p.(candidate := NormalizeForLibPeer(p.candidate))
  }

  /** Adds an acceptable candidate that is not in the list yet. */
  function Append(p: Payload, list: seq<Payload>): seq<Payload> {
    var q := Normalized(p);
    if q.candidate == [] || !IsAccepted(q.candidate) || IsInvalid(q.candidate) || HasSame(list, q) then list
    else list + [q]
  }

  // ----- Teredo -----

  /** The client behind a Teredo address. */
  datatype Client = Client(octets: seq<bv8>, port: nat)

  function PortOf(high: bv8, low: bv8): nat {
    var obfuscated := ((high as bv16) << 8) | (low as bv16);
    (!obfuscated) as nat
  }

  function Inverted(b: bv8): bv8 {
    b ^ 0xFF
  }

  function DecodeTeredo(a: Address): Option<Client> {
    if !IsV6(a) || a.bytes.None? || |a.bytes.value| != 16 then None
    else
      var b := a.bytes.value;
      if b[..4] != [0x20, 0x01, 0x00, 0x00] then None
      else
        var port := PortOf(b[10], b[11]);
        if port == 0 then None
        else Some(Client([Inverted(b[12]), Inverted(b[13]), Inverted(b[14]), Inverted(b[15])], port))
  }

  function DottedText(octets: seq<bv8>): string
    requires |octets| == 4
  {
    Decimal(octets[0] as nat) + "." + Decimal(octets[1] as nat) + "." + Decimal(octets[2] as nat) + "."
    + Decimal(octets[3] as nat)
  }

  function DottedAddress(octets: seq<bv8>): Address
    requires |octets| == 4
  {
    Address(DottedText(octets), Some(octets),
            Some([octets[0] as nat, octets[1] as nat, octets[2] as nat, octets[3] as nat]))
  }

  function CandidateText(foundation: string, priority: nat, parts: Parts): string {
    "a=candidate:" + foundation + " " + CandidateRest(priority, parts)
  }

  function CandidateRest(priority: nat, parts: Parts): string {
    "1 UDP " + Decimal(priority) + " " + parts.address.text + " " + Decimal(parts.port) + " " + parts.remainder
  }

  function OrDefault(s: string, default: string): string {
    if s == [] then default else s
  }

  function Derived(source: Payload, foundation: string, client: Client, port: nat): Payload
    requires |client.octets| == 4
  {
    var parts := Parts(DottedAddress(client.octets), port, "typ host");
    Payload(CandidateText(foundation, 1, parts), Some(parts), OrDefault(source.sdpMid, "0"), source.sdpMlineIndex,
            OrDefault(source.messageType, "iceCandidate"))
  }

  /** A Teredo candidate is preceded by its client, at the port of the console and at the mapped one. */
  function Expand(p: Payload, list: seq<Payload>): seq<Payload> {
    if p.candidate == END || p.parts.None? then Append(p, list)
    else
      var client := DecodeTeredo(p.parts.value.address);
      if client.None? then Append(p, list)
      else
        var first := Append(Derived(p, "10", client.value, XBOX_PORT), list);
        Append(p, Append(Derived(p, "11", client.value, client.value.port), first))
  }

  function ExpandAll(candidates: seq<Payload>): seq<Payload> {
    if candidates == [] then []
    else Expand(candidates[|candidates| - 1], ExpandAll(candidates[..|candidates| - 1]))
  }

  method ExpandTeredoCandidates(candidates: seq<Payload>) returns (expanded: seq<Payload>)
    ensures expanded == ExpandAll(candidates)
  {
    hide Append, Derived, DecodeTeredo;
    expanded := [];
    for i := 0 to |candidates|
      invariant expanded == ExpandAll(candidates[..i])
    {
      var payload := candidates[i];
      assert candidates[..i + 1][..i] == candidates[..i];
      if payload.candidate == END || payload.parts.None? {
        expanded := Append(payload, expanded);
      } else {
        var client := DecodeTeredo(payload.parts.value.address);
        if client.Some? {
          ClientOctets(payload.parts.value.address);
          expanded := Append(Derived(payload, "10", client.value, XBOX_PORT), expanded);
          expanded := Append(Derived(payload, "11", client.value, client.value.port), expanded);
        }
        expanded := Append(payload, expanded);
      }
    }
    assert candidates[..|candidates|] == candidates;
  }

  lemma ClientOctets(a: Address)
    requires DecodeTeredo(a).Some?
    ensures |DecodeTeredo(a).value.octets| == 4
  {}

  // ----- Ranking -----

  /** The octets of an IPv4 address, none of which is larger than 255. */
  predicate IsIpv4(a: Address) {
    a.octets.Some? && |a.octets.value| == 4 && forall i :: 0 <= i < 4 ==> a.octets.value[i] <= 255
  }

  predicate IsPrivateIpv4(a: Address) {
    IsIpv4(a) &&
    var o := a.octets.value;
    o[0] == 10 || (o[0] == 172 && 16 <= o[1] <= 31) || (o[0] == 192 && o[1] == 168)
  }

  predicate IsPublicIpv4(a: Address) {
    IsIpv4(a) && !IsPrivateIpv4(a) && a.octets.value[0] != 0 && a.octets.value[0] != 127 && a.octets.value[0] < 224
  }

  /** The same text, or two spellings of the same address. */
  predicate AddressesEqual(a: Address, b: Address) {
    a.text == b.text || (IsV6(a) == IsV6(b) && a.bytes.Some? && a.bytes == b.bytes)
  }

  /** At home private addresses come first, in the cloud public ones. */
  function Rank(parts: Parts, preferPublic: bool): nat {
    if preferPublic then
      if IsPublicIpv4(parts.address) then 0 else if IsV6(parts.address) then 1
      else if IsPrivateIpv4(parts.address) then 2 else 3
    else
      if IsPrivateIpv4(parts.address) then 0 else if IsPublicIpv4(parts.address) then 1
      else if IsV6(parts.address) then 2 else 3
  }

  datatype Preference = Preference(address: Address, port: int)

  predicate IsPreferred(parts: Parts, preferPublic: bool, preference: Preference) {
    !preferPublic && preference.port > 0 && AddressesEqual(parts.address, preference.address)
    && parts.port == preference.port
  }

  datatype Ranked = Ranked(payload: Payload, parts: Parts, preferred: bool, rank: nat, order: nat)

  function RankAll(expanded: seq<Payload>, preferPublic: bool, preference: Preference): seq<Ranked> {
    if expanded == [] then []
    else
      var rest := RankAll(expanded[..|expanded| - 1], preferPublic, preference);
      var p := expanded[|expanded| - 1];
      if p.candidate == END || p.parts.None? then rest
      else
        var parts := p.parts.value;
        rest + [Ranked(p, parts, IsPreferred(parts, preferPublic, preference), Rank(parts, preferPublic), |rest|)]
  }

  const DEFAULT_END := Payload(END, None, "0", 0, "iceCandidate")

  /** The last end marker of the list. */
  function EndOf(expanded: seq<Payload>): Payload {
    if expanded == [] then DEFAULT_END
    else if expanded[|expanded| - 1].candidate == END then expanded[|expanded| - 1]
    else EndOf(expanded[..|expanded| - 1])
  }

  predicate Before(x: Ranked, y: Ranked) {
    if x.preferred != y.preferred then x.preferred
    else if x.rank != y.rank then x.rank < y.rank
    else x.order < y.order
  }

  function Insert(x: Ranked, sorted: seq<Ranked>): seq<Ranked> {
    if sorted == [] || Before(x, sorted[0]) then [x] + sorted else [sorted[0]] + Insert(x, sorted[1..])
  }

  /** Sorting by preference, rank and arrival. */
  function Sort(ranked: seq<Ranked>): seq<Ranked> {
    if ranked == [] then [] else Insert(ranked[0], Sort(ranked[1..]))
  }

  // ----- Renumbering -----

  function Renumbered(x: Ranked, foundation: nat): Payload {
    x.payload.(
      candidate := CandidateText(Decimal(foundation), if foundation == 1 then TOP_PRIORITY else 1, x.parts),
      parts := Some(x.parts), sdpMid := OrDefault(x.payload.sdpMid, "0"),
      messageType := OrDefault(x.payload.messageType, "iceCandidate"))
  }

  function RenumberAll(ranked: seq<Ranked>): seq<Payload> {
    if ranked == [] then []
    else Append(Renumbered(ranked[|ranked| - 1], |ranked|), RenumberAll(ranked[..|ranked| - 1]))
  }

  function Rewritten(candidates: seq<Payload>, preferPublic: bool, preference: Preference): seq<Payload> {
    var expanded := ExpandAll(candidates);
    Append(EndOf(expanded), RenumberAll(Sort(RankAll(expanded, preferPublic, preference))))
  }

  method RewriteCandidates(candidates: seq<Payload>, preferPublic: bool, preference: Preference)
    returns (rewritten: seq<Payload>)
    ensures rewritten == Rewritten(candidates, preferPublic, preference)
  {
    hide Append, Renumbered, Sort, ExpandAll, IsPreferred, Rank;
    var expanded := ExpandTeredoCandidates(candidates);
    var ranked, endMarker, order := [], DEFAULT_END, 0;
    for i := 0 to |expanded|
      invariant ranked == RankAll(expanded[..i], preferPublic, preference) && order == |ranked|
      invariant endMarker == EndOf(expanded[..i])
    {
      assert expanded[..i + 1][..i] == expanded[..i];
      var candidate := expanded[i];
      if candidate.candidate == END {
        endMarker := candidate;
      } else if candidate.parts.Some? {
        var parts := candidate.parts.value;
        var rank := Rank(parts, preferPublic);
        var preferred := IsPreferred(parts, preferPublic, preference);
        ranked := ranked + [Ranked(candidate, parts, preferred, rank, order)];
        order := order + 1;
      }
    }
    assert expanded[..|expanded|] == expanded;
    ranked := Sort(ranked);
    rewritten := [];
    var foundation := 1;
    for i := 0 to |ranked|
      invariant foundation == i + 1 && rewritten == RenumberAll(ranked[..i])
    {
      assert ranked[..i + 1][..i] == ranked[..i];
      rewritten := Append(Renumbered(ranked[i], foundation), rewritten);
      foundation := foundation + 1;
    }
    assert ranked[..|ranked|] == ranked;
    rewritten := Append(endMarker, rewritten);
  }
}
