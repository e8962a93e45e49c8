/**
 The connect, subscribe and unsubscribe packets as a broker reads them (sections 3.1, 3.8 and 3.10 of MQTT
 3.1.1), and that it gets back what the serializers were given. The readers are written from the standard
 alone: each field is taken off the front of what is left, in the order in which the standard lists them,
 and nothing may remain behind the last one.
 */
module MqttReaders {
  import opened Bytes
  import opened MqttLength
  import opened MqttPublish

  /** The body of a packet of type `ty` whose length field counts exactly what follows it. */
  function BodyOf(ty: nat, packet: seq<Byte>): Option<seq<Byte>> {
    if packet == [] || TypeOf(packet[0]) != ty then None else AllBehindLength(packet[1..])
  }

  function AllBehindLength(s: seq<Byte>): Option<seq<Byte>> {
    var d := Decode(s);
    if d.ok && d.len + d.value == |s| then Some(s[d.len..]) else None
  }

  lemma BehindLength(body: seq<Byte>)
    requires |body| <= MAX_REMAINING
    ensures AllBehindLength(Encode(|body|) + body) == Some(body)
  {
    LengthRoundTrip(|body|, body);
  }

  lemma BodyOfFramed(ty: nat, header: Byte, body: seq<Byte>)
    requires |body| <= MAX_REMAINING && TypeOf(header) == ty
    ensures Framed(header, |body|, body) != [] && Framed(header, |body|, body)[0] == header
    ensures BodyOf(ty, Framed(header, |body|, body)) == Some(body)
  {
    BehindLength(body);
    assert Framed(header, |body|, body)[1..] == Encode(|body|) + body;
  }

  // ---------- pieces of a body ----------

  /** A string with its length in front, and what follows it. */
  function TakeString(s: seq<Byte>): Option<(seq<Byte>, seq<Byte>)> {
    if |s| < 2 then None
    else
      var n: int := FromBe16(s[0], s[1]);
      if |s| < 2 + n then None else Some((s[2..2 + n], s[2 + n..]))
  }

  /** A string that the wire can carry. */
  predicate Carriable(x: MqttString) {
    |Chars(x)| < 0x10000
  }

  lemma TakesString(x: MqttString, rest: seq<Byte>)
    requires Carriable(x)
    ensures TakeString(WireString(x) + rest) == Some((Chars(x), rest))
  {
    var s, n := WireString(x) + rest, |Chars(x)|;
    Be16RoundTrip(n);
    assert s[0] == Be16(n)[0] && s[1] == Be16(n)[1];
    assert s[2..2 + n] == Chars(x) && s[2 + n..] == rest;
  }

  /** A string that is there if `given`. */
  function TakeOptional(given: bool, s: seq<Byte>): Option<(Option<seq<Byte>>, seq<Byte>)> {
    if !given then Some((None, s))
    else
      var t := TakeString(s);
      if t.None? then None else Some((Some(t.value.0), t.value.1))
  }

  function CharsIfGiven(x: MqttString): Option<seq<Byte>> {
    if Given(x) then Some(Chars(x)) else None
  }

  lemma TakesOptional(x: MqttString, rest: seq<Byte>)
    requires Carriable(x)
    ensures TakeOptional(Given(x), OptionalString(x) + rest) == Some((CharsIfGiven(x), rest))
  {
    TakesString(x, rest);
    assert [] + rest == rest;
  }

  // ---------- connect ----------

  datatype WillView = WillView(topic: seq<Byte>, message: seq<Byte>, qos: nat, retained: bool)

  datatype ConnectView = ConnectView(protocol: seq<Byte>, level: Byte, keepAlive: U16, cleanSession: bool,
                                     clientId: seq<Byte>, will: Option<WillView>, username: Option<seq<Byte>>,
                                     password: Option<seq<Byte>>)

  datatype Flags = Flags(cleanSession: bool, will: bool, willQos: nat, willRetain: bool, password: bool, username: bool)

  /** The connect flags, bit by bit (section 3.1.2.3). */
  function FlagsOf(b: Byte): Flags {
    Flags(b / 2 % 2 == 1, b / 4 % 2 == 1, b / 8 % 4, b / 32 % 2 == 1, b / 64 % 2 == 1, b / 128 == 1)
  }

  function TakeWill(f: Flags, s: seq<Byte>): Option<(Option<WillView>, seq<Byte>)> {
    if !f.will then Some((None, s))
    else
      var t := TakeString(s);
      if t.None? then None
      else
        var m := TakeString(t.value.1);
        if m.None? then None
        else Some((Some(WillView(t.value.0, m.value.0, f.willQos, f.willRetain)), m.value.1))
  }

  /** The payload in its order: client id, will topic and message, user name, password, and nothing more. */
  function ReadPayload(protocol: seq<Byte>, level: Byte, f: Flags, keepAlive: U16, s: seq<Byte>): Option<ConnectView> {
    var id := TakeString(s);
    if id.None? then None
    else
      var will := TakeWill(f, id.value.1);
      if will.None? then None
      else
        var user := TakeOptional(f.username, will.value.1);
        if user.None? then None
        else
          var pass := TakeOptional(f.password, user.value.1);
          if pass.None? || pass.value.1 != [] then None
          else
            Some(ConnectView(protocol, level, keepAlive, f.cleanSession, id.value.0, will.value.0, user.value.0,
                             pass.value.0))
  }

  /** The variable header: protocol name, level, flags, keep-alive; then the payload. */
  function ReadConnect(body: seq<Byte>): Option<ConnectView> {
    var name := TakeString(body);
    if name.None? || |name.value.1| < 4 then None
    else
      var h := name.value.1;
      ReadPayload(name.value.0, h[0], FlagsOf(h[1]), FromBe16(h[2], h[3]), h[4..])
  }

  /** The protocol names of section 3.1.2.1: MQIsdp in version 3.1, MQTT in version 3.1.1. */
  function ProtocolName(version: nat): seq<Byte> {
    if version == 4 then [77, 81, 84, 84] else [77, 81, 73, 115, 100, 112]
  }

  function Level(version: nat): Byte {
    if version == 4 then 4 else 3
  }

  /** What a broker must find in it. */
  function ViewOf(c: Connect): ConnectView {
    var will := if c.will.None? then None
                else Some(WillView(Chars(c.will.value.topic), Chars(c.will.value.message), c.will.value.qos % 4,
                                   c.will.value.retained % 2 == 1));
    ConnectView(ProtocolName(c.version), Level(c.version), c.keepAlive, c.cleanSession % 2 == 1, Chars(c.clientId),
                will, CharsIfGiven(c.username), CharsIfGiven(c.password))
  }

  predicate AllCarriable(c: Connect) {
    && Carriable(c.clientId) && Carriable(c.username) && Carriable(c.password)
    && (c.will.Some? ==> Carriable(c.will.value.topic) && Carriable(c.will.value.message))
  }

  lemma FlagBits(a: nat, w: nat, q: nat, r: nat, p: nat, u: nat)
    requires a < 2 && w < 2 && q < 4 && r < 2 && p < 2 && u < 2
    ensures var b := 2 * a + 4 * w + 8 * q + 32 * r + 64 * p + 128 * u;
            && b < 256 && b / 2 % 2 == a && b / 4 % 2 == w && b / 8 % 4 == q && b / 32 % 2 == r
            && b / 64 % 2 == p && b / 128 == u
  {
    var b := 2 * a + 4 * w + 8 * q + 32 * r + 64 * p + 128 * u;
    assert b / 2 == a + 2 * (w + 2 * q + 8 * r + 16 * p + 32 * u);
    assert b / 4 == w + 2 * (q + 4 * r + 8 * p + 16 * u);
    assert b / 8 == q + 4 * (r + 2 * p + 4 * u);
    assert b / 32 == r + 2 * (p + 2 * u);
    assert b / 64 == p + 2 * u;
  }

  function WillQos(c: Connect): nat {
    if c.will.Some? then c.will.value.qos % 4 else 0
  }

  function WillRetain(c: Connect): nat {
    if c.will.Some? then c.will.value.retained % 2 else 0
  }

  lemma FlagsComeBack(c: Connect)
    ensures FlagsOf(ConnectFlags(c))
            == Flags(c.cleanSession % 2 == 1, c.will.Some?, WillQos(c), WillRetain(c) == 1, Given(c.password),
                     Given(c.username))
  {
    var a, w, p, u := c.cleanSession % 2, if c.will.Some? then 1 else 0, if Given(c.password) then 1 else 0,
      if Given(c.username) then 1 else 0;
    FlagBits(a, w, WillQos(c), WillRetain(c), p, u);
    assert ConnectFlags(c) == 2 * a + 4 * w + 8 * WillQos(c) + 32 * WillRetain(c) + 64 * p + 128 * u;
  }

  lemma TakesWill(c: Connect, f: Flags, rest: seq<Byte>)
    requires AllCarriable(c) && f.will == c.will.Some?
    requires f.willQos == WillQos(c) && f.willRetain == (WillRetain(c) == 1)
    ensures TakeWill(f, WillBytes(c.will) + rest) == Some((ViewOf(c).will, rest))
  {
    if c.will.Some? {
      var t, m := c.will.value.topic, c.will.value.message;
      assert WillBytes(c.will) + rest == WireString(t) + (WireString(m) + rest);
      TakesString(t, WireString(m) + rest);
      TakesString(m, rest);
    } else {
      assert [] + rest == rest;
    }
  }

  function Payload(c: Connect): seq<Byte> {
    WireString(c.clientId) + (WillBytes(c.will) + (OptionalString(c.username) + (OptionalString(c.password) + [])))
  }

  lemma PayloadComesBack(c: Connect, protocol: seq<Byte>, level: Byte)
    requires AllCarriable(c)
    ensures ReadPayload(protocol, level, FlagsOf(ConnectFlags(c)), c.keepAlive, Payload(c))
            == Some(ViewOf(c).(protocol := protocol, level := level))
  {
    var pass := OptionalString(c.password) + [];
    var user := OptionalString(c.username) + pass;
    FlagsComeBack(c);
    TakesString(c.clientId, WillBytes(c.will) + user);
    TakesWill(c, FlagsOf(ConnectFlags(c)), user);
    TakesOptional(c.username, pass);
    TakesOptional(c.password, []);
  }

  /** The name and the level in front of the rest, for a name of any length. */
  lemma NameComesBack(name: seq<Byte>, level: Byte, rest: seq<Byte>)
    requires |name| < 0x10000
    ensures TakeString(Be16(|name|) + name + [level] + rest) == Some((name, [level] + rest))
  {
    var x := MqttString(Some(name), None);
    TakesString(x, [level] + rest);
    PlusAssoc(Be16(|name|) + name, [level], rest);
  }

  lemma ProtocolComesBack(version: nat, rest: seq<Byte>)
    ensures TakeString(Protocol(version) + rest) == Some((ProtocolName(version), [Level(version)] + rest))
  {
    NameComesBack(ProtocolName(version), Level(version), rest);
  }

  /** What follows the name: level, flags and keep-alive, then the payload. */
  lemma HeadComesBack(s: seq<Byte>, name: seq<Byte>, level: Byte, flags: Byte, keepAlive: U16, payload: seq<Byte>)
    requires TakeString(s) == Some((name, [level] + ([flags] + (Be16(keepAlive) + payload))))
    ensures ReadConnect(s) == ReadPayload(name, level, FlagsOf(flags), keepAlive, payload)
  {
    var h := [level] + ([flags] + (Be16(keepAlive) + payload));
    Be16RoundTrip(keepAlive);
    assert h[0] == level && h[1] == flags && h[2] == Be16(keepAlive)[0] && h[3] == Be16(keepAlive)[1];
    assert h[4..] == payload;
  }

  lemma BodyComesBack(c: Connect)
    requires AllCarriable(c)
    ensures ReadConnect(ConnectBody(c)) == Some(ViewOf(c))
  {
    var rest := [ConnectFlags(c)] + (Be16(c.keepAlive) + Payload(c));
    BodyParts(c);
    ProtocolComesBack(c.version, rest);
    HeadComesBack(ConnectBody(c), ProtocolName(c.version), Level(c.version), ConnectFlags(c), c.keepAlive, Payload(c));
    PayloadComesBack(c, ProtocolName(c.version), Level(c.version));
  }

  function ReadConnectPacket(packet: seq<Byte>): Option<ConnectView> {
    var body := BodyOf(CONNECT, packet);
    if body.None? then None else ReadConnect(body.value)
  }

  /** A broker reads back from a connect packet everything that was put into it, each in its own place. */
  lemma ConnectRoundTrip(c: Connect)
    requires (c.version == 3 || c.version == 4) && ConnectStrings(c) && AllCarriable(c)
    requires ConnectLength(c) <= MAX_REMAINING
    ensures ReadConnectPacket(ConnectBytes(c)) == Some(ViewOf(c))
  {
    ConnectLengthExact(c);
    BodyComesBack(c);
    ConnectReads(ConnectBody(c), ConnectBytes(c));
  }

  lemma ConnectReads(body: seq<Byte>, packet: seq<Byte>)
    requires |body| <= MAX_REMAINING && packet == Framed(Header(CONNECT, 0, 0, 0), |body|, body)
    ensures ReadConnectPacket(packet) == ReadConnect(body)
  {
    BodyOfFramed(CONNECT, Header(CONNECT, 0, 0, 0), body);
  }

  lemma BodyParts(c: Connect)
    ensures ConnectBody(c)
            == Protocol(c.version) + ([ConnectFlags(c)] + (Be16(c.keepAlive) + Payload(c)))
  {
    var a, b, k, i := Protocol(c.version), [ConnectFlags(c)], Be16(c.keepAlive), WireString(c.clientId);
    var w, u, p := WillBytes(c.will), OptionalString(c.username), OptionalString(c.password);
    assert p + [] == p;
    SevenParts(a, b, k, i, w, u, p);
  }

  lemma SevenParts(a: seq<Byte>, b: seq<Byte>, k: seq<Byte>, i: seq<Byte>, w: seq<Byte>, u: seq<Byte>, p: seq<Byte>)
    ensures (a + b + k + i) + w + u + p == a + (b + (k + (i + (w + (u + p)))))
  {
    PlusAssoc(a + b + k + i + w, u, p);
    PlusAssoc(a + b + k + i, w, u + p);
    PlusAssoc(a + b + k, i, w + (u + p));
    PlusAssoc(a + b, k, i + (w + (u + p)));
    PlusAssoc(a, b, k + (i + (w + (u + p))));
  }

  // ---------- subscribe and unsubscribe ----------

  /** Filters, each followed by its QoS byte. */
  function ReadRequests(s: seq<Byte>): Option<seq<(seq<Byte>, Byte)>>
    decreases |s|
  {
    if s == [] then Some([])
    else
      var t := TakeString(s);
      if t.None? || t.value.1 == [] then None
      else
        var more := ReadRequests(t.value.1[1..]);
        if more.None? then None else Some([(t.value.0, t.value.1[0])] + more.value)
  }

  function ReadFilters(s: seq<Byte>): Option<seq<seq<Byte>>>
    decreases |s|
  {
    if s == [] then Some([])
    else
      var t := TakeString(s);
      if t.None? then None
      else
        var more := ReadFilters(t.value.1);
        if more.None? then None else Some([t.value.0] + more.value)
  }

  function Asked(rs: seq<Request>): seq<(seq<Byte>, Byte)> {
    seq(|rs|, i requires 0 <= i < |rs| => (Chars(rs[i].filter), rs[i].qos))
  }

  function Named(fs: seq<MqttString>): seq<seq<Byte>> {
    seq(|fs|, i requires 0 <= i < |fs| => Chars(fs[i]))
  }

  lemma {:induction false} RequestsFront(rs: seq<Request>)
    requires rs != []
    ensures Requests(rs) == (WireString(rs[0].filter) + [rs[0].qos]) + Requests(rs[1..])
    decreases |rs|
  {
    if |rs| == 1 {
      assert rs[..0] == [] && rs[1..] == [];
    } else {
      var init, last := rs[..|rs| - 1], rs[|rs| - 1];
      RequestsFront(init);
      assert rs[1..][..|rs| - 2] == init[1..];
      FrontAndLast(WireString(rs[0].filter) + [rs[0].qos], Requests(init[1..]), WireString(last.filter) + [last.qos],
                   Requests(init), Requests(rs), Requests(rs[1..]));
    }
  }

  /** From the front of all but the last, the front of all. */
  lemma FrontAndLast(front: seq<Byte>, middle: seq<Byte>, last: seq<Byte>,
                     init: seq<Byte>, whole: seq<Byte>, rest: seq<Byte>)
    requires init == front + middle && whole == init + last && rest == middle + last
    ensures whole == front + rest
  {
    PlusAssoc(front, middle, last);
  }

  lemma {:induction false} FiltersFront(fs: seq<MqttString>)
    requires fs != []
    ensures Filters(fs) == WireString(fs[0]) + Filters(fs[1..])
    decreases |fs|
  {
    if |fs| == 1 {
      assert fs[..0] == [] && fs[1..] == [];
    } else {
      var init := fs[..|fs| - 1];
      FiltersFront(init);
      assert fs[1..][..|fs| - 2] == init[1..];
      FrontAndLast(WireString(fs[0]), Filters(init[1..]), WireString(fs[|fs| - 1]), Filters(init), Filters(fs),
                   Filters(fs[1..]));
    }
  }

  lemma RequestRead(s: seq<Byte>, name: seq<Byte>, qos: Byte, rest: seq<Byte>)
    requires TakeString(s) == Some((name, [qos] + rest)) && ReadRequests(rest).Some?
    ensures ReadRequests(s) == Some([(name, qos)] + ReadRequests(rest).value)
  {
    assert ([qos] + rest)[1..] == rest;
  }

  lemma {:induction false} RequestsComeBack(rs: seq<Request>)
    requires forall i :: 0 <= i < |rs| ==> Carriable(rs[i].filter)
    ensures ReadRequests(Requests(rs)) == Some(Asked(rs))
    decreases |rs|
  {
    if rs != [] {
      var x, q, more := rs[0].filter, rs[0].qos, Requests(rs[1..]);
      RequestsFront(rs);
      PlusAssoc(WireString(x), [q], more);
      TakesString(x, [q] + more);
      RequestsComeBack(rs[1..]);
      RequestRead(Requests(rs), Chars(x), q, more);
      AskedFront(rs);
    } else {
      assert Asked(rs) == [];
    }
  }

  lemma AskedFront(rs: seq<Request>)
    requires rs != []
    ensures Asked(rs) == [(Chars(rs[0].filter), rs[0].qos)] + Asked(rs[1..])
  {
  }

  lemma NamedFront(fs: seq<MqttString>)
    requires fs != []
    ensures Named(fs) == [Chars(fs[0])] + Named(fs[1..])
  {
  }

  lemma FilterRead(s: seq<Byte>, name: seq<Byte>, rest: seq<Byte>)
    requires TakeString(s) == Some((name, rest)) && ReadFilters(rest).Some?
    ensures ReadFilters(s) == Some([name] + ReadFilters(rest).value)
  {
  }

  lemma {:induction false} FiltersComeBack(fs: seq<MqttString>)
    requires forall i :: 0 <= i < |fs| ==> Carriable(fs[i])
    ensures ReadFilters(Filters(fs)) == Some(Named(fs))
    decreases |fs|
  {
    if fs != [] {
      FiltersFront(fs);
      TakesString(fs[0], Filters(fs[1..]));
      FiltersComeBack(fs[1..]);
      FilterRead(Filters(fs), Chars(fs[0]), Filters(fs[1..]));
      NamedFront(fs);
    } else {
      assert Named(fs) == [];
    }
  }

  /** A packet id in front of the rest of a body. */
  lemma IdInFront(id: U16, rest: seq<Byte>)
    ensures |Be16(id) + rest| >= 2
    ensures FromBe16((Be16(id) + rest)[0], (Be16(id) + rest)[1]) == id && (Be16(id) + rest)[2..] == rest
  {
    Be16RoundTrip(id);
  }

  datatype SubscribeView = SubscribeView(dup: nat, id: U16, filters: seq<(seq<Byte>, Byte)>)
  datatype UnsubscribeView = UnsubscribeView(dup: nat, id: U16, filters: seq<seq<Byte>>)

  /** The whole packet: header with QoS 1, packet id, filters each with its QoS. */
  function ReadSubscribe(packet: seq<Byte>): Option<SubscribeView> {
    var body := BodyOf(SUBSCRIBE, packet);
    if body.None? || QosOf(packet[0]) != 1 || |body.value| < 2 then None
    else
      var rs := ReadRequests(body.value[2..]);
      if rs.None? then None
      else Some(SubscribeView(DupOf(packet[0]), FromBe16(body.value[0], body.value[1]), rs.value))
  }

  function ReadUnsubscribe(packet: seq<Byte>): Option<UnsubscribeView> {
    var body := BodyOf(UNSUBSCRIBE, packet);
    if body.None? || QosOf(packet[0]) != 1 || |body.value| < 2 then None
    else
      var fs := ReadFilters(body.value[2..]);
      if fs.None? then None
      else Some(UnsubscribeView(DupOf(packet[0]), FromBe16(body.value[0], body.value[1]), fs.value))
  }

  lemma SubscribeFramed(header: Byte, id: U16, list: seq<Byte>)
    requires 2 + |list| <= MAX_REMAINING && TypeOf(header) == SUBSCRIBE && QosOf(header) == 1
    requires ReadRequests(list).Some?
    ensures ReadSubscribe(Framed(header, 2 + |list|, Be16(id) + list))
            == Some(SubscribeView(DupOf(header), id, ReadRequests(list).value))
  {
    BodyOfFramed(SUBSCRIBE, header, Be16(id) + list);
    IdInFront(id, list);
  }

  lemma UnsubscribeFramed(header: Byte, id: U16, list: seq<Byte>)
    requires 2 + |list| <= MAX_REMAINING && TypeOf(header) == UNSUBSCRIBE && QosOf(header) == 1
    requires ReadFilters(list).Some?
    ensures ReadUnsubscribe(Framed(header, 2 + |list|, Be16(id) + list))
            == Some(UnsubscribeView(DupOf(header), id, ReadFilters(list).value))
  {
    BodyOfFramed(UNSUBSCRIBE, header, Be16(id) + list);
    IdInFront(id, list);
  }

  lemma SubscribeReads(header: Byte, id: U16, list: seq<Byte>, packet: seq<Byte>)
    requires 2 + |list| <= MAX_REMAINING && TypeOf(header) == SUBSCRIBE && QosOf(header) == 1
    requires ReadRequests(list).Some? && packet == Framed(header, 2 + |list|, Be16(id) + list)
    ensures ReadSubscribe(packet) == Some(SubscribeView(DupOf(header), id, ReadRequests(list).value))
  {
    SubscribeFramed(header, id, list);
  }

  lemma UnsubscribeReads(header: Byte, id: U16, list: seq<Byte>, packet: seq<Byte>)
    requires 2 + |list| <= MAX_REMAINING && TypeOf(header) == UNSUBSCRIBE && QosOf(header) == 1
    requires ReadFilters(list).Some? && packet == Framed(header, 2 + |list|, Be16(id) + list)
    ensures ReadUnsubscribe(packet) == Some(UnsubscribeView(DupOf(header), id, ReadFilters(list).value))
  {
    UnsubscribeFramed(header, id, list);
  }

  /** A broker reads back the packet id and every filter with its QoS, in order. */
  lemma SubscribeRoundTrip(dup: nat, id: U16, rs: seq<Request>)
    requires dup < 2 && SubscribeLength(rs) <= MAX_REMAINING
    requires forall i :: 0 <= i < |rs| ==> OneString(rs[i].filter) && Carriable(rs[i].filter)
    ensures ReadSubscribe(SubscribeBytes(dup, id, rs)) == Some(SubscribeView(dup, id, Asked(rs)))
  {
    RequestsSize(rs);
    RequestsComeBack(rs);
    SubscribeAs(dup, id, rs, Requests(rs), SubscribeBytes(dup, id, rs), Asked(rs));
  }

  lemma SubscribeIs(dup: nat, id: U16, rs: seq<Request>)
    requires 2 + |Requests(rs)| == SubscribeLength(rs)
    ensures SubscribeBytes(dup, id, rs)
            == Framed(Header(SUBSCRIBE, dup, 1, 0), 2 + |Requests(rs)|, Be16(id) + Requests(rs))
  {
  }

  lemma SubscribeAs(dup: nat, id: U16, rs: seq<Request>, list: seq<Byte>, packet: seq<Byte>,
                    asked: seq<(seq<Byte>, Byte)>)
    requires dup < 2 && 2 + |Requests(rs)| == SubscribeLength(rs) <= MAX_REMAINING
    requires list == Requests(rs) && packet == SubscribeBytes(dup, id, rs) && ReadRequests(list) == Some(asked)
    ensures ReadSubscribe(packet) == Some(SubscribeView(dup, id, asked))
  {
    SubscribeIs(dup, id, rs);
    HeaderFields(SUBSCRIBE, dup, 1, 0);
    SubscribeReads(Header(SUBSCRIBE, dup, 1, 0), id, list, packet);
  }

  /** A broker reads back the packet id and every filter, in order. */
  lemma UnsubscribeRoundTrip(dup: nat, id: U16, fs: seq<MqttString>)
    requires dup < 2 && UnsubscribeLength(fs) <= MAX_REMAINING
    requires forall i :: 0 <= i < |fs| ==> OneString(fs[i]) && Carriable(fs[i])
    ensures ReadUnsubscribe(UnsubscribeBytes(dup, id, fs)) == Some(UnsubscribeView(dup, id, Named(fs)))
  {
    FiltersSize(fs);
    FiltersComeBack(fs);
    UnsubscribeAs(dup, id, fs, Filters(fs), UnsubscribeBytes(dup, id, fs), Named(fs));
  }

  lemma UnsubscribeIs(dup: nat, id: U16, fs: seq<MqttString>)
    requires 2 + |Filters(fs)| == UnsubscribeLength(fs)
    ensures UnsubscribeBytes(dup, id, fs)
            == Framed(Header(UNSUBSCRIBE, dup, 1, 0), 2 + |Filters(fs)|, Be16(id) + Filters(fs))
  {
  }

  lemma UnsubscribeAs(dup: nat, id: U16, fs: seq<MqttString>, list: seq<Byte>, packet: seq<Byte>,
                      named: seq<seq<Byte>>)
    requires dup < 2 && 2 + |Filters(fs)| == UnsubscribeLength(fs) <= MAX_REMAINING
    requires list == Filters(fs) && packet == UnsubscribeBytes(dup, id, fs) && ReadFilters(list) == Some(named)
    ensures ReadUnsubscribe(packet) == Some(UnsubscribeView(dup, id, named))
  {
    UnsubscribeIs(dup, id, fs);
    HeaderFields(UNSUBSCRIBE, dup, 1, 0);
    UnsubscribeReads(Header(UNSUBSCRIBE, dup, 1, 0), id, list, packet);
  }
}
