/**
 The byte layout of MQTT packets the client sends and reads: what each serializer must write, how the
 publish, ack and connack readers take a packet apart, and the round trips between them.
 */
module MqttPublish {
  import opened Bytes
  import opened MqttLength

  const CONNECT: nat := 1
  const CONNACK: nat := 2
  const PUBLISH: nat := 3
  const PUBREL: nat := 6
  const SUBSCRIBE: nat := 8
  const UNSUBSCRIBE: nat := 10

  /** MQTTHeader: type in the high nibble, then dup, QoS and retain, each cut to its field width. */
  function Header(ty: nat, dup: nat, qos: nat, retain: nat): Byte {
    ty % 16 * 16 + dup % 2 * 8 + qos % 4 * 2 + retain % 2
  }

  function TypeOf(h: Byte): nat { h / 16 }
  function DupOf(h: Byte): nat { h / 8 % 2 }
  function QosOf(h: Byte): nat { h / 2 % 4 }
  function RetainOf(h: Byte): nat { h % 2 }

  lemma HeaderFields(ty: nat, dup: nat, qos: nat, retain: nat)
    requires ty < 16 && dup < 2 && qos < 4 && retain < 2
    ensures var h := Header(ty, dup, qos, retain);
            TypeOf(h) == ty && DupOf(h) == dup && QosOf(h) == qos && RetainOf(h) == retain
  {
    HeaderValue(ty, dup, qos, retain);
    Shift16(ty, 8 * dup + 2 * qos + retain);
    Shift8(2 * ty + dup, 2 * qos + retain);
    Shift2(4 * (2 * ty + dup) + qos, retain);
    Mod2(ty, dup);
    Mod4(2 * ty + dup, qos);
  }

  lemma HeaderValue(ty: nat, dup: nat, qos: nat, retain: nat)
    requires ty < 16 && dup < 2 && qos < 4 && retain < 2
    ensures Header(ty, dup, qos, retain) == 16 * ty + 8 * dup + 2 * qos + retain
  {
  }

  lemma Mod2(q: nat, r: nat)
    requires r < 2
    ensures (2 * q + r) % 2 == r
  {
  }

  lemma Mod4(q: nat, r: nat)
    requires r < 4
    ensures (4 * q + r) % 4 == r
  {
  }

  lemma Shift16(q: nat, r: nat)
    requires r < 16
    ensures (16 * q + r) / 16 == q
  {
  }

  lemma Shift8(q: nat, r: nat)
    requires r < 8
    ensures (8 * q + r) / 8 == q
  {
  }

  lemma Shift2(q: nat, r: nat)
    requires r < 2
    ensures (2 * q + r) / 2 == q && (2 * q + r) % 2 == r
  {
  }

  /** writeInt: two bytes, high byte first, each cut to eight bits. */
  function Be16(n: nat): seq<Byte> {
    [n / 256 % 256, n % 256]
  }

  function FromBe16(hi: Byte, lo: Byte): U16 {
    256 * hi + lo
  }

  lemma Be16RoundTrip(n: U16)
    ensures FromBe16(Be16(n)[0], Be16(n)[1]) == n
  {
  }

  // ---------- strings ----------

  /** An MQTTString may hold a C string, a counted string, both or neither. */
  datatype MqttString = MqttString(cstring: Option<seq<Byte>>, data: Option<seq<Byte>>)

  function DataLen(s: MqttString): nat {
    if s.data.Some? then |s.data.value| else 0
  }

  /** MQTTstrlen prefers the C string. */
  function StrLen(s: MqttString): nat {
    if s.cstring.Some? then |s.cstring.value| else DataLen(s)
  }

  /** The characters writeMQTTString writes: it prefers a non-empty counted string. */
  function Chars(s: MqttString): seq<Byte> {
    if DataLen(s) > 0 then s.data.value else if s.cstring.Some? then s.cstring.value else []
  }

  function WireString(s: MqttString): seq<Byte> {
    Be16(|Chars(s)|) + Chars(s)
  }

  /** Not both a C string and a counted string of another length. */
  predicate OneString(s: MqttString) {
    s.cstring.None? || DataLen(s) == 0 || DataLen(s) == |s.cstring.value|
  }

  /** The length computed in advance is the length written exactly for such strings. */
  lemma StringLengthAgrees(s: MqttString)
    ensures |WireString(s)| == 2 + StrLen(s) <==> OneString(s)
  {
  }

  // ---------- packets ----------

  datatype Publish = Publish(dup: nat, qos: nat, retained: nat, id: U16, topic: MqttString, payload: seq<Byte>)

  function PublishLength(p: Publish): nat {
    2 + StrLen(p.topic) + |p.payload| + if p.qos > 0 then 2 else 0
  }

  function PublishBody(p: Publish): seq<Byte> {
    WireString(p.topic) + PublishId(p) + p.payload
  }

  function PublishId(p: Publish): seq<Byte> {
    if p.qos > 0 then Be16(p.id) else []
  }

  function PublishBytes(p: Publish): seq<Byte> {
    Framed(Header(PUBLISH, p.dup, p.qos, p.retained), PublishLength(p), PublishBody(p))
  }

  /** A packet: header, announced length, body. */
  function Framed(header: Byte, remaining: nat, body: seq<Byte>): seq<Byte> {
    [header] + Encode(remaining) + body
  }

  function AckBytes(ty: nat, dup: nat, id: U16): seq<Byte> {
    Framed(Header(ty, dup, if ty == PUBREL then 1 else 0, 0), 2, Be16(id))
  }

  function ZeroBytes(ty: nat): seq<Byte> {
    Framed(Header(ty, 0, 0, 0), 0, [])
  }

  // ---------- subscribe and unsubscribe ----------

  datatype Request = Request(filter: MqttString, qos: Byte)

  function SubscribeLength(rs: seq<Request>): nat {
    if rs == [] then 2 else SubscribeLength(rs[..|rs| - 1]) + 2 + StrLen(rs[|rs| - 1].filter) + 1
  }

  function Requests(rs: seq<Request>): seq<Byte> {
    if rs == [] then [] else Requests(rs[..|rs| - 1]) + (WireString(rs[|rs| - 1].filter) + [rs[|rs| - 1].qos])
  }

  function SubscribeBytes(dup: nat, id: U16, rs: seq<Request>): seq<Byte> {
    Framed(Header(SUBSCRIBE, dup, 1, 0), SubscribeLength(rs), Be16(id) + Requests(rs))
  }

  function UnsubscribeLength(fs: seq<MqttString>): nat {
    if fs == [] then 2 else UnsubscribeLength(fs[..|fs| - 1]) + 2 + StrLen(fs[|fs| - 1])
  }

  function Filters(fs: seq<MqttString>): seq<Byte> {
    if fs == [] then [] else Filters(fs[..|fs| - 1]) + WireString(fs[|fs| - 1])
  }

  function UnsubscribeBytes(dup: nat, id: U16, fs: seq<MqttString>): seq<Byte> {
    Framed(Header(UNSUBSCRIBE, dup, 1, 0), UnsubscribeLength(fs), Be16(id) + Filters(fs))
  }

  lemma {:induction false} RequestsSize(rs: seq<Request>)
    requires forall i :: 0 <= i < |rs| ==> OneString(rs[i].filter)
    ensures 2 + |Requests(rs)| == SubscribeLength(rs)
  {
    if rs != [] {
      RequestsSize(rs[..|rs| - 1]);
      StringLengthAgrees(rs[|rs| - 1].filter);
    }
  }

  lemma {:induction false} FiltersSize(fs: seq<MqttString>)
    requires forall i :: 0 <= i < |fs| ==> OneString(fs[i])
    ensures 2 + |Filters(fs)| == UnsubscribeLength(fs)
  {
    if fs != [] {
      FiltersSize(fs[..|fs| - 1]);
      StringLengthAgrees(fs[|fs| - 1]);
    }
  }

  // ---------- connect ----------

  datatype Will = Will(topic: MqttString, message: MqttString, qos: nat, retained: nat)
  datatype Connect = Connect(version: nat, clientId: MqttString, keepAlive: U16, cleanSession: nat,
                             will: Option<Will>, username: MqttString, password: MqttString)

  predicate Given(s: MqttString) {
    s.cstring.Some? || s.data.Some?
  }

  function ConnectLength(c: Connect): nat {
    (if c.version == 3 then 12 else if c.version == 4 then 10 else 0)
    + StrLen(c.clientId) + 2
    + (if c.will.Some? then StrLen(c.will.value.topic) + 2 + StrLen(c.will.value.message) + 2 else 0)
    + (if Given(c.username) then StrLen(c.username) + 2 else 0)
    + (if Given(c.password) then StrLen(c.password) + 2 else 0)
  }

  function Protocol(version: nat): seq<Byte> {
    if version == 4 then Be16(4) + [77, 81, 84, 84] + [4] else Be16(6) + [77, 81, 73, 115, 100, 112] + [3]
  }

  function ConnectFlags(c: Connect): Byte {
    c.cleanSession % 2 * 2
    + (if c.will.Some? then 4 + c.will.value.qos % 4 * 8 + c.will.value.retained % 2 * 32 else 0)
    + (if Given(c.password) then 64 else 0)
    + (if Given(c.username) then 128 else 0)
  }

  function OptionalString(s: MqttString): seq<Byte> {
    if Given(s) then WireString(s) else []
  }

  function WillBytes(w: Option<Will>): seq<Byte> {
    if w.Some? then WireString(w.value.topic) + WireString(w.value.message) else []
  }

  function ConnectFront(c: Connect): seq<Byte> {
    Protocol(c.version) + [ConnectFlags(c)] + Be16(c.keepAlive) + WireString(c.clientId)
  }

  function ConnectBody(c: Connect): seq<Byte> {
    ConnectFront(c) + WillBytes(c.will) + OptionalString(c.username) + OptionalString(c.password)
  }

  function ConnectBytes(c: Connect): seq<Byte> {
    Framed(Header(CONNECT, 0, 0, 0), ConnectLength(c), ConnectBody(c))
  }

  predicate ConnectStrings(c: Connect) {
    && OneString(c.clientId) && OneString(c.username) && OneString(c.password)
    && (c.will.Some? ==> OneString(c.will.value.topic) && OneString(c.will.value.message))
  }

  /** The announced length is the true one exactly for protocol versions 3 and 4. */
  lemma ConnectLengthExact(c: Connect)
    requires ConnectStrings(c)
    ensures |ConnectBody(c)| == ConnectLength(c) <==> c.version == 3 || c.version == 4
  {
    StringLengthAgrees(c.clientId);
    StringLengthAgrees(c.username);
    StringLengthAgrees(c.password);
    if c.will.Some? {
      StringLengthAgrees(c.will.value.topic);
      StringLengthAgrees(c.will.value.message);
    }
  }

  // ---------- reading ----------

  /** Memory from the start of the read buffer on: it reaches two bytes past the packet announced there. */
  predicate Readable(mem: seq<Byte>) {
    |mem| > MAX_LENGTH_BYTES && Decode(mem[1..]).len + Decode(mem[1..]).value + 3 <= |mem|
  }

  datatype Message = Message(dup: nat, qos: nat, retained: nat, id: Option<U16>, topic: seq<Byte>, payloadLen: int,
                             payload: seq<Byte>)

  datatype ReadPublish = ReadPublish(rc: nat, message: Option<Message>)

  /** The part of a publish behind the length: topic, packet id, payload between `cur` and `end`. */
  function TakeApart(mem: seq<Byte>, h: Byte, cur: nat, end: nat): Option<Message>
    requires cur <= end && end + 2 <= |mem|
  {
    if end - cur <= 1 then None
    else
      var n := FromBe16(mem[cur], mem[cur + 1]);
      var after := cur + 2 + n;
      if after > end then None
      else
        Some(MessageAt(mem, h, cur + 2, after, end))
  }

  /** The topic from `from` to `after`, then the packet id if there is one, then the payload up to `end`. */
  function MessageAt(mem: seq<Byte>, h: Byte, from: nat, after: nat, end: nat): Message
    requires from <= after <= end && end + 2 <= |mem|
  {
    var id := if QosOf(h) > 0 then Some(FromBe16(mem[after], mem[after + 1])) else None;
    var start := if QosOf(h) > 0 then after + 2 else after;
    var payload := if start <= end then mem[start..end] else [];
    Message(DupOf(h), QosOf(h), RetainOf(h), id, mem[from..after], end - start, payload)
  }

  /**
   MQTTDeserialize_publish. On failure after the length it returns what the length decoder returned,
   and the packet id is read without checking that the packet has room for it.
   */
  function ParsePublish(mem: seq<Byte>): ReadPublish
    requires Readable(mem)
  {
    if TypeOf(mem[0]) != PUBLISH then ReadPublish(0, None)
    else
      var d := Decode(mem[1..]);
      var m := TakeApart(mem, mem[0], 1 + d.len, 1 + d.len + d.value);
      PublishResult(m, d.len)
  }

  function PublishResult(m: Option<Message>, len: nat): ReadPublish {
    ReadPublish(if m.Some? then 1 else len, m)
  }

  predicate PublishOk(p: Publish) {
    && p.dup < 2 && p.qos < 3 && p.retained < 2
    && OneString(p.topic) && |Chars(p.topic)| < 0x10000
    && PublishLength(p) <= MAX_REMAINING
  }

  lemma PublishSizes(p: Publish)
    requires OneString(p.topic)
    ensures |PublishBody(p)| == PublishLength(p)
  {
    StringLengthAgrees(p.topic);
  }

  /** What a framed packet looks like to a reader: header, decoded length, and the body where it should be. */
  lemma FramedReads(header: Byte, body: seq<Byte>, mem: seq<Byte>)
    requires |body| <= MAX_REMAINING && Framed(header, |body|, body) <= mem
    ensures mem[0] == header
    ensures var d := Decode(mem[1..]);
            && d == Decoded(|body|, |Encode(|body|)|, true)
            && 1 + d.len + |body| <= |mem| && mem[1 + d.len..1 + d.len + |body|] == body
  {
    var e, f := Encode(|body|), Framed(header, |body|, body);
    var rest := mem[|f|..];
    assert mem == f + rest;
    FrameParts(header, e, body, rest, mem);
    LengthRoundTrip(|body|, body + rest);
  }

  lemma FrameParts(header: Byte, e: seq<Byte>, body: seq<Byte>, rest: seq<Byte>, mem: seq<Byte>)
    requires mem == [header] + e + body + rest
    ensures mem[0] == header && mem[1..] == e + (body + rest)
    ensures mem[1 + |e|..1 + |e| + |body|] == body
  {
  }

  /**
   The publish reader gives back exactly what the publish writer was given: flags, QoS, packet id,
   topic and payload, wherever the packet lies in memory.
   */
  lemma PublishRoundTrip(p: Publish, mem: seq<Byte>)
    requires PublishOk(p) && PublishBytes(p) <= mem && |mem| >= |PublishBytes(p)| + 2
    ensures Readable(mem) && ParsePublish(mem) == ReadPublish(1, Some(Contained(p)))
  {
    PublishFramed(p, mem);
    MessageBack(p, mem, PublishBody(p), |Encode(|PublishBody(p)|)|);
  }

  lemma MessageBack(p: Publish, mem: seq<Byte>, body: seq<Byte>, len: nat)
    requires PublishOk(p) && body == PublishBody(p) && 1 + len + |body| + 2 <= |mem| && |mem| > MAX_LENGTH_BYTES
    requires var h := mem[0];
             TypeOf(h) == PUBLISH && DupOf(h) == p.dup && QosOf(h) == p.qos && RetainOf(h) == p.retained
    requires Decode(mem[1..]).value == |body| && Decode(mem[1..]).len == len
    requires mem[1 + len..1 + len + |body|] == body
    ensures Readable(mem) && ParsePublish(mem) == ReadPublish(1, Some(Contained(p)))
  {
    PartsComeBack(p, mem[0], mem, 1 + len);
    ParsedAs(mem, |body|, len, Contained(p));
  }

  /** The message a publish carries; a packet id only with QoS above 0. */
  function Contained(p: Publish): Message {
    var id := if p.qos > 0 then Some(p.id) else None;
    Message(p.dup, p.qos, p.retained, id, Chars(p.topic), |p.payload|, p.payload)
  }

  lemma ParsedAs(mem: seq<Byte>, n: nat, len: nat, m: Message)
    requires Readable(mem) && TypeOf(mem[0]) == PUBLISH
    requires Decode(mem[1..]).value == n && Decode(mem[1..]).len == len
    requires TakeApart(mem, mem[0], 1 + len, 1 + len + n) == Some(m)
    ensures ParsePublish(mem) == ReadPublish(1, Some(m))
  {
    Parsed(mem, n, len);
  }

  lemma PublishFramed(p: Publish, mem: seq<Byte>)
    requires PublishOk(p) && PublishBytes(p) <= mem
    ensures var n, h := |PublishBody(p)|, mem[0];
            && TypeOf(h) == PUBLISH && DupOf(h) == p.dup && QosOf(h) == p.qos && RetainOf(h) == p.retained
            && n == PublishLength(p)
            && Decode(mem[1..]) == Decoded(n, |Encode(n)|, true)
            && 1 + |Encode(n)| + n <= |mem|
            && mem[1 + |Encode(n)|..1 + |Encode(n)| + n] == PublishBody(p)
  {
    PublishSizes(p);
    HeaderFields(PUBLISH, p.dup, p.qos, p.retained);
    FramedReads(Header(PUBLISH, p.dup, p.qos, p.retained), PublishBody(p), mem);
  }

  lemma Parsed(mem: seq<Byte>, n: nat, len: nat)
    requires Readable(mem) && TypeOf(mem[0]) == PUBLISH
    requires Decode(mem[1..]).value == n && Decode(mem[1..]).len == len
    ensures ParsePublish(mem) == PublishResult(TakeApart(mem, mem[0], 1 + len, 1 + len + n), len)
  {
  }

  lemma PartsComeBack(p: Publish, h: Byte, mem: seq<Byte>, cur: nat)
    requires DupOf(h) == p.dup && QosOf(h) == p.qos && RetainOf(h) == p.retained && PublishOk(p)
    requires cur + |PublishBody(p)| + 2 <= |mem| && mem[cur..cur + |PublishBody(p)|] == PublishBody(p)
    ensures TakeApart(mem, h, cur, cur + |PublishBody(p)|) == Some(Contained(p))
  {
    BodyParts(p, mem, cur);
    TakenApart(mem, h, cur, cur + |PublishBody(p)|, Chars(p.topic), p.payload);
  }

  /** A body whose parts lie where they should is taken apart into them. */
  lemma TakenApart(mem: seq<Byte>, h: Byte, cur: nat, end: nat, topic: seq<Byte>, payload: seq<Byte>)
    requires var start := cur + 2 + |topic| + (if QosOf(h) > 0 then 2 else 0);
             && start <= end && end + 2 <= |mem|
             && FromBe16(mem[cur], mem[cur + 1]) == |topic| && mem[cur + 2..cur + 2 + |topic|] == topic
             && mem[start..end] == payload
    ensures var after := cur + 2 + |topic|;
            var id := if QosOf(h) > 0 then Some(FromBe16(mem[after], mem[after + 1])) else None;
            TakeApart(mem, h, cur, end) == Some(Message(DupOf(h), QosOf(h), RetainOf(h), id, topic, |payload|, payload))
  {
  }

  /** Where the three parts of a slice lie in the whole. */
  lemma SliceParts(mem: seq<Byte>, cur: nat, a: seq<Byte>, b: seq<Byte>, c: seq<Byte>)
    requires cur + |a| + |b| + |c| <= |mem| && mem[cur..cur + |a| + |b| + |c|] == a + b + c
    ensures mem[cur..cur + |a|] == a
    ensures mem[cur + |a|..cur + |a| + |b|] == b
    ensures mem[cur + |a| + |b|..cur + |a| + |b| + |c|] == c
  {
    var n := |a| + |b| + |c|;
    var slice := a + b + c;
    assert slice[0..|a|] == a;
    assert slice[|a|..|a| + |b|] == b;
    assert slice[|a| + |b|..n] == c;
    SliceSlice(mem, cur, cur + n, 0, |a|);
    SliceSlice(mem, cur, cur + n, |a|, |a| + |b|);
    SliceSlice(mem, cur, cur + n, |a| + |b|, n);
  }

  lemma StringAt(mem: seq<Byte>, cur: nat, s: MqttString)
    requires |Chars(s)| < 0x10000 && cur + |WireString(s)| <= |mem| && mem[cur..cur + |WireString(s)|] == WireString(s)
    ensures FromBe16(mem[cur], mem[cur + 1]) == |Chars(s)|
    ensures mem[cur + 2..cur + 2 + |Chars(s)|] == Chars(s)
  {
    var n, x := |Chars(s)|, mem[cur..cur + |WireString(s)|];
    assert x[0] == n / 256 % 256 && x[1] == n % 256;
    assert x[2..] == Chars(s);
  }

  lemma BodyParts(p: Publish, mem: seq<Byte>, cur: nat)
    requires PublishOk(p) && cur + |PublishBody(p)| <= |mem| && mem[cur..cur + |PublishBody(p)|] == PublishBody(p)
    ensures var n, end := |Chars(p.topic)|, cur + |PublishBody(p)|;
            && cur + 2 + n + |PublishId(p)| <= end
            && FromBe16(mem[cur], mem[cur + 1]) == n && mem[cur + 2..cur + 2 + n] == Chars(p.topic)
            && (p.qos > 0 ==> FromBe16(mem[cur + 2 + n], mem[cur + 3 + n]) == p.id)
            && mem[cur + 2 + n + |PublishId(p)|..end] == p.payload
  {
    var n, t, i := |Chars(p.topic)|, WireString(p.topic), PublishId(p);
    SliceParts(mem, cur, t, i, p.payload);
    StringAt(mem, cur, p.topic);
    if p.qos > 0 {
      var x := mem[cur + 2 + n..cur + 2 + n + 2];
      assert x == Be16(p.id) && mem[cur + 2 + n] == x[0] && mem[cur + 3 + n] == x[1];
    }
  }

  datatype ReadAck = ReadAck(rc: nat, ty: nat, dup: nat, id: Option<U16>)

  /** MQTTDeserialize_ack. */
  function ParseAck(mem: seq<Byte>): ReadAck
    requires Readable(mem)
  {
    var h := mem[0];
    var d := Decode(mem[1..]);
    if d.value < 2 then ReadAck(d.len, TypeOf(h), DupOf(h), None)
    else ReadAck(1, TypeOf(h), DupOf(h), Some(FromBe16(mem[1 + d.len], mem[2 + d.len])))
  }

  lemma AckRoundTrip(ty: nat, dup: nat, id: U16, mem: seq<Byte>)
    requires ty < 16 && dup < 2 && AckBytes(ty, dup, id) <= mem && |mem| >= 6
    ensures Readable(mem) && ParseAck(mem) == ReadAck(1, ty, dup, Some(id))
  {
    AckFramed(ty, dup, id, mem);
    var slice := mem[2..4];
    assert slice == Be16(id) && mem[2] == slice[0] && mem[3] == slice[1];
    Be16RoundTrip(id);
  }

  lemma AckFramed(ty: nat, dup: nat, id: U16, mem: seq<Byte>)
    requires ty < 16 && dup < 2 && AckBytes(ty, dup, id) <= mem
    ensures |mem| >= 4 && TypeOf(mem[0]) == ty && DupOf(mem[0]) == dup
    ensures Decode(mem[1..]) == Decoded(2, 1, true) && mem[2..4] == Be16(id)
  {
    HeaderFields(ty, dup, if ty == PUBREL then 1 else 0, 0);
    FramedReads(Header(ty, dup, if ty == PUBREL then 1 else 0, 0), Be16(id), mem);
  }

  /** A publish whose length takes one byte and whose topic does not fit in that length. */
  predicate TopicCutShort(mem: seq<Byte>)
    requires |mem| > 3
  {
    TypeOf(mem[0]) == PUBLISH && mem[1] < 128 && (mem[1] < 2 || 2 + FromBe16(mem[2], mem[3]) > mem[1])
  }

  /**
   The documentation promises 1 for success. The return code says whether a message came out if and only
   if the packet is not one of those: the early exits return the size of the length, which there is 1.
   */
  lemma PublishReturnCode(mem: seq<Byte>)
    requires Readable(mem)
    ensures var r := ParsePublish(mem); (r.rc == 1 <==> r.message.Some?) <==> !TopicCutShort(mem)
  {
    OneByteLength(mem[1..]);
    if TypeOf(mem[0]) == PUBLISH && mem[1] < 128 {
      assert Decode(mem[1..]) == Decoded(mem[1], 1, true);
    }
  }

  lemma DecodeLoopLen(s: seq<Byte>, i: nat, m: nat, v: nat)
    ensures DecodeLoop(s, i, m, v).len > i
    decreases MAX_LENGTH_BYTES - i
  {
    if i < MAX_LENGTH_BYTES && i < |s| && s[i] >= 128 {
      DecodeLoopLen(s, i + 1, m * 128, v + (s[i] % 128) * m);
    }
  }

  lemma OneByteLength(s: seq<Byte>)
    requires |s| >= MAX_LENGTH_BYTES
    ensures Decode(s).len == 1 <==> s[0] < 128
  {
    if s[0] >= 128 {
      DecodeLoopLen(s, 1, 128, s[0] % 128);
    }
  }

  /** A publish of remaining length 1 has no topic, yet the reader reports success without a message. */
  lemma PublishReturnCodeMisleads(mem: seq<Byte>)
    requires Readable(mem) && mem[0] == 0x30 && mem[1] == 1
    ensures ParsePublish(mem) == ReadPublish(1, None)
  {
    assert mem[1..][0] == 1;
    assert Decode(mem[1..]) == Decoded(1, 1, true);
  }

  datatype ReadConnack = ReadConnack(rc: nat, code: Option<Byte>)

  /** MQTTDeserialize_connack, return code only. */
  function ParseConnack(mem: seq<Byte>): ReadConnack
    requires Readable(mem)
  {
    if TypeOf(mem[0]) != CONNACK then ReadConnack(0, None)
    else
      var d := Decode(mem[1..]);
      if d.value < 2 then ReadConnack(d.len, None) else ReadConnack(1, Some(mem[2 + d.len]))
  }

  /** The connack reader gives back the return code, whatever the flags say. */
  lemma ConnackRoundTrip(flags: Byte, code: Byte, mem: seq<Byte>)
    requires Framed(Header(CONNACK, 0, 0, 0), 2, [flags, code]) <= mem && |mem| >= 6
    ensures Readable(mem) && ParseConnack(mem) == ReadConnack(1, Some(code))
  {
    ConnackFramed(flags, code, mem);
    var slice := mem[2..4];
    assert slice[1] == code && mem[3] == slice[1];
  }

  lemma ConnackFramed(flags: Byte, code: Byte, mem: seq<Byte>)
    requires Framed(Header(CONNACK, 0, 0, 0), 2, [flags, code]) <= mem
    ensures |mem| >= 4 && TypeOf(mem[0]) == CONNACK
    ensures Decode(mem[1..]) == Decoded(2, 1, true) && mem[2..4] == [flags, code]
  {
    HeaderFields(CONNACK, 0, 0, 0);
    TwoByteBody(Header(CONNACK, 0, 0, 0), [flags, code], mem);
  }

  lemma TwoByteBody(header: Byte, body: seq<Byte>, mem: seq<Byte>)
    requires |body| == 2 && Framed(header, |body|, body) <= mem
    ensures |mem| >= 4 && mem[0] == header && Decode(mem[1..]) == Decoded(2, 1, true) && mem[2..4] == body
  {
    EncodeSize(|body|);
    FramedReads(header, body, mem);
  }

  /** How many bytes the length takes: up to the first without continuation bit; five say there is none. */
  function LengthBytes(packet: seq<Byte>): nat
    requires |packet| > MAX_LENGTH_BYTES
  {
    if packet[1] < 128 then 1
    else if packet[2] < 128 then 2
    else if packet[3] < 128 then 3
    else if packet[4] < 128 then 4
    else 5
  }

  function LengthFrom(s: seq<Byte>, i: nat): nat
    requires |s| >= MAX_LENGTH_BYTES
    decreases MAX_LENGTH_BYTES - i
  {
    if i >= MAX_LENGTH_BYTES || s[i] < 128 then i + 1 else LengthFrom(s, i + 1)
  }

  lemma {:induction false} DecodeLoopTakes(s: seq<Byte>, i: nat, m: nat, v: nat)
    requires |s| >= MAX_LENGTH_BYTES
    ensures DecodeLoop(s, i, m, v).len == LengthFrom(s, i)
    decreases MAX_LENGTH_BYTES - i
  {
    if i < MAX_LENGTH_BYTES && s[i] >= 128 {
      DecodeLoopTakes(s, i + 1, m * 128, v + (s[i] % 128) * m);
    }
  }

  lemma DecodeTakes(packet: seq<Byte>)
    requires |packet| > MAX_LENGTH_BYTES
    ensures Decode(packet[1..]).len == LengthBytes(packet)
  {
    var s := packet[1..];
    DecodeLoopTakes(s, 0, 1, 0);
    assert s[0] == packet[1] && s[1] == packet[2] && s[2] == packet[3] && s[3] == packet[4];
    LengthFromIs(s);
  }

  lemma LengthFromIs(s: seq<Byte>)
    requires |s| >= MAX_LENGTH_BYTES
    ensures LengthFrom(s, 0)
            == if s[0] < 128 then 1 else if s[1] < 128 then 2 else if s[2] < 128 then 3 else if s[3] < 128 then 4 else 5
  {
    assert LengthFrom(s, 4) == 5;
    assert LengthFrom(s, 3) == if s[3] < 128 then 4 else 5;
    assert LengthFrom(s, 2) == if s[2] < 128 then 3 else LengthFrom(s, 3);
    assert LengthFrom(s, 1) == if s[1] < 128 then 2 else LengthFrom(s, 2);
  }

  /** A CONNACK whose return code, the second byte behind the length, is 0: for a two-byte body, byte 3. */
  predicate Accepting(packet: seq<Byte>) {
    && |packet| > MAX_LENGTH_BYTES && packet[0] / 16 == 2
    && 2 + LengthBytes(packet) < |packet| && packet[2 + LengthBytes(packet)] == 0
  }

  lemma CodeIsByte(mem: seq<Byte>)
    requires Readable(mem) && ParseConnack(mem).code == Some(0)
    ensures Accepting(mem)
  {
    DecodeTakes(mem);
  }
}
