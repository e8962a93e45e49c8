/**
 The MQTT serializers and readers as they run: a write position moving through a caller's buffer, and
 the length loops. Every serializer that passes its size check writes exactly the packet of
 `MqttPublish`, returns its size and touches nothing behind it.
 */
module MqttWriter {
  import opened Bytes
  import opened MqttLength
  import opened MqttPublish

  const BUFFER_TOO_SHORT: int := -2

  /** A pointer into the caller's buffer: `written` lies before it, the caller's bytes behind it. */
  class Cursor {
    const buf: array<Byte>
    var pos: nat
    ghost var written: seq<Byte>
    ghost const original: seq<Byte>

    constructor (buf: array<Byte>)
      ensures Valid() && this.buf == buf && written == [] && original == buf[..]
    {
      this.buf, pos, written, original := buf, 0, [], buf[..];
    }

    ghost predicate Valid()
      reads this, buf
    {
      && |original| == buf.Length && pos == |written| <= buf.Length
      && buf[..pos] == written && buf[pos..] == original[pos..]
    }

    method WriteChar(c: Byte)
      requires Valid() && pos < buf.Length
      modifies this, buf
      ensures Valid() && written == old(written) + [c]
    {
      ghost var tail := buf[pos..];
      buf[pos] := c;
      pos, written := pos + 1, written + [c];
      assert buf[pos..] == tail[1..];
    }

    method WriteInt(n: nat)
      requires Valid() && pos + 2 <= buf.Length
      modifies this, buf
      ensures Valid() && written == old(written) + Be16(n)
    {
      WriteChar(n / 256 % 256);
      WriteChar(n % 256);
    }

    /** memcpy and advance. */
    method WriteBytes(bytes: seq<Byte>)
      requires Valid() && pos + |bytes| <= buf.Length
      modifies this, buf
      ensures Valid() && written == old(written) + bytes
    {
      ghost var tail := buf[pos..];
      forall i | 0 <= i < |bytes| {
        buf[pos + i] := bytes[i];
      }
      pos, written := pos + |bytes|, written + bytes;
      assert buf[pos..] == tail[|bytes|..];
    }

    method WriteString(s: MqttString)
      requires Valid() && pos + |WireString(s)| <= buf.Length
      modifies this, buf
      ensures Valid() && written == old(written) + WireString(s)
    {
      if DataLen(s) > 0 {
        WriteInt(DataLen(s));
        WriteBytes(s.data.value);
      } else if s.cstring.Some? {
        WriteInt(|s.cstring.value|);
        WriteBytes(s.cstring.value);
      } else {
        WriteInt(0);
      }
    }

    /** MQTTPacket_encode at the cursor. */
    method WriteLength(length: nat)
      requires Valid() && pos + |Encode(length)| <= buf.Length
      modifies this, buf
      ensures Valid() && written == old(written) + Encode(length)
    {
      var n := length;
      while true
        invariant Valid() && pos + |Encode(n)| <= buf.Length
        invariant written + Encode(n) == old(written) + Encode(length)
        decreases n
      {
        ghost var e, w := Encode(n), written;
        var d := n % 128;
        n := n / 128;
        if n > 0 {
          d := d + 128;
        }
        WriteChar(d);
        if n == 0 {
          assert e == [d];
          break;
        }
        assert e == [d] + Encode(n) && w + ([d] + Encode(n)) == written + Encode(n);
      }
    }

    /** Header byte and remaining length, the start of every packet. */
    method WriteHeader(header: Byte, remaining: nat)
      requires Valid() && pos == 0 && 1 + |Encode(remaining)| <= buf.Length
      modifies this, buf
      ensures Valid() && written == [header] + Encode(remaining)
    {
      WriteChar(header);
      WriteLength(remaining);
    }
  }

  /** The whole effect of a serializer on its buffer. */
  twostate predicate Serialized(buf: array<Byte>, buflen: nat, remaining: nat, packet: seq<Byte>, rc: int)
    reads buf
  {
    if PacketLen(remaining) > buflen then rc == BUFFER_TOO_SHORT && buf[..] == old(buf[..])
    else rc == |packet| <= buflen <= buf.Length && buf[..rc] == packet && buf[rc..] == old(buf[..])[rc..]
  }

  method SerializePublish(buf: array<Byte>, buflen: nat, p: Publish) returns (rc: int)
    requires buflen <= buf.Length && OneString(p.topic) && PublishLength(p) <= MAX_REMAINING
    modifies buf
    ensures Serialized(buf, buflen, PublishLength(p), PublishBytes(p), rc)
  {
    var remaining := PublishLength(p);
    if PacketLen(remaining) > buflen {
      return BUFFER_TOO_SHORT;
    }
    PacketLenExact(remaining);
    PublishSizes(p);
    var c := new Cursor(buf);
    c.WriteHeader(Header(PUBLISH, p.dup, p.qos, p.retained), remaining);
    WritePublishBody(c, p);
    rc := c.pos;
  }

  lemma ThreeParts(w: seq<Byte>, a: seq<Byte>, b: seq<Byte>, c: seq<Byte>)
    ensures w + a + b + c == w + (a + b + c)
    ensures |a + b + c| == |a| + |b| + |c|
  {
  }

  method WritePublishBody(c: Cursor, p: Publish)
    requires c.Valid() && c.pos + |PublishBody(p)| <= c.buf.Length
    modifies c, c.buf
    ensures c.Valid() && c.written == old(c.written) + PublishBody(p)
  {
    ThreeParts(c.written, WireString(p.topic), PublishId(p), p.payload);
    c.WriteString(p.topic);
    WritePublishId(c, p);
    c.WriteBytes(p.payload);
  }

  method WritePublishId(c: Cursor, p: Publish)
    requires c.Valid() && c.pos + |PublishId(p)| <= c.buf.Length
    modifies c, c.buf
    ensures c.Valid() && c.written == old(c.written) + PublishId(p)
  {
    if p.qos > 0 {
      c.WriteInt(p.id);
    }
  }

  method SerializeAck(buf: array<Byte>, buflen: nat, ty: nat, dup: nat, id: U16) returns (rc: int)
    requires buflen <= buf.Length
    modifies buf
    ensures Serialized(buf, buflen, 2, AckBytes(ty, dup, id), rc)
  {
    if buflen < 4 {
      return BUFFER_TOO_SHORT;
    }
    PacketLenExact(2);
    var c := new Cursor(buf);
    c.WriteHeader(Header(ty, dup, if ty == PUBREL then 1 else 0, 0), 2);
    c.WriteInt(id);
    rc := c.pos;
  }

  method SerializeZero(buf: array<Byte>, buflen: nat, ty: nat) returns (rc: int)
    requires buflen <= buf.Length
    modifies buf
    ensures Serialized(buf, buflen, 0, ZeroBytes(ty), rc)
  {
    if buflen < 2 {
      return BUFFER_TOO_SHORT;
    }
    PacketLenExact(0);
    var c := new Cursor(buf);
    c.WriteHeader(Header(ty, 0, 0, 0), 0);
    rc := c.pos;
  }

  // ---------- subscribe and unsubscribe, any number of filters ----------

  method SubscribeLengthLoop(rs: seq<Request>) returns (len: nat)
    ensures len == SubscribeLength(rs)
  {
    len := 2;
    for i := 0 to |rs|
      invariant len == SubscribeLength(rs[..i])
    {
      assert rs[..i + 1][..i] == rs[..i];
      len := len + 2 + StrLen(rs[i].filter) + 1;
    }
    assert rs[..|rs|] == rs;
  }

  method UnsubscribeLengthLoop(fs: seq<MqttString>) returns (len: nat)
    ensures len == UnsubscribeLength(fs)
  {
    len := 2;
    for i := 0 to |fs|
      invariant len == UnsubscribeLength(fs[..i])
    {
      assert fs[..i + 1][..i] == fs[..i];
      len := len + 2 + StrLen(fs[i]);
    }
    assert fs[..|fs|] == fs;
  }

  lemma {:induction false} RequestsPrefix(rs: seq<Request>, i: nat)
    requires i <= |rs|
    ensures |Requests(rs[..i])| <= |Requests(rs)|
    decreases |rs|
  {
    if i < |rs| {
      var init := rs[..|rs| - 1];
      RequestsPrefix(init, i);
      assert init[..i] == rs[..i];
    } else {
      assert rs[..i] == rs;
    }
  }

  lemma {:induction false} FiltersPrefix(fs: seq<MqttString>, i: nat)
    requires i <= |fs|
    ensures |Filters(fs[..i])| <= |Filters(fs)|
    decreases |fs|
  {
    if i < |fs| {
      var init := fs[..|fs| - 1];
      FiltersPrefix(init, i);
      assert init[..i] == fs[..i];
    } else {
      assert fs[..i] == fs;
    }
  }

  lemma RequestsNext(rs: seq<Request>, i: nat)
    requires i < |rs|
    ensures Requests(rs[..i + 1]) == Requests(rs[..i]) + WireString(rs[i].filter) + [rs[i].qos]
  {
    assert rs[..i + 1][..i] == rs[..i];
    PlusAssoc(Requests(rs[..i]), WireString(rs[i].filter), [rs[i].qos]);
  }

  lemma FiltersNext(fs: seq<MqttString>, i: nat)
    requires i < |fs|
    ensures Filters(fs[..i + 1]) == Filters(fs[..i]) + WireString(fs[i])
  {
    assert fs[..i + 1][..i] == fs[..i];
  }

  method WriteRequests(c: Cursor, rs: seq<Request>)
    requires c.Valid() && c.pos + |Requests(rs)| <= c.buf.Length
    modifies c, c.buf
    ensures c.Valid() && c.written == old(c.written) + Requests(rs)
  {
    ghost var head := c.written;
    for i := 0 to |rs|
      invariant c.Valid() && c.written == head + Requests(rs[..i])
    {
      RequestsPrefix(rs, i + 1);
      ThreeParts(head, Requests(rs[..i]), WireString(rs[i].filter), [rs[i].qos]);
      RequestsNext(rs, i);
      c.WriteString(rs[i].filter);
      c.WriteChar(rs[i].qos);
    }
    assert rs[..|rs|] == rs;
  }

  method WriteFilters(c: Cursor, fs: seq<MqttString>)
    requires c.Valid() && c.pos + |Filters(fs)| <= c.buf.Length
    modifies c, c.buf
    ensures c.Valid() && c.written == old(c.written) + Filters(fs)
  {
    ghost var head := c.written;
    for i := 0 to |fs|
      invariant c.Valid() && c.written == head + Filters(fs[..i])
    {
      FiltersPrefix(fs, i + 1);
      FiltersNext(fs, i);
      PlusAssoc(head, Filters(fs[..i]), WireString(fs[i]));
      c.WriteString(fs[i]);
    }
    assert fs[..|fs|] == fs;
  }

  method SerializeSubscribe(buf: array<Byte>, buflen: nat, dup: nat, id: U16, rs: seq<Request>) returns (rc: int)
    requires buflen <= buf.Length && SubscribeLength(rs) <= MAX_REMAINING
    requires forall i :: 0 <= i < |rs| ==> OneString(rs[i].filter)
    modifies buf
    ensures Serialized(buf, buflen, SubscribeLength(rs), SubscribeBytes(dup, id, rs), rc)
  {
    var remaining := SubscribeLengthLoop(rs);
    if PacketLen(remaining) > buflen {
      return BUFFER_TOO_SHORT;
    }
    PacketLenExact(remaining);
    RequestsSize(rs);
    var c := new Cursor(buf);
    c.WriteHeader(Header(SUBSCRIBE, dup, 1, 0), remaining);
    PlusAssoc(c.written, Be16(id), Requests(rs));
    c.WriteInt(id);
    WriteRequests(c, rs);
    rc := c.pos;
  }

  method SerializeUnsubscribe(buf: array<Byte>, buflen: nat, dup: nat, id: U16, fs: seq<MqttString>) returns (rc: int)
    requires buflen <= buf.Length && UnsubscribeLength(fs) <= MAX_REMAINING
    requires forall i :: 0 <= i < |fs| ==> OneString(fs[i])
    modifies buf
    ensures Serialized(buf, buflen, UnsubscribeLength(fs), UnsubscribeBytes(dup, id, fs), rc)
  {
    var remaining := UnsubscribeLengthLoop(fs);
    if PacketLen(remaining) > buflen {
      return BUFFER_TOO_SHORT;
    }
    PacketLenExact(remaining);
    FiltersSize(fs);
    var c := new Cursor(buf);
    c.WriteHeader(Header(UNSUBSCRIBE, dup, 1, 0), remaining);
    PlusAssoc(c.written, Be16(id), Filters(fs));
    c.WriteInt(id);
    WriteFilters(c, fs);
    rc := c.pos;
  }

  // ---------- connect ----------

  method SerializeConnect(buf: array<Byte>, buflen: nat, o: Connect) returns (rc: int)
    requires buflen <= buf.Length && ConnectLength(o) <= MAX_REMAINING
    requires ConnectStrings(o) && (o.version == 3 || o.version == 4)
    modifies buf
    ensures Serialized(buf, buflen, ConnectLength(o), ConnectBytes(o), rc)
  {
    var remaining := ConnectLength(o);
    if PacketLen(remaining) > buflen {
      return BUFFER_TOO_SHORT;
    }
    PacketLenExact(remaining);
    ConnectLengthExact(o);
    var c := new Cursor(buf);
    c.WriteHeader(Header(CONNECT, 0, 0, 0), remaining);
    WriteConnectBody(c, o);
    rc := c.pos;
  }

  method WriteProtocol(c: Cursor, version: nat)
    requires c.Valid() && c.pos + |Protocol(version)| <= c.buf.Length
    modifies c, c.buf
    ensures c.Valid() && c.written == old(c.written) + Protocol(version)
  {
    if version == 4 {
      c.WriteInt(4);
      c.WriteBytes([77, 81, 84, 84]);
      c.WriteChar(4);
    } else {
      c.WriteInt(6);
      c.WriteBytes([77, 81, 73, 115, 100, 112]);
      c.WriteChar(3);
    }
  }

  method WriteConnectFront(c: Cursor, o: Connect)
    requires c.Valid() && c.pos + |ConnectFront(o)| <= c.buf.Length
    modifies c, c.buf
    ensures c.Valid() && c.written == old(c.written) + ConnectFront(o)
  {
    WriteProtocol(c, o.version);
    c.WriteChar(ConnectFlags(o));
    c.WriteInt(o.keepAlive);
    c.WriteString(o.clientId);
  }

  method WriteOptional(c: Cursor, s: MqttString)
    requires c.Valid() && c.pos + |OptionalString(s)| <= c.buf.Length
    modifies c, c.buf
    ensures c.Valid() && c.written == old(c.written) + OptionalString(s)
  {
    if Given(s) {
      c.WriteString(s);
    }
  }

  method WriteWill(c: Cursor, w: Option<Will>)
    requires c.Valid() && c.pos + |WillBytes(w)| <= c.buf.Length
    modifies c, c.buf
    ensures c.Valid() && c.written == old(c.written) + WillBytes(w)
  {
    if w.Some? {
      PlusAssoc(c.written, WireString(w.value.topic), WireString(w.value.message));
      c.WriteString(w.value.topic);
      c.WriteString(w.value.message);
    }
  }

  method WriteConnectBody(c: Cursor, o: Connect)
    requires c.Valid() && c.pos + |ConnectBody(o)| <= c.buf.Length
    modifies c, c.buf
    ensures c.Valid() && c.written == old(c.written) + ConnectBody(o)
  {
    ConnectParts(c.written, ConnectFront(o), WillBytes(o.will), OptionalString(o.username), OptionalString(o.password));
    WriteConnectFront(c, o);
    WriteWill(c, o.will);
    WriteOptional(c, o.username);
    WriteOptional(c, o.password);
  }

  lemma ConnectParts(w: seq<Byte>, f: seq<Byte>, will: seq<Byte>, user: seq<Byte>, pass: seq<Byte>)
    ensures w + f + will + user + pass == w + (f + will + user + pass)
    ensures |f + will + user + pass| == |f| + |will| + |user| + |pass|
  {
  }

  // ---------- readers ----------

  /** The length loop of the buffer reader. */
  lemma DecodeStep(s: seq<Byte>, i: nat, m: nat, v: nat)
    requires i < MAX_LENGTH_BYTES && i < |s|
    ensures DecodeLoop(s, i, m, v)
            == if s[i] < 128 then Decoded(v + (s[i] % 128) * m, i + 1, true)
               else DecodeLoop(s, i + 1, m * 128, v + (s[i] % 128) * m)
  {
  }

  method DecodeBuf(mem: seq<Byte>, at: nat) returns (len: nat, value: nat)
    requires at + MAX_LENGTH_BYTES <= |mem|
    ensures Decode(mem[at..]).len == len && Decode(mem[at..]).value == value
  {
    ghost var s := mem[at..];
    var multiplier: nat := 1;
    len, value := 0, 0;
    while true
      invariant len <= MAX_LENGTH_BYTES
      invariant DecodeLoop(s, len, multiplier, value) == Decode(s)
      decreases MAX_LENGTH_BYTES - len
    {
      len := len + 1;
      if len > MAX_LENGTH_BYTES {
        return;
      }
      DecodeStep(s, len - 1, multiplier, value);
      var c: int := mem[at + len - 1];
      value := value + (c % 128) * multiplier;
      multiplier := multiplier * 128;
      if c < 128 {
        return;
      }
    }
  }

  method DeserializePublish(mem: seq<Byte>) returns (rc: nat, m: Option<Message>)
    requires Readable(mem)
    ensures ReadPublish(rc, m) == ParsePublish(mem)
  {
    if TypeOf(mem[0]) != PUBLISH {
      return 0, None;
    }
    var len, mylen := DecodeBuf(mem, 1);
    Parsed(mem, mylen, len);
    rc, m := ReadRest(mem, len, mylen);
  }

  /** Behind the length; the early exits return what the length decoder returned. */
  method ReadRest(mem: seq<Byte>, len: nat, mylen: nat) returns (rc: nat, m: Option<Message>)
    requires 1 + len + mylen + 2 <= |mem|
    ensures ReadPublish(rc, m) == PublishResult(TakeApart(mem, mem[0], 1 + len, 1 + len + mylen), len)
  {
    m := ReadParts(mem, mem[0], 1 + len, 1 + len + mylen);
    rc := if m.Some? then 1 else len;
  }

  /** Topic, packet id and payload at the moving read position; `None` stands for the early exits. */
  method ReadParts(mem: seq<Byte>, header: Byte, start: nat, enddata: nat) returns (m: Option<Message>)
    requires start <= enddata && enddata + 2 <= |mem|
    ensures m == TakeApart(mem, header, start, enddata)
  {
    var curdata := start;
    if enddata - curdata <= 1 {
      return None;
    }
    var n: nat := FromBe16(mem[curdata], mem[curdata + 1]);
    curdata := curdata + 2;
    if curdata + n > enddata {
      return None;
    }
    var message := ReadMessage(mem, header, curdata, curdata + n, enddata);
    return Some(message);
  }

  method ReadMessage(mem: seq<Byte>, header: Byte, from: nat, after: nat, enddata: nat) returns (m: Message)
    requires from <= after <= enddata && enddata + 2 <= |mem|
    ensures m == MessageAt(mem, header, from, after, enddata)
  {
    var topic, curdata, qos := mem[from..after], after, QosOf(header);
    var id: Option<U16> := None;
    if qos > 0 {
      id := Some(FromBe16(mem[curdata], mem[curdata + 1]));
      curdata := curdata + 2;
    }
    var payload: seq<Byte> := [];
    if curdata <= enddata {
      payload := mem[curdata..enddata];
    }
    return Message(DupOf(header), qos, RetainOf(header), id, topic, enddata - curdata, payload);
  }

  method DeserializeAck(mem: seq<Byte>) returns (rc: nat, ty: nat, dup: nat, id: Option<U16>)
    requires Readable(mem)
    ensures ReadAck(rc, ty, dup, id) == ParseAck(mem)
  {
    ty, dup := TypeOf(mem[0]), DupOf(mem[0]);
    var len, mylen := DecodeBuf(mem, 1);
    if mylen < 2 {
      return len, ty, dup, None;
    }
    return 1, ty, dup, Some(FromBe16(mem[1 + len], mem[2 + len]));
  }
}
