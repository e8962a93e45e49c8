/**
 What the client's calls achieve, packet by packet: each packet as written by a broker gets the answer it
 asks for, pings go out when due, and waiting, connecting and requesting end as the packets decide.
 */
module MqttAnswers {
  import opened Bytes
  import opened MqttPublish
  import opened MqttSession

  // ---------- one packet, one cycle ----------

  /** The client with the packet read noted, and then these events. */
  function Noted(s: Session, r: Round, more: seq<Event>): Session
    requires RoundOk(r)
  {
    s.(mem := r.mem, log := s.log + [PacketRead(r.mem)] + more)
  }

  /** A publish is acknowledged by its QoS: not at all, with PUBACK, or with PUBREC, and with its own packet id. */
  lemma PublishAnswered(s: Session, r: Round, p: Publish)
    requires RoundOk(r) && r.got && r.ackOk && PublishOk(p)
    requires PublishBytes(p) <= r.mem && |r.mem| >= |PublishBytes(p)| + 2
    ensures var c := Cycle(s, r);
            && c.rc == 3
            && (p.qos == 0 ==> c.s == KeepAlive(Noted(s, r, []), r))
            && (p.qos == 1 ==> c.s == KeepAlive(Noted(s, r, [AckSent(4, p.id)]), r))
            && (p.qos == 2 ==> c.s == KeepAlive(Noted(s, r, [AckSent(5, p.id)]), r))
  {
    PublishRoundTrip(p, r.mem);
    PublishFramed(p, r.mem);
    var log := s.log + [PacketRead(r.mem)];
    assert log + [] == log;
  }

  /** A PUBREC is answered with PUBREL and its packet id. */
  lemma PubrecAnswered(s: Session, r: Round, dup: nat, id: U16)
    requires RoundOk(r) && r.got && r.ackOk && dup < 2 && AckBytes(5, dup, id) <= r.mem && |r.mem| >= 6
    ensures Cycle(s, r).rc == 5 && Cycle(s, r).s == KeepAlive(Noted(s, r, [AckSent(6, id)]), r)
  {
    AckRoundTrip(5, dup, id, r.mem);
  }

  /** When the answer cannot be sent the round fails, and the keep-alive is skipped. */
  lemma UnsentAnswerFails(s: Session, r: Round)
    requires RoundOk(r) && r.got && !r.ackOk
    requires TypeOf(r.mem[0]) == 5 || (TypeOf(r.mem[0]) == 3 && QosOf(r.mem[0]) > 0 && ParsePublish(r.mem).rc == 1)
    ensures Cycle(s, r).rc == -1 && Cycle(s, r).s == Noted(s, r, [])
  {
    var log := s.log + [PacketRead(r.mem)];
    assert log + [] == log;
  }

  /** An awaited acknowledgement raises the flag of its type and no other. */
  lemma AcknowledgementFlagged(s: Session, r: Round)
    requires RoundOk(r) && r.got && TypeOf(r.mem[0]) in {2, 4, 7, 9, 11}
    ensures var ty := TypeOf(r.mem[0]);
            Cycle(s, r).rc == ty && Cycle(s, r).s == KeepAlive(Noted(s, r, []).(acks := s.acks + {ty}), r)
  {
    var log := s.log + [PacketRead(r.mem)];
    assert log + [] == log;
  }

  /** A ping response ends the wait for it. */
  lemma PongNoted(s: Session, r: Round)
    requires RoundOk(r) && r.got && TypeOf(r.mem[0]) == 13
    ensures Cycle(s, r).s == KeepAlive(Noted(s, r, []).(pingOutstanding := false), r)
  {
    var log := s.log + [PacketRead(r.mem)];
    assert log + [] == log;
  }

  /** With nothing read a cycle only keeps the connection alive. */
  lemma SilenceKeepsAlive(s: Session, r: Round)
    requires RoundOk(r) && !r.got
    ensures Cycle(s, r).s == KeepAlive(s.(mem := r.mem), r) && Cycle(s, r).rc == 65535
  {
  }

  // ---------- keep-alive ----------

  /** A due ping goes out when none is open; an open one that is not answered in time ends the connection. */
  lemma PingsWhenDue(s: Session, r: Round)
    ensures var s', due := KeepAlive(s, r), s.keepAlive > 0 && r.pingDue;
            && s'.acks == s.acks && s'.nextId == s.nextId && s'.mem == s.mem && s'.keepAlive == s.keepAlive
            && (due && !s.pingOutstanding && r.pingOk ==>
                  s'.log == s.log + [PingSent] && s'.pingOutstanding && s'.connected == s.connected)
            && (due && s.pingOutstanding && r.pongLate ==>
                  s'.log == s.log + [PingExpired] && s'.pingOutstanding && !s'.connected)
            && (s'.log == s.log ==> s' == s)
            && (s' == s <==> !due || (if s.pingOutstanding then !r.pongLate else !r.pingOk))
  {
    assert |s.log + [PingSent]| == |s.log| + 1 && |s.log + [PingExpired]| == |s.log| + 1;
  }

  // ---------- waiting ----------

  predicate Brings(r: Round, ty: nat)
    requires RoundOk(r)
  {
    r.got && TypeOf(r.mem[0]) == ty
  }

  /** The first round that brings a packet of the type, or the number of rounds. */
  function FirstOf(rs: seq<Round>, ty: nat): (i: nat)
    requires RoundsOk(rs)
    ensures i <= |rs| && (i < |rs| ==> RoundOk(rs[i]) && Brings(rs[i], ty))
    ensures forall j :: 0 <= j < i ==> !Brings(rs[j], ty)
  {
    if rs == [] then 0
    else
      assert RoundOk(rs[0]);
      if Brings(rs[0], ty) then 0 else 1 + FirstOf(rs[1..], ty)
  }

  lemma FlagExactly(s: Session, r: Round, ty: nat)
    requires RoundOk(r) && ty in AWAITED
    ensures ty in Cycle(s, r).s.acks <==> ty in s.acks || Brings(r, ty)
    ensures Cycle(s, r).s.mem == r.mem
  {
  }

  /**
   Waiting for a type succeeds exactly when one of the rounds brings a packet of that type, and then stops
   with the first such packet in the read buffer and the flag taken down again.
   */
  lemma {:induction false} WaitExact(s: Session, ty: nat, rs: seq<Round>)
    requires RoundsOk(rs) && ty in AWAITED && ty !in s.acks
    ensures var w, i := WaitLoop(s, ty, rs), FirstOf(rs, ty);
            && w.rc == (if i < |rs| then ty else -1)
            && (i < |rs| ==> w.s.mem == rs[i].mem && ty !in w.s.acks)
    decreases |rs|
  {
    if rs != [] {
      assert RoundOk(rs[0]);
      FlagExactly(s, rs[0], ty);
      var s1 := Cycle(s, rs[0]).s;
      if Brings(rs[0], ty) {
        assert WaitLoop(s1, ty, rs[1..]) == Outcome(s1.(acks := s1.acks - {ty}), ty);
      } else {
        WaitExact(s1, ty, rs[1..]);
      }
    }
  }

  /**
   MQTTConnect on an unconnected client: it returns 0 and is connected exactly when the connect packet went
   out, a CONNACK came in time, and the first one that came carries the return code 0.
   */
  lemma ConnectExact(s: Session, keepAlive: nat, sendOk: bool, rs: seq<Round>)
    requires RoundsOk(rs) && Readable(s.mem) && !s.connected
    ensures var c, i := MqttSession.Connect(s, keepAlive, sendOk, rs), FirstOf(rs, 2);
            && (c.rc == 0 <==> sendOk && i < |rs| && ConnackResult(rs[i].mem) == 0)
            && (c.s.connected <==> c.rc == 0)
            && c.s.keepAlive == keepAlive
  {
    var s2 := s.(keepAlive := keepAlive, acks := s.acks - {CONNACK});
    WaitExact(s2, CONNACK, rs);
    WaitStaysDown(s2, CONNACK, rs);
    WaitKeepsInterval(s2, CONNACK, rs);
  }

  lemma {:induction false} WaitKeepsInterval(s: Session, ty: nat, rs: seq<Round>)
    requires RoundsOk(rs)
    ensures WaitLoop(s, ty, rs).s.keepAlive == s.keepAlive
    decreases |rs|
  {
    if ty !in s.acks && rs != [] {
      assert RoundOk(rs[0]);
      WaitKeepsInterval(Cycle(s, rs[0]).s, ty, rs[1..]);
    }
  }

  /** On the bytes of a CONNACK: byte 3 is the result, whatever the flags. */
  lemma ConnackDecides(flags: Byte, code: Byte, mem: seq<Byte>)
    requires Framed(Header(CONNACK, 0, 0, 0), 2, [flags, code]) <= mem && |mem| >= 6
    ensures Readable(mem) && ConnackResult(mem) == code
  {
    ConnackRoundTrip(flags, code, mem);
  }

  /** A connected client stays so when asked to connect again, and says so. */
  lemma ConnectTwiceRefused(s: Session, keepAlive: nat, sendOk: bool, rs: seq<Round>)
    requires RoundsOk(rs) && Readable(s.mem) && s.connected
    ensures MqttSession.Connect(s, keepAlive, sendOk, rs) == Outcome(s, -1)
  {
  }

  /**
   A request is refused when not connected; else it takes the next packet id if it needs one, and succeeds
   exactly when its packet went out and the answer it waits for came.
   */
  lemma RequestExact(s: Session, needsId: bool, sendOk: bool, answer: Option<nat>, rs: seq<Round>)
    requires RoundsOk(rs) && (answer.Some? ==> answer.value in AWAITED)
    ensures var c := MqttSession.Request(s, needsId, sendOk, answer, rs);
            && (!s.connected ==> c == Outcome(s, -1))
            && (s.connected && !sendOk ==> c.rc == -1)
            && (s.connected && sendOk && answer.None? ==> c.rc == 0)
            && (s.connected && sendOk && answer.Some? ==>
                  c.rc == if FirstOf(rs, answer.value) < |rs| then answer.value else -1)
            && (s.connected && needsId ==>
                  s.log + [IdIssued(if s.nextId == 65535 then 1 else s.nextId + 1)] <= c.s.log)
            && (s.connected && !needsId && (!sendOk || answer.None?) ==> c.s == s)
  {
    if s.connected && sendOk && answer.Some? {
      var ty := answer.value;
      var s1 := if needsId then Note(s.(nextId := NextId(s.nextId)), IdIssued(NextId(s.nextId))) else s;
      WaitExact(s1.(acks := s1.acks - {ty}), ty, rs);
      WaitGrowsLog(s1.(acks := s1.acks - {ty}), ty, rs);
    }
  }

  lemma CycleGrowsLog(s: Session, r: Round)
    requires RoundOk(r)
    ensures s.log <= Cycle(s, r).s.log
  {
  }

  lemma {:induction false} WaitGrowsLog(s: Session, ty: nat, rs: seq<Round>)
    requires RoundsOk(rs)
    ensures s.log <= WaitLoop(s, ty, rs).s.log
    decreases |rs|
  {
    if ty !in s.acks && rs != [] {
      assert RoundOk(rs[0]);
      CycleGrowsLog(s, rs[0]);
      WaitGrowsLog(Cycle(s, rs[0]).s, ty, rs[1..]);
    }
  }
}
