/** The client of MQTTClient.c, field by field; each call is a call of the machine in `MqttSession`. */
module MqttClient {
  import opened Bytes
  import opened MqttPublish
  import opened MqttSession
  import MqttWriter

  class Client {
    var nextPacketId: nat
    var keepAliveInterval: nat
    var pingOutstanding: bool
    var isConnected: bool
    var connAckReceived: bool
    var subAckReceived: bool
    var unsubAckReceived: bool
    var pubAckReceived: bool
    var pubCompReceived: bool
    var readbuf: seq<Byte>
    ghost var acks: set<nat>  // the flags, as a set of packet types
    ghost var log: seq<Event>

    constructor (readbuf: seq<Byte>)
      ensures Valid() && View() == Start(readbuf)
    {
      nextPacketId, keepAliveInterval, pingOutstanding, isConnected := 1, 0, false, false;
      connAckReceived, subAckReceived, unsubAckReceived := false, false, false;
      pubAckReceived, pubCompReceived := false, false;
      this.readbuf, acks, log := readbuf, {}, [];
    }

    ghost predicate Valid()
      reads this
    {
      && connAckReceived == (CONNACK in acks) && subAckReceived == (SUBACK in acks)
      && unsubAckReceived == (UNSUBACK in acks) && pubAckReceived == (PUBACK in acks)
      && pubCompReceived == (PUBCOMP in acks)
    }

    ghost function View(): Session
      reads this
    {
      Session(nextPacketId, keepAliveInterval, pingOutstanding, isConnected, acks, readbuf, log)
    }

    method GetNextPacketId() returns (id: nat)
      modifies this`nextPacketId, this`log
      ensures id == nextPacketId == MqttSession.NextId(old(nextPacketId)) && log == old(log) + [IdIssued(id)]
    {
      nextPacketId := if nextPacketId == MAX_PACKET_ID then 1 else nextPacketId + 1;
      log := log + [IdIssued(nextPacketId)];
      return nextPacketId;
    }

    method KeepAlive(r: Round)
      modifies this`pingOutstanding, this`isConnected, this`log
      ensures View() == MqttSession.KeepAlive(old(View()), r)
    {
      if keepAliveInterval == 0 {
        return;
      }
      if r.pingDue {
        if !pingOutstanding {
          if r.pingOk {
            log := log + [PingSent];
            pingOutstanding := true;
          }
        } else if r.pongLate {
          isConnected := false;
          log := log + [PingExpired];
        }
      }
    }

    method SetFlag(ty: nat, value: bool)
      requires Valid() && ty in AWAITED
      modifies this`connAckReceived, this`subAckReceived, this`unsubAckReceived
      modifies this`pubAckReceived, this`pubCompReceived, this`acks
      ensures Valid() && acks == if value then old(acks) + {ty} else old(acks) - {ty}
    {
      acks := if value then acks + {ty} else acks - {ty};
      if ty == CONNACK {
        connAckReceived := value;
      } else if ty == PUBACK {
        pubAckReceived := value;
      } else if ty == SUBACK {
        subAckReceived := value;
      } else if ty == UNSUBACK {
        unsubAckReceived := value;
      } else {
        pubCompReceived := value;
      }
    }

    method HandlePublish(r: Round) returns (rc: int, proceed: bool)
      requires RoundOk(r) && readbuf == r.mem && TypeOf(readbuf[0]) == PUBLISH
      modifies this`log
      ensures Reaction(View(), proceed, rc) == Do(old(View()), PublishWork(r))
    {
      var code, m := MqttWriter.DeserializePublish(readbuf);
      if code != 1 {
        return PUBLISH, false;
      }
      var qos := QosOf(readbuf[0]);
      if qos != 0 {
        var id := if m.Some? && m.value.id.Some? then m.value.id.value else r.stray;
        if qos == 3 || !r.ackOk {
          return FAILURE, false;
        }
        log := log + [AckSent(if qos == 1 then PUBACK else PUBREC, id)];
      }
      return PUBLISH, true;
    }

    method HandlePubrec(r: Round) returns (rc: int, proceed: bool)
      requires RoundOk(r) && readbuf == r.mem && TypeOf(readbuf[0]) == PUBREC
      modifies this`log
      ensures Reaction(View(), proceed, rc) == Do(old(View()), PubrecWork(r))
    {
      var code, _, _, id := MqttWriter.DeserializeAck(readbuf);
      if code != 1 || !r.ackOk {
        return FAILURE, false;
      }
      log := log + [AckSent(PUBREL, if id.Some? then id.value else r.stray)];
      return PUBREC, true;
    }

    /** The switch of cycle on the packet just read. */
    method Handle(r: Round) returns (rc: int, proceed: bool)
      requires Valid() && RoundOk(r) && readbuf == r.mem
      modifies this
      ensures Valid() && Reaction(View(), proceed, rc) == React(old(View()), r)
    {
      var ty := if r.got then TypeOf(readbuf[0]) else NO_PACKET;
      rc, proceed := ty, true;
      if ty in AWAITED {
        SetFlag(ty, true);
      } else if ty == PUBLISH {
        rc, proceed := HandlePublish(r);
      } else if ty == PUBREC {
        rc, proceed := HandlePubrec(r);
      } else if ty == PINGRESP {
        pingOutstanding := false;
      }
    }

    method Cycle(r: Round) returns (rc: int)
      requires Valid() && RoundOk(r)
      modifies this
      ensures Valid() && Outcome(View(), rc) == MqttSession.Cycle(old(View()), r)
    {
      readbuf := r.mem;
      if r.got {
        log := log + [PacketRead(r.mem)];
      }
      var proceed;
      rc, proceed := Handle(r);
      if proceed {
        KeepAlive(r);
      }
    }

    /** waitfor: the rounds are those the timer leaves time for. */
    method WaitFor(ty: nat, rs: seq<Round>) returns (rc: int)
      requires Valid() && RoundsOk(rs) && ty in AWAITED
      modifies this
      ensures Valid() && Outcome(View(), rc) == MqttSession.WaitFor(old(View()), ty, rs)
    {
      SetFlag(ty, false);
      ghost var target := WaitLoop(View(), ty, rs);
      var i := 0;
      assert rs[0..] == rs;
      while true
        invariant Valid() && 0 <= i <= |rs| && RoundsOk(rs[i..])
        invariant WaitLoop(View(), ty, rs[i..]) == target
        decreases |rs| - i
      {
        var received := Received(ty);
        if received {
          SetFlag(ty, false);
          return ty;
        }
        if i == |rs| {
          return FAILURE;
        }
        assert rs[i..][0] == rs[i] && rs[i..][1..] == rs[i + 1..] && RoundOk(rs[i..][0]);
        var _ := Cycle(rs[i]);
        i := i + 1;
      }
    }

    method Received(ty: nat) returns (b: bool)
      requires Valid() && ty in AWAITED
      ensures b <==> ty in acks
    {
      if ty == CONNACK {
        b := connAckReceived;
      } else if ty == PUBACK {
        b := pubAckReceived;
      } else if ty == SUBACK {
        b := subAckReceived;
      } else if ty == UNSUBACK {
        b := unsubAckReceived;
      } else {
        b := pubCompReceived;
      }
    }

    method Connect(keepAlive: nat, sendOk: bool, rs: seq<Round>) returns (rc: int)
      requires Valid() && Readable(readbuf) && RoundsOk(rs)
      modifies this
      ensures Valid() && Outcome(View(), rc) == MqttSession.Connect(old(View()), keepAlive, sendOk, rs)
    {
      if isConnected {
        return FAILURE;
      }
      keepAliveInterval := keepAlive;
      if !sendOk {
        return FAILURE;
      }
      ghost var s1 := View();
      WaitKeepsReadable(s1.(acks := s1.acks - {CONNACK}), CONNACK, rs);
      var answer := WaitFor(CONNACK, rs);
      rc := if answer == CONNACK then ConnackResult(readbuf) else FAILURE;
      if rc == 0 {
        isConnected := true;
        log := log + [Connected];
      }
    }

    method Disconnect()
      requires Valid()
      modifies this
      ensures Valid() && View() == MqttSession.Disconnect(old(View()))
    {
      isConnected := false;
      pingOutstanding := false;
      log := log + [Disconnected];
    }

    /** The common course of MQTTSubscribe, MQTTUnsubscribe and MQTTPublish up to the answer. */
    method Request(needsId: bool, sendOk: bool, answer: Option<nat>, rs: seq<Round>) returns (rc: int)
      requires Valid() && RoundsOk(rs) && (answer.Some? ==> answer.value in AWAITED)
      modifies this
      ensures Valid() && Outcome(View(), rc) == MqttSession.Request(old(View()), needsId, sendOk, answer, rs)
    {
      if !isConnected {
        return FAILURE;
      }
      if needsId {
        var _ := GetNextPacketId();
      }
      if !sendOk {
        return FAILURE;
      }
      if answer.None? {
        return 0;
      }
      rc := WaitFor(answer.value, rs);
    }
  }
}
