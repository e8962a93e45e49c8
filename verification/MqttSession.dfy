/**
 The MQTT client's session: acknowledgement flags, keep-alive, connecting and packet ids, as a machine
 over the rounds of reading a packet and looking at the timers. Packets, send results and timer states
 are inputs; sends succeed or fail as a whole.
 */
module MqttSession {
  import opened Bytes
  import opened MqttPublish

  const PUBACK: nat := 4
  const PUBREC: nat := 5
  const PUBCOMP: nat := 7
  const SUBACK: nat := 9
  const UNSUBACK: nat := 11
  const PINGRESP: nat := 13
  const NO_PACKET: nat := 65535
  const FAILURE: int := -1
  const MAX_PACKET_ID: nat := 65535

  /** The packet types waited for through a flag. */
  const AWAITED: set<nat> := {CONNACK, PUBACK, PUBCOMP, SUBACK, UNSUBACK}

  // ---------- what happens ----------

  /** The read buffer with a packet at its start. */
  type Packet = p: seq<Byte> | Readable(p) witness [0, 0, 0, 0, 0]

  datatype Event =
    | PacketRead(packet: Packet)
    | AckSent(ack: nat, ackId: U16)
    | PingSent
    | PingExpired
    | Connected
    | Disconnected
    | IdIssued(issued: nat)

  /** One round: the read buffer afterwards, whether a packet came, and what timers and sends say. */
  datatype Round = Round(mem: seq<Byte>, got: bool, stray: U16, ackOk: bool, pingDue: bool, pongLate: bool,
                         pingOk: bool)

  predicate RoundOk(r: Round) {
    Readable(r.mem)
  }

  datatype Session = Session(
    nextId: nat,
    keepAlive: nat,
    pingOutstanding: bool,
    connected: bool,
    acks: set<nat>,
    mem: seq<Byte>,
    log: seq<Event>)

  function Start(mem: seq<Byte>): Session {
    Session(1, 0, false, false, {}, mem, [])
  }

  // ---------- one cycle ----------

  function PacketType(r: Round): nat
    requires RoundOk(r)
  {
    if r.got then TypeOf(r.mem[0]) else NO_PACKET
  }

  function IdOf(mem: seq<Byte>): Option<U16>
    requires Readable(mem)
  {
    if TypeOf(mem[0]) == PUBLISH then
      var m := ParsePublish(mem).message;
      if m.Some? then m.value.id else None
    else ParseAck(mem).id
  }

  /** The reply a publish or a pubrec asks for; None means the round ends in failure. */
  function Reply(r: Round): Option<Event>
    requires RoundOk(r)
  {
    var id := if IdOf(r.mem).Some? then IdOf(r.mem).value else r.stray;
    if !r.ackOk then None
    else if TypeOf(r.mem[0]) == PUBREC then Some(AckSent(PUBREL, id))
    else if QosOf(r.mem[0]) == 1 then Some(AckSent(PUBACK, id))
    else if QosOf(r.mem[0]) == 2 then Some(AckSent(PUBREC, id))
    else None
  }

  function KeepAlive(s: Session, r: Round): Session {
    if s.keepAlive == 0 || !r.pingDue then s
    else if !s.pingOutstanding then
      if r.pingOk then s.(pingOutstanding := true, log := s.log + [PingSent]) else s
    else if r.pongLate then s.(connected := false, log := s.log + [PingExpired])
    else s
  }

  function Note(s: Session, e: Event): Session {
    s.(log := s.log + [e])
  }

  datatype Outcome = Outcome(s: Session, rc: int)

  datatype Reaction = Reaction(s: Session, proceed: bool, rc: int)

  /** The read packet noted, if there was one. */
  function Received(s: Session, r: Round): Session
    requires RoundOk(r)
  {
    if r.got then Note(s.(mem := r.mem), PacketRead(r.mem)) else s.(mem := r.mem)
  }

  /** What a packet asks of the client; giving up skips the keep-alive. */
  datatype Work = Flag(ty: nat) | Nothing(ty: nat) | Send(reply: Event, ty: nat) | Pong(ty: nat) | GiveUp(rc: int)

  function PublishWork(r: Round): Work
    requires RoundOk(r)
  {
    if ParsePublish(r.mem).rc != 1 then GiveUp(PUBLISH)
    else if QosOf(r.mem[0]) == 0 then Nothing(PUBLISH)
    else if Reply(r).None? then GiveUp(FAILURE)
    else Send(Reply(r).value, PUBLISH)
  }

  function PubrecWork(r: Round): Work
    requires RoundOk(r)
  {
    if ParseAck(r.mem).rc != 1 || Reply(r).None? then GiveUp(FAILURE) else Send(Reply(r).value, PUBREC)
  }

  /** The switch of cycle on the packet just read. */
  function WorkOf(r: Round): Work
    requires RoundOk(r)
  {
    var ty := PacketType(r);
    if ty in AWAITED then Flag(ty)
    else if ty == PUBLISH then PublishWork(r)
    else if ty == PUBREC then PubrecWork(r)
    else if ty == PINGRESP then Pong(ty)
    else Nothing(ty)
  }

  function Do(s: Session, w: Work): Reaction {
    match w
    case Flag(ty) => Reaction(s.(acks := s.acks + {ty}), true, ty)
    case Nothing(ty) => Reaction(s, true, ty)
    case Send(reply, ty) => Reaction(Note(s, reply), true, ty)
    case Pong(ty) => Reaction(s.(pingOutstanding := false), true, ty)
    case GiveUp(rc) => Reaction(s, false, rc)
  }

  function React(s: Session, r: Round): Reaction
    requires RoundOk(r)
  {
    Do(s, WorkOf(r))
  }

  /** cycle: read, react, then keep the connection alive unless the reaction failed. */
  function Cycle(s: Session, r: Round): Outcome
    requires RoundOk(r)
  {
    var re := React(Received(s, r), r);
    Outcome(if re.proceed then KeepAlive(re.s, r) else re.s, re.rc)
  }

  // ---------- calls ----------

  predicate RoundsOk(rs: seq<Round>) {
    forall i :: 0 <= i < |rs| ==> RoundOk(rs[i])
  }

  /** The loop of waitfor; the rounds are those before the timer runs out. */
  function WaitLoop(s: Session, ty: nat, rs: seq<Round>): Outcome
    requires RoundsOk(rs)
    decreases |rs|
  {
    if ty in s.acks then Outcome(s.(acks := s.acks - {ty}), ty)
    else if rs == [] then Outcome(s, FAILURE)
    else WaitLoop(Cycle(s, rs[0]).s, ty, rs[1..])
  }

  function WaitFor(s: Session, ty: nat, rs: seq<Round>): Outcome
    requires RoundsOk(rs)
  {
    WaitLoop(s.(acks := s.acks - {ty}), ty, rs)
  }

  function ConnackResult(mem: seq<Byte>): int
    requires Readable(mem)
  {
    var c := ParseConnack(mem);
    if c.rc != 1 then FAILURE else if c.code.Some? then c.code.value else 255
  }

  function Connect(s: Session, keepAlive: nat, sendOk: bool, rs: seq<Round>): Outcome
    requires RoundsOk(rs) && Readable(s.mem)
  {
    if s.connected then Outcome(s, FAILURE)
    else
      var s1 := s.(keepAlive := keepAlive);
      if !sendOk then Outcome(s1, FAILURE)
      else
        var w := WaitFor(s1, CONNACK, rs);
        WaitKeepsReadable(s1.(acks := s1.acks - {CONNACK}), CONNACK, rs);
        var rc := if w.rc == CONNACK then ConnackResult(w.s.mem) else FAILURE;
        if rc == 0 then Outcome(Note(w.s.(connected := true), Connected), rc) else Outcome(w.s, rc)
  }

  function Disconnect(s: Session): Session {
    Note(s.(connected := false, pingOutstanding := false), Disconnected)
  }

  function NextId(id: nat): nat {
    if id == MAX_PACKET_ID then 1 else id + 1
  }

  /** Subscribe, unsubscribe or publish: a packet id if one is needed, the send, the wait for the answer. */
  function Request(s: Session, needsId: bool, sendOk: bool, answer: Option<nat>, rs: seq<Round>): Outcome
    requires RoundsOk(rs)
  {
    if !s.connected then Outcome(s, FAILURE)
    else
      var s1 := if needsId then Note(s.(nextId := NextId(s.nextId)), IdIssued(NextId(s.nextId))) else s;
      if !sendOk then Outcome(s1, FAILURE)
      else if answer.None? then Outcome(s1, 0)
      else WaitFor(s1, answer.value, rs)
  }

  datatype Call =
    | DoCycle(r: Round)
    | DoConnect(keepAlive: nat, sendOk: bool, rs: seq<Round>)
    | DoDisconnect
    | DoRequest(needsId: bool, sendOk: bool, answer: Option<nat>, rs: seq<Round>)

  predicate CallOk(c: Call) {
    match c
    case DoCycle(r) => RoundOk(r)
    case DoConnect(_, _, rs) => RoundsOk(rs)
    case DoDisconnect => true
    case DoRequest(_, _, _, rs) => RoundsOk(rs)
  }

  function Step(s: Session, c: Call): Session
    requires CallOk(c) && Readable(s.mem)
  {
    match c
    case DoCycle(r) => Cycle(s, r).s
    case DoConnect(k, ok, rs) => Connect(s, k, ok, rs).s
    case DoDisconnect => Disconnect(s)
    case DoRequest(n, ok, a, rs) => Request(s, n, ok, a, rs).s
  }

  lemma {:induction false} WaitKeepsReadable(s: Session, ty: nat, rs: seq<Round>)
    requires RoundsOk(rs) && Readable(s.mem)
    ensures Readable(WaitLoop(s, ty, rs).s.mem)
    decreases |rs|
  {
    if ty !in s.acks && rs != [] {
      assert RoundOk(rs[0]);
      WaitKeepsReadable(Cycle(s, rs[0]).s, ty, rs[1..]);
    }
  }

  // ---------- what the log must look like ----------

  function Last(log: seq<Event>): Event
    requires log != []
  {
    log[|log| - 1]
  }

  function Init(log: seq<Event>): seq<Event>
    requires log != []
  {
    log[..|log| - 1]
  }

  /** A ping is out that has not been answered, nor ended by a disconnect. */
  predicate PingOpen(log: seq<Event>) {
    log != [] && (Last(log).PingSent? || (!PingClosed(Last(log)) && PingOpen(Init(log))))
  }

  predicate PingClosed(e: Event) {
    e.Disconnected? || (e.PacketRead? && TypeOf(e.packet[0]) == PINGRESP)
  }

  predicate Up(log: seq<Event>) {
    log != [] && (Last(log).Connected? || (!Last(log).Disconnected? && !Last(log).PingExpired? && Up(Init(log))))
  }

  function LastRead(log: seq<Event>): (r: Option<Event>)
    ensures r.Some? ==> r.value.PacketRead?
  {
    if log == [] then None else if Last(log).PacketRead? then Some(Last(log)) else LastRead(Init(log))
  }

  function LastId(log: seq<Event>): nat {
    if log == [] then 1 else if Last(log).IdIssued? then Last(log).issued else LastId(Init(log))
  }

  /** The acknowledgement a packet asks for, by type and QoS bits of its first byte, with its packet id. */
  predicate Answers(packet: Packet, ack: nat, id: U16) {
    && (IdOf(packet).Some? ==> IdOf(packet).value == id)
    && (if TypeOf(packet[0]) == PUBREC then ack == PUBREL
        else
          && TypeOf(packet[0]) == PUBLISH
          && (if packet[0] / 2 % 4 == 1 then ack == PUBACK else packet[0] / 2 % 4 == 2 && ack == PUBREC))
  }

  /** The rule each event obeys, given everything before it. */
  predicate Permitted(before: seq<Event>, e: Event) {
    match e
    case PingSent => !PingOpen(before)
    case Connected =>
      && !Up(before) && LastRead(before).Some?
      && Accepting(LastRead(before).value.packet)
    case PingExpired => PingOpen(before)
    case IdIssued(id) => id == NextId(LastId(before))
    case AckSent(ty, id) => before != [] && Last(before).PacketRead? && Answers(Last(before).packet, ty, id)
    case _ => true
  }

  predicate Lawful(log: seq<Event>) {
    log != [] ==> Lawful(Init(log)) && Permitted(Init(log), Last(log))
  }

  /** The fields say what the log says. */
  ghost predicate Good(s: Session) {
    && Lawful(s.log) && Readable(s.mem)
    && s.pingOutstanding == PingOpen(s.log) && s.connected == Up(s.log) && s.nextId == LastId(s.log)
  }

  lemma Snoc(log: seq<Event>, e: Event)
    ensures Init(log + [e]) == log && Last(log + [e]) == e
  {
  }

  lemma KeepAliveGood(s: Session, r: Round)
    requires Good(s)
    ensures Good(KeepAlive(s, r))
    ensures LastRead(KeepAlive(s, r).log) == LastRead(s.log)
    ensures KeepAlive(s, r).mem == s.mem && KeepAlive(s, r).acks == s.acks
  {
    Snoc(s.log, PingSent);
    Snoc(s.log, PingExpired);
  }

  /** Good, except that an answered ping may not have been cleared yet. */
  ghost predicate AlmostGood(s: Session, ty: nat) {
    && Lawful(s.log) && Readable(s.mem)
    && (ty != PINGRESP ==> s.pingOutstanding == PingOpen(s.log)) && (ty == PINGRESP ==> !PingOpen(s.log))
    && s.connected == Up(s.log) && s.nextId == LastId(s.log)
  }

  lemma NoteRead(s: Session, mem: seq<Byte>, e: Event)
    requires Good(s) && e.PacketRead? && Readable(mem)
    ensures AlmostGood(Note(s.(mem := mem), e), TypeOf(e.packet[0]))
    ensures LastRead(s.log + [e]) == Some(e) && Last(s.log + [e]) == e
  {
    Snoc(s.log, e);
  }

  lemma NoteReply(s: Session, e: Event)
    requires Good(s) && e.AckSent? && Permitted(s.log, e)
    ensures Good(Note(s, e)) && LastRead(s.log + [e]) == LastRead(s.log)
  {
    Snoc(s.log, e);
  }

  lemma ReplyPermitted(s: Session, r: Round)
    requires RoundOk(r) && r.got && Reply(r).Some? && s.log != [] && Last(s.log) == PacketRead(r.mem)
    requires TypeOf(r.mem[0]) == PUBLISH || TypeOf(r.mem[0]) == PUBREC
    ensures Permitted(s.log, Reply(r).value) && Reply(r).value.AckSent?
  {
  }

  /** What the work can be: a flag for the packet read, a permitted reply, and a pong only for a ping response. */
  lemma WorkFacts(s: Session, r: Round)
    requires RoundOk(r) && (r.got ==> s.log != [] && Last(s.log) == PacketRead(r.mem))
    ensures var w := WorkOf(r);
            && (w.Flag? <==> PacketType(r) in AWAITED) && (w.Flag? ==> w.ty == PacketType(r))
            && (w.Pong? <==> PacketType(r) == PINGRESP)
            && (w.Send? ==> w.reply.AckSent? && Permitted(s.log, w.reply))
  {
    var ty := PacketType(r);
    if (ty == PUBLISH || ty == PUBREC) && Reply(r).Some? {
      ReplyPermitted(s, r);
    }
  }

  lemma DoGood(s: Session, w: Work, ty: nat)
    requires AlmostGood(s, ty) && (w.Pong? <==> ty == PINGRESP)
    requires w.Send? ==> w.reply.AckSent? && Permitted(s.log, w.reply)
    ensures var s' := Do(s, w).s;
            && Good(s') && s'.mem == s.mem && LastRead(s'.log) == LastRead(s.log)
            && s'.acks == s.acks + if w.Flag? then {w.ty} else {}
  {
    if w.Send? {
      NoteReply(s, w.reply);
    }
  }

  lemma ReactGood(s: Session, r: Round)
    requires RoundOk(r) && AlmostGood(s, PacketType(r))
    requires r.got ==> s.log != [] && Last(s.log) == PacketRead(r.mem)
    ensures var s' := React(s, r).s;
            && Good(s') && s'.mem == s.mem && LastRead(s'.log) == LastRead(s.log)
            && s'.acks <= s.acks + {PacketType(r)} && (PacketType(r) !in AWAITED ==> s'.acks == s.acks)
  {
    WorkFacts(s, r);
    DoGood(s, WorkOf(r), PacketType(r));
  }

  lemma CycleGood(s: Session, r: Round)
    requires Good(s) && RoundOk(r)
    ensures Good(Cycle(s, r).s)
    ensures var s' := Cycle(s, r).s;
            && s'.mem == r.mem
            && (r.got ==> LastRead(s'.log) == Some(PacketRead(r.mem)))
            && (forall ty :: ty in s'.acks && ty !in s.acks ==> r.got && ty == TypeOf(r.mem[0]))
  {
    NoteRead(s, r.mem, PacketRead(r.mem));
    var s2 := Received(s, r);
    ReactGood(s2, r);
    KeepAliveGood(React(s2, r).s, r);
  }

  /** waitfor keeps the laws, and reports a type only if the last packet read had it. */
  lemma {:induction false} WaitGood(s: Session, ty: nat, rs: seq<Round>)
    requires Good(s) && RoundsOk(rs)
    requires ty in s.acks ==> LastRead(s.log) == Some(PacketRead(s.mem)) && TypeOf(s.mem[0]) == ty
    ensures var w := WaitLoop(s, ty, rs);
            && Good(w.s)
            && (w.rc == ty ==> LastRead(w.s.log) == Some(PacketRead(w.s.mem)) && TypeOf(w.s.mem[0]) == ty)
    decreases |rs|
  {
    if ty !in s.acks && rs != [] {
      assert RoundOk(rs[0]);
      CycleGood(s, rs[0]);
      WaitGood(Cycle(s, rs[0]).s, ty, rs[1..]);
    }
  }

  lemma ConnectGood(s: Session, keepAlive: nat, sendOk: bool, rs: seq<Round>)
    requires Good(s) && RoundsOk(rs)
    ensures Good(Connect(s, keepAlive, sendOk, rs).s)
  {
    var s1 := s.(keepAlive := keepAlive);
    var s2 := s1.(acks := s1.acks - {CONNACK});
    if !s.connected && sendOk {
      WaitGood(s2, CONNACK, rs);
      WaitStaysDown(s2, CONNACK, rs);
      var w := WaitFor(s1, CONNACK, rs);
      Snoc(w.s.log, Connected);
      if w.rc == CONNACK && ConnackResult(w.s.mem) == 0 {
        CodeIsByte(w.s.mem);
      }
    }
  }

  /** While it is not connected, waiting cannot connect it. */
  lemma {:induction false} WaitStaysDown(s: Session, ty: nat, rs: seq<Round>)
    requires RoundsOk(rs) && !s.connected
    ensures !WaitLoop(s, ty, rs).s.connected
    decreases |rs|
  {
    if ty !in s.acks && rs != [] {
      assert RoundOk(rs[0]);
      WaitStaysDown(Cycle(s, rs[0]).s, ty, rs[1..]);
    }
  }

  lemma DisconnectGood(s: Session)
    requires Good(s)
    ensures Good(Disconnect(s))
  {
    Snoc(s.log, Disconnected);
  }

  lemma IssueGood(s: Session)
    requires Good(s)
    ensures Good(Note(s.(nextId := NextId(s.nextId)), IdIssued(NextId(s.nextId))))
  {
    Snoc(s.log, IdIssued(NextId(s.nextId)));
  }

  lemma RequestGood(s: Session, needsId: bool, sendOk: bool, answer: Option<nat>, rs: seq<Round>)
    requires Good(s) && RoundsOk(rs)
    ensures Good(Request(s, needsId, sendOk, answer, rs).s)
  {
    IssueGood(s);
    var s1 := if needsId then Note(s.(nextId := NextId(s.nextId)), IdIssued(NextId(s.nextId))) else s;
    if answer.Some? {
      WaitGood(s1.(acks := s1.acks - {answer.value}), answer.value, rs);
    }
  }

  lemma StepGood(s: Session, c: Call)
    requires Good(s) && CallOk(c)
    ensures Good(Step(s, c))
  {
    match c
    case DoCycle(r) => CycleGood(s, r);
    case DoConnect(k, ok, rs) => ConnectGood(s, k, ok, rs);
    case DoDisconnect => DisconnectGood(s);
    case DoRequest(n, ok, a, rs) => RequestGood(s, n, ok, a, rs);
  }

  ghost predicate Reaches(s: Session, calls: seq<Call>, s': Session)
    requires Readable(s.mem)
    decreases |calls|
  {
    if calls == [] then s' == s
    else CallOk(calls[0]) && Readable(Step(s, calls[0]).mem) && Reaches(Step(s, calls[0]), calls[1..], s')
  }

  lemma {:induction false} RunGood(s: Session, calls: seq<Call>, s': Session)
    requires Good(s) && Reaches(s, calls, s')
    ensures Good(s')
    decreases |calls|
  {
    if calls != [] {
      StepGood(s, calls[0]);
      RunGood(Step(s, calls[0]), calls[1..], s');
    }
  }

  /**
   Every run of the client obeys the laws of its log: a ping goes out only when none is open; the client
   becomes connected only when it was not and the last packet read was a CONNACK with code 0; it stops
   being connected only through a disconnect or an expired ping; every acknowledgement answers the
   packet just read, with its id; packet ids follow one another. The fields agree with the log.
   */
  lemma EveryRunLawful(mem: seq<Byte>, calls: seq<Call>, s: Session)
    requires Readable(mem) && Reaches(Start(mem), calls, s)
    ensures Lawful(s.log)
    ensures s.pingOutstanding == PingOpen(s.log) && s.connected == Up(s.log) && s.nextId == LastId(s.log)
  {
    RunGood(Start(mem), calls, s);
  }

  // ---------- consequences for positions in the log ----------

  lemma {:induction false} LawfulAt(log: seq<Event>, i: nat)
    requires Lawful(log) && i < |log|
    ensures Lawful(log[..i]) && Permitted(log[..i], log[i])
    decreases |log|
  {
    if i < |log| - 1 {
      LawfulAt(Init(log), i);
      assert Init(log)[..i] == log[..i];
    }
  }

  lemma {:induction false} PingStaysOpen(log: seq<Event>, i: nat, j: nat)
    requires i < j <= |log| && log[i].PingSent? && forall k :: i < k < j ==> !PingClosed(log[k])
    ensures PingOpen(log[..j])
    decreases j
  {
    assert Init(log[..j]) == log[..j - 1] && Last(log[..j]) == log[j - 1];
    if i < j - 1 {
      PingStaysOpen(log, i, j - 1);
    }
  }

  /** Two pings are always separated by a ping response or a disconnect. */
  lemma PingsSeparated(log: seq<Event>, i: nat, j: nat)
    requires Lawful(log) && i < j < |log| && log[i].PingSent? && log[j].PingSent?
    ensures exists k :: i < k < j && PingClosed(log[k])
  {
    LawfulAt(log, j);
    if forall k :: i < k < j ==> !PingClosed(log[k]) {
      PingStaysOpen(log, i, j);
    }
  }

  // ---------- packet ids ----------

  /** The id issued `k` requests after id `id`. */
  function After(id: nat, k: nat): nat {
    if k == 0 then id else NextId(After(id, k - 1))
  }

  lemma {:induction false} AfterFormula(id: nat, k: nat)
    requires 1 <= id <= MAX_PACKET_ID
    ensures After(id, k) == (id - 1 + k) % MAX_PACKET_ID + 1
  {
    if k > 0 {
      AfterFormula(id, k - 1);
    }
  }

  lemma ModIs(n: nat, q: nat, r: nat)
    requires n == q * MAX_PACKET_ID + r && r < MAX_PACKET_ID
    ensures n % MAX_PACKET_ID == r
  {
  }

  lemma SameResidue(x: nat, d: nat)
    ensures (x + d) % MAX_PACKET_ID == x % MAX_PACKET_ID <==> d % MAX_PACKET_ID == 0
  {
    var r, e, q := x % MAX_PACKET_ID, d % MAX_PACKET_ID, x / MAX_PACKET_ID + d / MAX_PACKET_ID;
    if r + e < MAX_PACKET_ID {
      ModIs(x + d, q, r + e);
    } else {
      ModIs(x + d, q + 1, r + e - MAX_PACKET_ID);
    }
  }

  /** Ids are legal (section 2.3.1 of MQTT 3.1.1), and any 65535 consecutive ones are distinct. */
  lemma IdsDistinct(id: nat, i: nat, j: nat)
    requires 1 <= id <= MAX_PACKET_ID && i < j
    ensures 1 <= After(id, i) <= MAX_PACKET_ID
    ensures After(id, i) == After(id, j) <==> (j - i) % MAX_PACKET_ID == 0
  {
    var x, d := id - 1 + i, j - i;
    AfterFormula(id, i);
    AfterFormula(id, j);
    assert After(id, i) == x % MAX_PACKET_ID + 1 && After(id, j) == (x + d) % MAX_PACKET_ID + 1;
    SameResidue(x, d);
  }

  /** The ids in a log, in order. */
  function Ids(log: seq<Event>): seq<nat> {
    if log == [] then [] else if Last(log).IdIssued? then Ids(Init(log)) + [Last(log).issued] else Ids(Init(log))
  }

  lemma {:induction false} IdsFollow(log: seq<Event>)
    requires Lawful(log)
    ensures LastId(log) == After(1, |Ids(log)|)
    ensures forall k :: 0 <= k < |Ids(log)| ==> Ids(log)[k] == After(1, k + 1)
    decreases |log|
  {
    if log != [] {
      IdsFollow(Init(log));
    }
  }

  lemma IdsApart(i: nat, j: nat)
    requires i < j
    ensures 1 <= After(1, i) <= MAX_PACKET_ID && (j - i < MAX_PACKET_ID ==> After(1, i) != After(1, j))
  {
    IdsDistinct(1, i, j);
    if j - i < MAX_PACKET_ID {
      Small(j - i);
    }
  }

  lemma Small(d: nat)
    requires 0 < d < MAX_PACKET_ID
    ensures d % MAX_PACKET_ID != 0
  {
  }

  lemma LogIds(log: seq<Event>, i: nat, j: nat)
    requires Lawful(log) && i < j < |Ids(log)|
    ensures 1 <= Ids(log)[i] <= MAX_PACKET_ID && (j - i < MAX_PACKET_ID ==> Ids(log)[i] != Ids(log)[j])
  {
    IdsFollow(log);
    IdsApart(i + 1, j + 1);
  }

  /** In every run, issued ids are between 1 and 65535, and equal ids are at least 65535 requests apart. */
  lemma EveryRunIds(mem: seq<Byte>, calls: seq<Call>, s: Session, i: nat, j: nat)
    requires Readable(mem) && Reaches(Start(mem), calls, s) && i < j < |Ids(s.log)|
    ensures 1 <= Ids(s.log)[i] <= MAX_PACKET_ID
    ensures j - i < MAX_PACKET_ID ==> Ids(s.log)[i] != Ids(s.log)[j]
  {
    RunGood(Start(mem), calls, s);
    LogIds(s.log, i, j);
  }
}
