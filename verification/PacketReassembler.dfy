/**
 The receiving half of the packet fragmenter and the receive side of the H4 transport, in place on packet
 buffers: the table of unfinished packets, what becomes of every buffer, and the loop that drains the queue.
 */
module PacketReassembler {
  import opened Bytes
  import opened AclFraming
  import opened PacketFragmenter

  const EVENT_ACL_IN: U16 := 0x1100
  const EVENT_SCO_IN: U16 := 0x1200
  const EVENT_EVT_IN: U16 := 0x1000

  // ---------- receive checks ----------

  datatype Verdict = Dropped | Acl(bytes: seq<Byte>) | Sco(bytes: seq<Byte>) | Event(bytes: seq<Byte>)

  const TYPE_ACL: Byte := 2
  const TYPE_SCO: Byte := 3
  const TYPE_EVENT: Byte := 4
  const BLE_EVENT: Byte := 0x3e

  function HeaderSize(ty: Byte): nat {
    if ty == TYPE_ACL then 4 else if ty == TYPE_SCO then 3 else 2
  }

  /** A header whose last byte is the length of what follows. */
  predicate ExactByteLength(b: seq<Byte>, header: nat) {
    0 < header <= |b| && b[header - 1] + header == |b|
  }

  /** The checks made on a received buffer: packet type, header present, length field exact. */
  function Judge(raw: seq<Byte>): (v: Verdict)
    requires 1 <= |raw| < 0x10000
    ensures v.Acl? <==> raw[0] == 2 && |raw| >= 5 && raw[3] as int + 256 * raw[4] as int == |raw| - 5
    ensures v.Acl? ==> Consistent(raw[1..])
    ensures v.Sco? <==> raw[0] == 3 && |raw| >= 4 && raw[3] == |raw| - 4
    ensures v.Event? <==> raw[0] == 4 && |raw| >= 3 && raw[2] == |raw| - 3
    ensures !v.Dropped? ==> v.bytes == raw[1..]
  {
    var ty, rest := raw[0], raw[1..];
    if ty == TYPE_ACL && Consistent(rest) then Acl(rest)
    else if ty == TYPE_SCO && ExactByteLength(rest, 3) then Sco(rest)
    else if ty == TYPE_EVENT && ExactByteLength(rest, 2) then Event(rest)
    else Dropped
  }

  lemma JudgeByLength(raw: seq<Byte>, rest: seq<Byte>, length: int)
    requires 1 <= |raw| < 0x10000 && rest == raw[1..] && TYPE_ACL <= raw[0] <= TYPE_EVENT
    requires |rest| >= HeaderSize(raw[0])
    requires length == if raw[0] == TYPE_ACL then LengthField(rest) else rest[HeaderSize(raw[0]) - 1]
    ensures Judge(raw) == if length + HeaderSize(raw[0]) != |rest| then Dropped
                          else if raw[0] == TYPE_ACL then Acl(rest)
                          else if raw[0] == TYPE_SCO then Sco(rest)
                          else Event(rest)
  {
  }

  // ---------- what a receive queue comes to ----------

  /** A buffer as the controller filled it, and the two bytes behind its packet in memory. */
  datatype Raw = Raw(bytes: seq<Byte>, past: (Byte, Byte))

  predicate RawOk(raw: Raw) {
    1 <= |raw.bytes| < 0x10000
  }

  /** What is handed up: a whole ACL packet, or an SCO packet as it came. */
  datatype Delivery = AclUp(bytes: seq<Byte>) | ScoUp(bytes: seq<Byte>)

  /** The table after a step, with what is handed up. */
  datatype Received = Received(table: Table, up: seq<Delivery>)

  function AllAcl(out: seq<seq<Byte>>): seq<Delivery> {
    seq(|out|, i requires 0 <= i < |out| => AclUp(out[i]))
  }

  /** ACL packets go through the table, SCO packets straight up, events to the event filter. */
  function Receive(t: Table, raw: Raw): Received
    requires RawOk(raw)
  {
    match Judge(raw.bytes)
    case Acl(b) => var s := Step(t, Inbound(b, raw.past)); Received(s.table, AllAcl(s.out))
    case Sco(b) => Received(t, [ScoUp(b)])
    case Event(_) => Received(t, [])
    case Dropped => Received(t, [])
  }

  predicate ReceiveFits(t: Table, raw: Raw)
    requires RawOk(raw)
  {
    Judge(raw.bytes).Acl? ==> Fits(t, Inbound(Judge(raw.bytes).bytes, raw.past))
  }

  predicate AllRawOk(raws: seq<Raw>) {
    forall i :: 0 <= i < |raws| ==> RawOk(raws[i])
  }

  /** With what was handed up before. */
  function After(before: seq<Delivery>, r: Received): Received {
    Received(r.table, before + r.up)
  }

  function ReceiveAll(t: Table, raws: seq<Raw>): Received
    requires AllRawOk(raws)
    decreases |raws|
  {
    if raws == [] then Received(t, [])
    else
      var r := Receive(t, raws[0]);
      After(r.up, ReceiveAll(r.table, raws[1..]))
  }

  predicate AllFit(t: Table, raws: seq<Raw>)
    requires AllRawOk(raws)
    decreases |raws|
  {
    raws == [] || (ReceiveFits(t, raws[0]) && AllFit(Receive(t, raws[0]).table, raws[1..]))
  }

  /** The ACL packets that pass the checks. */
  function Accepted(raws: seq<Raw>): (ins: seq<Inbound>)
    requires AllRawOk(raws)
    ensures AllConsistent(ins)
  {
    if raws == [] then []
    else if Judge(raws[0].bytes).Acl? then
      [Inbound(Judge(raws[0].bytes).bytes, raws[0].past)] + Accepted(raws[1..])
    else Accepted(raws[1..])
  }

  /** The SCO packet in a buffer that passes the checks, read off the bytes. */
  function ScoIn(b: seq<Byte>): seq<seq<Byte>> {
    if |b| >= 4 && b[0] == 3 && b[3] == |b| - 4 then [b[1..]] else []
  }

  function AcceptedSco(raws: seq<Raw>): seq<seq<Byte>> {
    if raws == [] then [] else ScoIn(raws[0].bytes) + AcceptedSco(raws[1..])
  }

  /** The ACL packets handed up, or the others, in order. */
  function OfKind(up: seq<Delivery>, acl: bool): seq<seq<Byte>> {
    if up == [] then []
    else OfKind(up[..|up| - 1], acl) + if up[|up| - 1].AclUp? == acl then [up[|up| - 1].bytes] else []
  }

  function AclOf(up: seq<Delivery>): seq<seq<Byte>> {
    OfKind(up, true)
  }

  function ScoOf(up: seq<Delivery>): seq<seq<Byte>> {
    OfKind(up, false)
  }

  lemma {:induction false} OfKindPlus(a: seq<Delivery>, b: seq<Delivery>, acl: bool)
    ensures OfKind(a + b, acl) == OfKind(a, acl) + OfKind(b, acl)
    decreases |b|
  {
    if b == [] {
      assert a + b == a;
    } else {
      var init, last := b[..|b| - 1], b[|b| - 1];
      assert (a + b)[..|a + b| - 1] == a + init;
      OfKindPlus(a, init, acl);
      PlusAssoc(OfKind(a, acl), OfKind(init, acl), if last.AclUp? == acl then [last.bytes] else []);
    }
  }

  lemma UpPlus(a: seq<Delivery>, b: seq<Delivery>)
    ensures AclOf(a + b) == AclOf(a) + AclOf(b) && ScoOf(a + b) == ScoOf(a) + ScoOf(b)
  {
    OfKindPlus(a, b, true);
    OfKindPlus(a, b, false);
  }

  lemma {:induction false} AllAclIs(out: seq<seq<Byte>>)
    ensures AclOf(AllAcl(out)) == out && ScoOf(AllAcl(out)) == []
    decreases |out|
  {
    if out != [] {
      var init := out[..|out| - 1];
      assert AllAcl(out)[..|out| - 1] == AllAcl(init);
      AllAclIs(init);
    }
  }

  lemma ScoIs(b: seq<Byte>)
    ensures AclOf([ScoUp(b)]) == [] && ScoOf([ScoUp(b)]) == [b]
  {
    var up := [ScoUp(b)];
    assert up[..|up| - 1] == [];
    assert OfKind(up, true) == OfKind([], true) + [] && OfKind(up, false) == OfKind([], false) + [b];
  }

  /** What is left of the queue from `i` on fits, and with it the outcome is `target`. */
  ghost predicate Ahead(t: Table, before: seq<Delivery>, raws: seq<Raw>, i: nat, target: Received) {
    i <= |raws| && AllRawOk(raws) && AllFit(t, raws[i..]) && After(before, ReceiveAll(t, raws[i..])) == target
  }

  lemma NextRaw(t: Table, raws: seq<Raw>, i: nat, before: seq<Delivery>)
    requires i < |raws| && AllRawOk(raws)
    ensures var r := Receive(t, raws[i]);
            && After(before, ReceiveAll(t, raws[i..])) == After(before + r.up, ReceiveAll(r.table, raws[i + 1..]))
            && (AllFit(t, raws[i..]) <==> ReceiveFits(t, raws[i]) && AllFit(r.table, raws[i + 1..]))
  {
    assert raws[i..][0] == raws[i] && raws[i..][1..] == raws[i + 1..];
    var r := Receive(t, raws[i]);
    PlusAssoc(before, r.up, ReceiveAll(r.table, raws[i + 1..]).up);
  }

  lemma NothingLeft(t: Table, raws: seq<Raw>, before: seq<Delivery>, target: Received)
    requires Ahead(t, before, raws, |raws|, target)
    ensures target == Received(t, before)
  {
    assert raws[|raws|..] == [] && before + [] == before;
  }

  /** One buffer: its table step, its ACL deliveries and its SCO delivery. */
  lemma ReceiveOne(t: Table, raw: Raw)
    requires RawOk(raw)
    ensures var r, sco := Receive(t, raw), ScoIn(raw.bytes);
            if Judge(raw.bytes).Acl? then
              var s := Step(t, Inbound(raw.bytes[1..], raw.past));
              r.table == s.table && AclOf(r.up) == s.out && ScoOf(r.up) == sco == []
            else r.table == t && AclOf(r.up) == [] && ScoOf(r.up) == sco
  {
    match Judge(raw.bytes)
    case Acl(b) => AllAclIs(Step(t, Inbound(b, raw.past)).out);
    case Sco(b) => ScoIs(b);
    case Event(_) =>
    case Dropped =>
  }

  lemma AcceptedFirst(raws: seq<Raw>)
    requires AllRawOk(raws) && raws != []
    ensures AcceptedSco(raws) == ScoIn(raws[0].bytes) + AcceptedSco(raws[1..])
    ensures var v := Judge(raws[0].bytes);
            if v.Acl? then Accepted(raws) == [Inbound(v.bytes, raws[0].past)] + Accepted(raws[1..])
            else Accepted(raws) == Accepted(raws[1..])
  {
  }

  lemma RunFirst(t: Table, p: Inbound, rest: seq<Inbound>)
    requires Consistent(p.bytes) && AllConsistent(rest)
    ensures AllConsistent([p] + rest)
    ensures var s := Step(t, p);
            && Run(t, [p] + rest) == TableStep(Run(s.table, rest).table, s.out + Run(s.table, rest).out)
            && (RunFits(t, [p] + rest) <==> Fits(t, p) && RunFits(s.table, rest))
  {
    assert ([p] + rest)[1..] == rest;
  }

  /** What a queue of raw buffers comes to, said of the run of its ACL packets. */
  ghost predicate Agrees(t: Table, raws: seq<Raw>)
    requires AllRawOk(raws)
  {
    var r, run := ReceiveAll(t, raws), Run(t, Accepted(raws));
    && r.table == run.table && AclOf(r.up) == run.out && ScoOf(r.up) == AcceptedSco(raws)
    && (AllFit(t, raws) <==> RunFits(t, Accepted(raws)))
  }

  lemma AgreesStep(t: Table, raws: seq<Raw>)
    requires AllRawOk(raws) && raws != [] && Agrees(Receive(t, raws[0]).table, raws[1..])
    ensures Agrees(t, raws)
  {
    var first, v := Receive(t, raws[0]), Judge(raws[0].bytes);
    ReceiveOne(t, raws[0]);
    AcceptedFirst(raws);
    UpPlus(first.up, ReceiveAll(first.table, raws[1..]).up);
    if v.Acl? {
      RunFirst(t, Inbound(v.bytes, raws[0].past), Accepted(raws[1..]));
    }
  }

  /**
   Draining a queue is the run over its accepted ACL packets: the same table, exactly the run's packets
   handed up as ACL, in order, and beside them exactly the accepted SCO packets.
   */
  lemma {:induction false} ReceiveIsRun(t: Table, raws: seq<Raw>)
    requires AllRawOk(raws)
    ensures var r, run := ReceiveAll(t, raws), Run(t, Accepted(raws));
            r.table == run.table && AclOf(r.up) == run.out && ScoOf(r.up) == AcceptedSco(raws)
    ensures AllFit(t, raws) <==> RunFits(t, Accepted(raws))
    decreases |raws|
  {
    if raws != [] {
      ReceiveIsRun(Receive(t, raws[0]).table, raws[1..]);
      AgreesStep(t, raws);
    }
  }

  /**
   The round trip through the receive queue: when its accepted ACL packets are any interleaving of the
   senders' fragment streams, whatever other buffers lie between them, draining it hands up each
   connection's packets, complete and in order, and leaves nothing unfinished.
   */
  lemma DrainRoundTrip(senders: map<int, Sender>, raws: seq<Raw>)
    requires AllRawOk(raws) && Interleaving(Accepted(raws), senders)
    ensures AllFit(map[], raws) && ReceiveAll(map[], raws).table == map[]
    ensures var up := AclOf(ReceiveAll(map[], raws).up);
            && (forall h :: h in senders ==> OutOfHandle(up, h) == senders[h].packets)
            && (forall h :: h !in senders ==> OutOfHandle(up, h) == [])
  {
    ReceiveIsRun(map[], raws);
    InterleavedRoundTrip(senders, Accepted(raws));
  }

  // ---------- reassembly ----------

  /** By the event of the buffer, the upper layer knows what it gets. */
  function Handed(event: U16, bytes: seq<Byte>): Delivery {
    if EventClass(event) == EVENT_ACL_IN then AclUp(bytes) else ScoUp(bytes)
  }

  /** A table step with everything handed up so far. */
  function Recorded(before: seq<Delivery>, s: TableStep): Received {
    Received(s.table, before + AllAcl(s.out))
  }

  lemma StepOfStart(t: Table, b: Inbound)
    requires Consistent(b.bytes) && IsStart(b.bytes)
    ensures var h, full := Handle(HandleField(b.bytes)), FullLength(b);
            Step(t, b) == if full <= |b.bytes| then TableStep(t - {h}, [b.bytes])
                          else TableStep((t - {h})[h := Partial(full, Put16(b.bytes, 2, full - PREAMBLE))], [])
  {
    var h, full := Handle(HandleField(b.bytes)), FullLength(b);
    if full > |b.bytes| {
      HeaderSlices(b.bytes, 0, full - PREAMBLE, |b.bytes|);
      assert Rewritten(b) == Put16(b.bytes, 2, full - PREAMBLE);
      assert (t - {h})[h := Partial(full, Rewritten(b))] == t[h := Partial(full, Rewritten(b))];
    }
  }

  lemma StepOfContinuation(t: Table, b: Inbound)
    requires Consistent(b.bytes) && !IsStart(b.bytes)
    ensures var h := Handle(HandleField(b.bytes));
            if h !in t then Step(t, b) == TableStep(t, [])
            else
              var got := t[h].got + Take(Payload(b.bytes), t[h].expected - |t[h].got|);
              Step(t, b) == if |got| == t[h].expected then TableStep(t - {h}, [got])
                            else TableStep(t[h := Partial(t[h].expected, got)], [])
  {
    var h := Handle(HandleField(b.bytes));
    assert h !in t ==> t - {h} == t;
  }

  /** The buffers in a table. */
  ghost function Held(m: map<int, Packet>): set<Packet> {
    set h | h in m :: m[h]
  }

  lemma HeldWithout(m: map<int, Packet>, h: int)
    requires h in m && forall g :: g in m && g != h ==> m[g] != m[h]
    ensures Held(m - {h}) == Held(m) - {m[h]}
  {
    var n := m - {h};
    forall x | x in Held(m) - {m[h]} ensures x in Held(n) {
      var g :| g in m && m[g] == x;
      assert g in n && n[g] == x;
    }
  }

  lemma HeldWith(m: map<int, Packet>, h: int, q: Packet)
    requires h !in m
    ensures Held(m[h := q]) == Held(m) + {q}
  {
    var n := m[h := q];
    assert h in n && n[h] == q;
    forall x | x in Held(m) ensures x in Held(n) {
      var g :| g in m && m[g] == x;
      assert g in n && n[g] == x;
    }
  }

  /** Different buffers with different storage. */
  ghost predicate Separate(queue: seq<Packet>) {
    forall i, j :: 0 <= i < j < |queue| ==> queue[i] != queue[j] && queue[i].data != queue[j].data
  }

  ghost function Rest(queue: seq<Packet>, i: nat): set<Packet> {
    set j | i <= j < |queue| :: queue[j]
  }

  /** What became of a buffer: an event is passed on, any other has been disposed of. */
  ghost predicate Dealt(p: Packet, bytes: seq<Byte>, events: set<Packet>, taken: set<Packet>, disposed: set<Packet>)
    requires 1 <= |bytes| < 0x10000
  {
    if Judge(bytes).Event? then p in events && p !in taken else p in disposed && p !in events
  }

  /** The first `i` buffers have been dealt with, and `events` are exactly the events among them. */
  ghost predicate PassedOn(queue: seq<Packet>, raws: seq<Raw>, i: nat, events: set<Packet>, taken: set<Packet>,
                           disposed: set<Packet>)
    requires i <= |queue| == |raws| && AllRawOk(raws)
  {
    && (forall x :: x in events ==> x in queue[..i] && x !in taken)
    && (forall j :: 0 <= j < i ==> Dealt(queue[j], raws[j].bytes, events, taken, disposed))
  }

  lemma PassedOnNext(queue: seq<Packet>, raws: seq<Raw>, i: nat, events: set<Packet>, taken: set<Packet>,
                     disposed: set<Packet>, taken': set<Packet>, disposed': set<Packet>)
    requires i < |queue| == |raws| && AllRawOk(raws) && Separate(queue)
    requires PassedOn(queue, raws, i, events, taken, disposed)
    requires disposed <= disposed' && forall x :: x in events ==> x !in taken'
    requires if Judge(raws[i].bytes).Event? then queue[i] !in taken' else queue[i] in disposed'
    ensures var events' := if Judge(raws[i].bytes).Event? then events + {queue[i]} else events;
            PassedOn(queue, raws, i + 1, events', taken', disposed')
  {
    assert queue[..i + 1] == queue[..i] + [queue[i]];
    assert queue[i] !in queue[..i];
    forall j | 0 <= j < i
      ensures queue[j] != queue[i] && Dealt(queue[j], raws[j].bytes, events, taken', disposed')
    {
      assert Dealt(queue[j], raws[j].bytes, events, taken, disposed);
    }
  }

  /** A partial in its buffer: the bytes collected lie before the offset. */
  ghost predicate Holding(q: Packet, v: Partial)
    reads q, q.data
  {
    && q.len == q.data.Length == v.expected && PREAMBLE <= q.offset <= q.len
    && EventClass(q.event) == EVENT_ACL_IN
    && q.data[..q.offset] == v.got
  }

  /**
   The table of unfinished packets. `taken` are all buffers ever taken in or made here, `disposed` those
   freed or handed up: doing either demands that the buffer was not disposed of before.
   */
  class Reassembler {
    var partials: map<int, Packet>
    var delivered: seq<Delivery>
    ghost var table: Table  // the same table, by value
    ghost var taken: set<Packet>
    ghost var disposed: set<Packet>
    ghost var repr: set<object>  // every partial ever made, and its storage

    constructor ()
      ensures Valid() && table == map[] && taken == {} && disposed == {} && delivered == [] && repr == {}
    {
      partials, delivered, table := map[], [], map[];
      taken, disposed, repr := {}, {}, {};
    }

    ghost predicate Apart()
      reads this
    {
      forall h, g :: h in partials && g in partials && h != g ==>
        partials[h] != partials[g] && partials[h].data != partials[g].data
    }

    /** Nothing is lost and nothing disposed of is kept: what was taken is disposed of or in the table. */
    ghost predicate Accounted()
      reads this
    {
      taken == disposed + Held(partials) && disposed !! Held(partials)
    }

    ghost predicate Owned()
      reads this
    {
      this !in repr && forall h :: h in partials ==> partials[h] in repr && partials[h].data in repr
    }

    ghost predicate Sound()
      reads this, repr
    {
      && partials.Keys == table.Keys && Apart() && Accounted() && Owned()
      && forall h :: h in partials ==> Holding(partials[h], table[h])
    }

    ghost predicate Valid()
      reads this, repr
    {
      Sound() && forall h :: h in partials ==> partials[h].offset < partials[h].len
    }

    /** A buffer never seen here, and sharing no storage. */
    ghost predicate Stranger(p: Packet)
      reads this
    {
      p !in taken && p !in repr && p.data !in repr
    }

    /** A buffer that just came in. */
    ghost predicate Incoming(p: Packet)
      reads this, p
    {
      p.Valid() && Stranger(p)
    }

    method Free(p: Packet)
      requires p !in disposed
      modifies this`disposed, this`taken
      ensures disposed == old(disposed) + {p} && taken == old(taken) + {p}
    {
      disposed, taken := disposed + {p}, taken + {p};
    }

    method Deliver(p: Packet)
      requires p.Valid() && p !in disposed
      modifies this`disposed, this`taken, this`delivered
      ensures disposed == old(disposed) + {p} && taken == old(taken) + {p}
      ensures delivered == old(delivered) + [Handed(p.event, p.Contents())]
    {
      disposed, taken := disposed + {p}, taken + {p};
      delivered := delivered + [Handed(p.event, p.Contents())];
    }

    /** What the table holds under a handle, as a set. */
    ghost function Under(handle: int): set<Packet>
      reads this
    {
      if handle in partials then {partials[handle]} else {}
    }

    method DropUnfinished(handle: int)
      requires Valid()
      modifies this`partials, this`table, this`disposed, this`taken
      ensures Valid() && table == old(table) - {handle} && partials == old(partials) - {handle}
      ensures disposed == old(disposed) + old(Under(handle)) && taken == old(taken)
    {
      if handle in partials {
        var q := partials[handle];
        HeldWithout(partials, handle);
        partials, table := partials - {handle}, table - {handle};
        Free(q);
      }
    }

    method OpenPartial(p: Packet, handle: int, fullLength: U16)
      requires Valid() && Incoming(p) && handle !in partials && PREAMBLE <= p.len < fullLength
      requires EventClass(p.event) == EVENT_ACL_IN
      modifies this`partials, this`table, this`disposed, this`taken, this`repr
      ensures Valid() && disposed == old(disposed) + {p} && partials - {handle} == old(partials)
      ensures table == old(table)[handle := Partial(fullLength, Put16(p.Contents(), 2, fullLength - PREAMBLE))]
      ensures handle in partials && fresh(partials[handle]) && taken == old(taken) + {p, partials[handle]}
      ensures old(repr) <= repr && fresh(repr - old(repr))
    {
      var q := NewPartial(p, fullLength);
      Store(handle, q);
      Free(p);
    }

    method Store(handle: int, q: Packet)
      requires Valid() && Stranger(q) && handle !in partials
      requires q.len == q.data.Length && PREAMBLE <= q.offset < q.len && EventClass(q.event) == EVENT_ACL_IN
      modifies this`partials, this`table, this`taken, this`repr
      ensures Valid() && partials == old(partials)[handle := q] && taken == old(taken) + {q}
      ensures repr == old(repr) + {q, q.data}
      ensures table == old(table)[handle := Partial(q.len, q.data[..q.offset])]
    {
      HeldWith(partials, handle, q);
      partials, table := partials[handle := q], table[handle := Partial(q.len, q.data[..q.offset])];
      taken, repr := taken + {q}, repr + {q, q.data};
    }

    method NewPartial(p: Packet, fullLength: U16) returns (q: Packet)
      requires p.Valid() && PREAMBLE <= p.len < fullLength
      ensures fresh(q) && fresh(q.data) && q.len == fullLength == q.data.Length
      ensures q.offset == p.len && q.event == p.event
      ensures q.data[..q.offset] == Put16(p.Contents(), 2, fullLength - PREAMBLE)
    {
      q := new Packet(p.event, fullLength, fullLength);
      q.offset := p.len;
      forall i | 0 <= i < p.len {
        q.data[i] := p.data[p.offset + i];
      }
      assert q.data[..][..p.len] == p.Contents();
      WriteU16(q.data, 2, fullLength - PREAMBLE);
      assert q.data[..q.offset] == q.data[..][..p.len];
    }

    /** What a step does with buffers: `p` is gone, at most the handle's partial with it, and what is new is new. */
    twostate predicate Settled(p: Packet, handle: int)
      reads this
    {
      && old(disposed) + {p} <= disposed <= old(disposed) + {p} + old(Under(handle))
      && old(taken) <= taken && (forall x :: x in taken ==> x in old(taken) || x == p || fresh(x))
      && old(repr) <= repr && fresh(repr - old(repr))
    }

    /** A start packet: drop what was unfinished, then deliver at once or open a partial. */
    method StartPacket(p: Packet, handle: int, full: U16)
      requires Valid() && Incoming(p) && p.len >= PREAMBLE && EventClass(p.event) == EVENT_ACL_IN
      modifies this
      ensures Valid() && disposed == old(disposed) + {p} + old(Under(handle))
      ensures Settled(p, handle) && partials - {handle} == old(partials) - {handle}
      ensures var b := old(p.Contents());
              if full <= |b| then table == old(table) - {handle} && delivered == old(delivered) + [AclUp(b)]
              else
                && table == (old(table) - {handle})[handle := Partial(full, Put16(b, 2, full - PREAMBLE))]
                && delivered == old(delivered)
    {
      DropUnfinished(handle);
      if full <= p.len {
        Deliver(p);
      } else {
        OpenPartial(p, handle, full);
      }
    }

    /** A continuation: append what fits, and deliver the partial when it is complete. */
    method ContinuePacket(p: Packet, handle: int)
      requires Valid() && Incoming(p) && p.len >= PREAMBLE && handle in partials
      requires partials[handle].offset + p.len - PREAMBLE < 0x10000
      modifies this, p, partials[handle], partials[handle].data
      ensures Valid() && taken == old(taken) + {p} && repr == old(repr)
      ensures var held := old(table)[handle];
              var got := held.got + Take(Payload(old(p.Contents())), held.expected - |held.got|);
              if |got| == held.expected
              then
                && disposed == old(disposed) + {p, old(partials)[handle]} && partials == old(partials) - {handle}
                && table == old(table) - {handle} && delivered == old(delivered) + [AclUp(got)]
              else
                && disposed == old(disposed) + {p} && partials == old(partials)
                && table == old(table)[handle := Partial(held.expected, got)] && delivered == old(delivered)
    {
      var q := partials[handle];
      Absorb(q, p, handle);
      if q.offset == q.len {
        Finish(q, handle);
      }
    }

    /** The packet under `handle` grows by the continuation; it may have become complete. */
    method Absorb(q: Packet, p: Packet, handle: int)
      requires Valid() && Incoming(p) && p.len >= PREAMBLE && handle in partials && q == partials[handle]
      requires q.offset + p.len - PREAMBLE < 0x10000
      modifies this`table, this`taken, this`disposed, p`offset, p`len, q`offset, q.data
      ensures disposed == old(disposed) + {p} && taken == old(taken) + {p}
      ensures Sound() && forall h :: h in partials && h != handle ==> partials[h].offset < partials[h].len
      ensures var held := old(table)[handle];
              var got := held.got + Take(Payload(old(p.Contents())), held.expected - |held.got|);
              table == old(table)[handle := Partial(held.expected, got)] && |got| == q.offset && held.expected == q.len
    {
      assert Holding(q, table[handle]) && q in taken;
      AppendClipped(q, p);
      table := table[handle := Partial(q.len, q.data[..q.offset])];
      Free(p);
      forall h | h in partials && h != handle
        ensures Holding(partials[h], table[h]) && partials[h].offset < partials[h].len
      {
        assert partials[h] in old(taken);
        assert old(Holding(partials[h], table[h]));
      }
    }

    /** Hand the completed partial up. */
    method Finish(q: Packet, handle: int)
      requires Sound() && handle in partials && q == partials[handle] && q.offset == q.len
      requires forall h :: h in partials && h != handle ==> partials[h].offset < partials[h].len
      modifies this`partials, this`table, this`disposed, this`taken, this`delivered, q`offset
      ensures Valid() && table == old(table) - {handle} && partials == old(partials) - {handle}
      ensures disposed == old(disposed) + {q} && taken == old(taken)
      ensures delivered == old(delivered) + [AclUp(old(table)[handle].got)]
    {
      assert Holding(q, table[handle]);
      HeldWithout(partials, handle);
      partials, table := partials - {handle}, table - {handle};
      q.offset := 0;
      assert q.Contents() == q.data[..q.len];
      Deliver(q);
    }

    /** Skip the preamble, clip to the room left and copy behind the bytes already collected. */
    method AppendClipped(q: Packet, p: Packet)
      requires p.Valid() && p.len >= PREAMBLE && q != p && q.data != p.data
      requires q.offset < q.len == q.data.Length && q.offset + p.len - PREAMBLE < 0x10000
      modifies p`offset, p`len, q`offset, q.data
      ensures old(q.offset) <= q.offset <= q.len
      ensures q.data[..q.offset]
              == old(q.data[..q.offset]) + Take(Payload(old(p.Contents())), q.len - old(q.offset))
    {
      var projected := Clip(q, p);
      CopyOnto(q, p);
      q.offset := projected;
    }

    method Clip(q: Packet, p: Packet) returns (projected: U16)
      requires p.Valid() && p.len >= PREAMBLE && q != p
      requires q.offset < q.len && q.offset + p.len - PREAMBLE < 0x10000
      modifies p`offset, p`len
      ensures p.Valid() && projected == q.offset + p.len <= q.len
      ensures p.Contents() == Take(Payload(old(p.Contents())), q.len - q.offset)
    {
      ghost var pay := Payload(p.Contents());
      p.offset := p.offset + PREAMBLE;
      p.len := p.len - PREAMBLE;
      assert p.Contents() == pay;
      projected := (q.offset + p.len) % 0x10000;
      if projected > q.len {
        p.len := q.len - q.offset;
        projected := q.len;
      }
    }

    /** memcpy of packet `p` behind the bytes already in `q`. */
    method CopyOnto(q: Packet, p: Packet)
      requires p.Valid() && q.offset + p.len <= q.data.Length && q.data != p.data
      modifies q.data
      ensures q.data[..q.offset + p.len] == old(q.data[..q.offset]) + p.Contents()
    {
      forall i | 0 <= i < p.len {
        q.data[q.offset + i] := p.data[p.offset + i];
      }
    }

    method ReassembleContinuation(p: Packet, ghost past: (Byte, Byte), handle: int)
      requires Valid() && Incoming(p) && Consistent(p.Contents()) && Fits(table, Inbound(p.Contents(), past))
      requires !IsStart(p.Contents()) && handle == Handle(HandleField(p.Contents()))
      modifies this, p, repr
      ensures Valid() && Settled(p, handle)
      ensures Received(table, delivered)
              == Recorded(old(delivered), Step(old(table), Inbound(old(p.Contents()), past)))
    {
      StepOfContinuation(table, Inbound(p.Contents(), past));
      if handle !in partials {
        Free(p);
      } else {
        assert Holding(partials[handle], table[handle]);
        ContinuePacket(p, handle);
      }
    }

    method ReassembleStart(p: Packet, past: (Byte, Byte), handle: int)
      requires Valid() && Incoming(p) && Consistent(p.Contents())
      requires IsStart(p.Contents()) && handle == Handle(HandleField(p.Contents()))
      requires EventClass(p.event) == EVENT_ACL_IN
      modifies this
      ensures Valid() && Settled(p, handle)
      ensures Received(table, delivered)
              == Recorded(old(delivered), Step(old(table), Inbound(old(p.Contents()), past)))
    {
      var full := ReadFullLength(p, past);
      StepOfStart(table, Inbound(p.Contents(), past));
      StartPacket(p, handle, full);
    }

    method ReadFullLength(p: Packet, past: (Byte, Byte)) returns (full: U16)
      requires p.Valid() && p.len >= PREAMBLE
      ensures full == FullLength(Inbound(p.Contents(), past))
    {
      var o := p.offset;
      var lo := if p.len > 4 then p.data[o + 4] else past.0;
      var hi := if p.len > 5 then p.data[o + 5] else if p.len > 4 then past.0 else past.1;
      full := (FromLe16(lo, hi) + 8) % 0x10000;
    }

    method ReassembleAcl(p: Packet, past: (Byte, Byte)) returns (ghost handle: int)
      requires Valid() && Incoming(p) && Consistent(p.Contents()) && Fits(table, Inbound(p.Contents(), past))
      requires EventClass(p.event) == EVENT_ACL_IN
      modifies this, p, repr
      ensures Valid() && Settled(p, handle)
      ensures Received(table, delivered)
              == Recorded(old(delivered), Step(old(table), Inbound(old(p.Contents()), past)))
    {
      var field := FromLe16(p.data[p.offset], p.data[p.offset + 1]);
      assert Field(p.data[p.offset], p.data[p.offset + 1]) == HandleField(p.Contents());
      MacrosOnBytes(HandleField(p.Contents()));
      assert FromLe16(p.data[p.offset + 2], p.data[p.offset + 3]) == LengthField(p.Contents()) == p.len - PREAMBLE;
      handle := HandleMask(field);
      if BoundaryFlag(field) == START {
        ReassembleStart(p, past, HandleMask(field));
      } else {
        ReassembleContinuation(p, past, HandleMask(field));
      }
    }

    /**
     The whole reassembler: one table step per ACL packet, everything else passed up. The packet and at most
     the partial it replaces or completes are disposed of, none of them before; all other partials stay.
     */
    method ReassembleAndDispatch(p: Packet, past: (Byte, Byte)) returns (ghost handle: int)
      requires Valid() && Incoming(p)
      requires EventClass(p.event) == EVENT_ACL_IN ==>
                 Consistent(p.Contents()) && Fits(table, Inbound(p.Contents(), past))
      modifies this, p, repr
      ensures Valid() && Settled(p, handle)
      ensures EventClass(old(p.event)) == EVENT_ACL_IN ==>
                var s := Step(old(table), Inbound(old(p.Contents()), past));
                table == s.table && delivered == old(delivered) + AllAcl(s.out)
      ensures EventClass(old(p.event)) != EVENT_ACL_IN ==>
                table == old(table) && delivered == old(delivered) + [ScoUp(old(p.Contents()))]
    {
      if EventClass(p.event) == EVENT_ACL_IN {
        handle := ReassembleAcl(p, past);
      } else {
        handle := -1;
        Deliver(p);
      }
    }

    /**
     A buffer from the H4 receive queue. An ACL packet passes the checks only with an exact length field,
     which is what the reassembler asserts; a rejected buffer is freed; an event is left to the event filter.
     */
    method HandleRxPacket(p: Packet, past: (Byte, Byte)) returns (v: Verdict, ghost handle: int)
      requires Valid() && Incoming(p) && p.len >= 1 && ReceiveFits(table, Raw(p.Contents(), past))
      modifies this, p, repr
      ensures v == Judge(old(p.Contents())) && Valid()
      ensures Received(table, delivered)
              == After(old(delivered), Receive(old(table), Raw(old(p.Contents()), past)))
      ensures !v.Event? ==> Settled(p, handle)
      ensures v.Event? ==> taken == old(taken) && disposed == old(disposed) && repr == old(repr)
      ensures v.Event? ==> p.Valid() && p.Contents() == v.bytes && p.event == 0x1000
    {
      v := StripType(p);
      handle := -1;
      match v
      case Dropped => Free(p);
      case Acl(_) => handle := ReassembleAndDispatch(p, past);
      case Sco(_) => handle := ReassembleAndDispatch(p, past);
      case Event(_) =>
    }

    /** A buffer waiting in the queue with these bytes. */
    ghost predicate Waiting(p: Packet, bytes: seq<Byte>)
      reads this, p, p.data
    {
      Incoming(p) && p.len >= 1 && p.Contents() == bytes
    }

    /** One buffer, seen from the others: those waiting are as they were, and none that passed is taken. */
    method HandleOne(p: Packet, past: (Byte, Byte), ghost waiting: set<Packet>, ghost passed: set<Packet>)
      returns (v: Verdict)
      requires Valid() && Incoming(p) && p.len >= 1 && ReceiveFits(table, Raw(p.Contents(), past))
      requires forall x :: x in waiting ==> Incoming(x) && x != p && x.data != p.data
      requires forall x :: x in passed ==> x !in taken && x != p
      modifies this, p, repr
      ensures v == Judge(old(p.Contents())) && Valid()
      ensures Received(table, delivered)
              == After(old(delivered), Receive(old(table), Raw(old(p.Contents()), past)))
      ensures old(disposed) <= disposed && old(taken) <= taken
      ensures if v.Event? then p !in taken else p in disposed
      ensures forall x :: x in waiting ==> Incoming(x) && unchanged(x) && unchanged(x.data)
      ensures forall x :: x in passed ==> x !in taken
      ensures fresh(repr - old(repr))
    {
      ghost var handle;
      v, handle := HandleRxPacket(p, past);
    }

    /**
     Draining the receive queue. Every buffer of the queue is freed or handed up exactly once, except that
     events are passed on; every partial made on the way is disposed of once or still in the table; what was
     disposed of before stays so.
     */
    method DrainQueue(queue: seq<Packet>, pasts: seq<(Byte, Byte)>, ghost raws: seq<Raw>)
      returns (ghost events: set<Packet>)
      requires Valid() && |queue| == |pasts| == |raws| && Separate(queue) && AllRawOk(raws) && AllFit(table, raws)
      requires forall i :: 0 <= i < |queue| ==> Waiting(queue[i], raws[i].bytes) && raws[i].past == pasts[i]
      modifies this, queue, repr
      ensures Valid() && old(disposed) <= disposed && old(taken) <= taken
      ensures Received(table, delivered) == After(old(delivered), ReceiveAll(old(table), raws))
      ensures forall i :: 0 <= i < |queue| ==> Dealt(queue[i], raws[i].bytes, events, taken, disposed)
    {
      ghost var target := After(delivered, ReceiveAll(table, raws));
      events := {};
      assert raws[0..] == raws;
      for i := 0 to |queue|
        invariant Valid() && old(disposed) <= disposed && old(taken) <= taken && fresh(repr - old(repr))
        invariant forall j :: i <= j < |queue| ==> Waiting(queue[j], raws[j].bytes)
        invariant Ahead(table, delivered, raws, i, target)
        invariant PassedOn(queue, raws, i, events, taken, disposed)
      {
        events := DrainNext(queue, pasts, raws, i, events, target);
      }
      NothingLeft(table, raws, delivered, target);
    }

    method DrainNext(queue: seq<Packet>, pasts: seq<(Byte, Byte)>, ghost raws: seq<Raw>, i: nat,
                     ghost events: set<Packet>, ghost target: Received)
      returns (ghost events': set<Packet>)
      requires Valid() && i < |queue| == |pasts| == |raws| && Separate(queue) && AllRawOk(raws)
      requires raws[i].past == pasts[i] && Ahead(table, delivered, raws, i, target)
      requires PassedOn(queue, raws, i, events, taken, disposed)
      requires forall j :: i <= j < |queue| ==> Waiting(queue[j], raws[j].bytes)
      modifies this, queue[i], repr
      ensures Valid() && old(disposed) <= disposed && old(taken) <= taken && fresh(repr - old(repr))
      ensures forall j :: i < j < |queue| ==> Waiting(queue[j], raws[j].bytes)
      ensures PassedOn(queue, raws, i + 1, events', taken, disposed) && Ahead(table, delivered, raws, i + 1, target)
    {
      ghost var p := queue[i];
      assert Waiting(p, raws[i].bytes) && Raw(p.Contents(), pasts[i]) == raws[i];
      NextRaw(table, raws, i, delivered);
      assert p !in queue[..i];
      var v := HandleOne(queue[i], pasts[i], Rest(queue, i + 1), events);
      events' := if v.Event? then events + {p} else events;
      PassedOnNext(queue, raws, i, events, old(taken), old(disposed), taken, disposed);
      forall j | i < j < |queue| ensures Waiting(queue[j], raws[j].bytes) {
        assert queue[j] in Rest(queue, i + 1);
      }
    }

    method StripType(p: Packet) returns (v: Verdict)
      requires p.Valid() && p.len >= 1
      modifies p`event, p`offset, p`len
      ensures v == Judge(old(p.Contents())) && p.Valid() && p.Contents() == old(p.Contents())[1..]
      ensures !v.Dropped? ==> p.Contents() == v.bytes
      ensures v.Acl? ==> p.event == 0x1100
      ensures v.Sco? ==> p.event == 0x1200
      ensures v.Event? ==> p.event == 0x1000
    {
      ghost var raw := p.Contents();
      var stream := p.offset;
      var ty := p.data[stream];
      p.offset := p.offset + 1;
      p.len := p.len - 1;
      ghost var rest := raw[1..];
      assert p.Contents() == rest && forall k :: 0 <= k < |rest| ==> rest[k] == p.data[stream + 1 + k];
      if ty == BLE_EVENT || ty < TYPE_ACL || ty > TYPE_EVENT {
        return Dropped;
      }
      var hdr := HeaderSize(ty);
      if p.len < hdr {
        return Dropped;
      }
      var length: U16 := p.data[stream + hdr];
      assert p.data[stream + hdr] == rest[hdr - 1];
      if ty == TYPE_ACL {
        length := FromLe16(p.data[stream + hdr - 1], p.data[stream + hdr]);
        assert p.data[stream + 3] == rest[2] && length == LengthField(rest);
      }
      JudgeByLength(raw, rest, length);
      if length + hdr != p.len {
        return Dropped;
      }
      p.event := if ty == TYPE_ACL then EVENT_ACL_IN else if ty == TYPE_SCO then EVENT_SCO_IN else EVENT_EVT_IN;
      v := if ty == TYPE_ACL then Acl(p.Contents())
           else if ty == TYPE_SCO then Sco(p.Contents())
           else Event(p.Contents());
    }
  }
}
