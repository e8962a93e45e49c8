/**
 The HCI host task as a state machine: command queue under credit-based flow control (Bluetooth Core,
 Vol 2 Part E, section 4.4), data packets fragmented one transmission at a time, and the events that
 answer commands. One turn of the host task and one incoming event are one atomic step each.
 */
module HciHost {
  import opened Bytes
  import opened AclFraming

  /** Identity of a packet buffer. */
  type Buf = int

  /** A waiting_command_t: which continuations the submitter supplied. */
  datatype Wait = Wait(command: Buf, opcode: U16, onComplete: bool, onStatus: bool, future: bool)

  /** An outbound data packet with its segment quota and the controller's data size for its link. */
  datatype Out = Out(buf: Buf, acl: bool, bytes: seq<Byte>, quota: nat, dataSize: nat)

  predicate OutOk(o: Out) {
    |o.bytes| < 0x10000 && o.dataSize + PREAMBLE < 0x10000
  }

  /** What the controller and the flow-control rule see, in order. */
  datatype Happening =
    | Advertised(credits: Byte)
    | CommandTx(buf: Buf)
    | DataTx(buf: Buf, bytes: seq<Byte>, last: bool)
    | HandBack(buf: Buf)

  /** Where a buffer ends up. */
  datatype Fate =
    | Freed(buf: Buf)
    | ToComplete(buf: Buf, command: Buf)  // an event, to the callback of the command it answers
    | ToFuture(buf: Buf, command: Buf)
    | ToStatus(buf: Buf)  // a command, to its own callback
    | ToUpper(buf: Buf)

  datatype Host = Host(
    credits: int,
    commands: seq<Wait>,
    packets: seq<Out>,
    current: Option<Out>,
    pending: seq<Wait>,
    timer: bool,
    // history
    log: seq<Happening>,
    fates: seq<Fate>,
    completed: seq<Wait>,  // finished by Command Complete
    statused: seq<Wait>,  // finished by Command Status
    taken: set<Buf>,
    submitted: seq<Buf>,
    dataSubmitted: seq<Buf>)

  const START_STATE := Host(1, [], [], None, [], false, [], [], [], [], {}, [], [])

  // ---------- events ----------

  datatype Report = CommandComplete(credits: Byte, opcode: U16) | CommandStatus(credits: Byte, opcode: U16) | Other

  /** The memory from the event code on reaches as far as the fields that will be read. */
  predicate EventReadable(mem: seq<Byte>) {
    mem != [] && (mem[0] == 0x0E ==> |mem| >= 5) && (mem[0] == 0x0F ==> |mem| >= 6)
  }

  /** The fields read from an event. */
  function ParseEvent(mem: seq<Byte>): Report
    requires EventReadable(mem)
  {
    if mem[0] == 0x0E then CommandComplete(mem[2], FromLe16(mem[3], mem[4]))
    else if mem[0] == 0x0F then CommandStatus(mem[3], FromLe16(mem[4], mem[5]))
    else Other
  }

  /** Index of the oldest pending command with this opcode, or the length. */
  function Oldest(pending: seq<Wait>, opcode: U16): (i: nat)
    ensures i <= |pending|
    ensures i < |pending| ==> pending[i].opcode == opcode
    ensures forall j :: 0 <= j < i ==> pending[j].opcode != opcode
  {
    if pending == [] then 0 else if pending[0].opcode == opcode then 0 else 1 + Oldest(pending[1..], opcode)
  }

  // ---------- steps ----------

  datatype Action =
    | Submit(w: Wait)
    | SubmitData(o: Out)
    | Turn(upperTakes: bool)
    | Arrive(buf: Buf, event: seq<Byte>, upperTakes: bool)

  predicate Allowed(s: Host, a: Action) {
    match a
    case Submit(w) => w.command !in s.taken
    case SubmitData(o) => o.buf !in s.taken && OutOk(o)
    case Turn(_) => true
    case Arrive(buf, event, _) => buf !in s.taken && EventReadable(event)
  }

  function PassUp(buf: Buf, upperTakes: bool): Fate {
    if upperTakes then ToUpper(buf) else Freed(buf)
  }

  predicate Cut(o: Out) {
    o.acl && Oversize(o.bytes, o.dataSize)
  }

  function DispatchLog(o: Out): seq<Happening>
    requires OutOk(o)
  {
    if !Cut(o) then [DataTx(o.buf, o.bytes, true)]
    else
      var sent := DataTx(o.buf, FirstFragment(o.bytes, o.dataSize), false);
      if o.quota == 1 then [sent, HandBack(o.buf)] else [sent]
  }

  function DispatchCurrent(o: Out, current: Option<Out>): Option<Out>
    requires OutOk(o)
  {
    if !o.acl then current
    else if !Cut(o) || o.quota == 1 then None
    else Some(o.(bytes := Remainder(o.bytes, o.dataSize), quota := if o.quota == 0 then 0 else o.quota - 1))
  }

  function DispatchFates(o: Out, upperTakes: bool): seq<Fate> {
    if !Cut(o) then [Freed(o.buf)] else if o.quota == 1 then [PassUp(o.buf, upperTakes)] else []
  }

  /** One call of the fragmenter: the next fragment goes out; a finished or handed-back packet leaves. */
  function Dispatch(s: Host, o: Out, upperTakes: bool): Host
    requires OutOk(o)
  {
    s.(current := DispatchCurrent(o, s.current), log := s.log + DispatchLog(o),
       fates := s.fates + DispatchFates(o, upperTakes))
  }

  function SendCommand(s: Host): Host
    requires s.commands != []
  {
    var w := s.commands[0];
    s.(commands := s.commands[1..], credits := s.credits - 1, pending := s.pending + [w],
       log := s.log + [CommandTx(w.command)], timer := true)
  }

  function TurnStep(s: Host, upperTakes: bool): Host
    requires s.current.Some? ==> OutOk(s.current.value)
    requires forall i :: 0 <= i < |s.packets| ==> OutOk(s.packets[i])
  {
    if s.current.Some? then Dispatch(s, s.current.value, upperTakes)
    else if s.commands != [] && s.credits > 0 then SendCommand(s)
    else if s.packets != [] then Dispatch(s.(packets := s.packets[1..]), s.packets[0], upperTakes)
    else s
  }

  /** What happens to the event and to the command it answers. */
  function EventFates(buf: Buf, w: Option<Wait>, complete: bool): seq<Fate> {
    if w.None? then [Freed(buf)]
    else if complete then
      [if w.value.onComplete then ToComplete(buf, w.value.command)
       else if w.value.future then ToFuture(buf, w.value.command)
       else Freed(buf),
       Freed(w.value.command)]
    else
      [Freed(buf), if w.value.onStatus then ToStatus(w.value.command) else Freed(w.value.command)]
  }

  function Answer(s: Host, buf: Buf, credits: Byte, opcode: U16, complete: bool): Host {
    var i := Oldest(s.pending, opcode);
    var w := if i < |s.pending| then Some(s.pending[i]) else None;
    var pending := if w.Some? then s.pending[..i] + s.pending[i + 1..] else s.pending;
    s.(credits := credits, pending := pending, timer := pending != [], log := s.log + [Advertised(credits)],
       fates := s.fates + EventFates(buf, w, complete),
       completed := if w.Some? && complete then s.completed + [w.value] else s.completed,
       statused := if w.Some? && !complete then s.statused + [w.value] else s.statused)
  }

  function ArriveStep(s: Host, buf: Buf, r: Report, upperTakes: bool): Host {
    match r
    case CommandComplete(n, opcode) => Answer(s, buf, n, opcode, true)
    case CommandStatus(n, opcode) => Answer(s, buf, n, opcode, false)
    case Other => s.(fates := s.fates + [PassUp(buf, upperTakes)])
  }

  ghost predicate QueuesOk(s: Host) {
    && (s.current.Some? ==> OutOk(s.current.value))
    && forall i :: 0 <= i < |s.packets| ==> OutOk(s.packets[i])
  }

  ghost function HostStep(s: Host, a: Action): Host
    requires QueuesOk(s) && Allowed(s, a)
  {
    match a
    case Submit(w) =>
      s.(commands := s.commands + [w], taken := s.taken + {w.command}, submitted := s.submitted + [w.command])
    case SubmitData(o) =>
      s.(packets := s.packets + [o], taken := s.taken + {o.buf}, dataSubmitted := s.dataSubmitted + [o.buf])
    case Turn(up) => TurnStep(s, up)
    case Arrive(buf, event, up) => ArriveStep(s.(taken := s.taken + {buf}), buf, ParseEvent(event), up)
  }

  ghost predicate Reaches(s: Host, actions: seq<Action>, s': Host)
    decreases |actions|
  {
    if actions == [] then s' == s
    else QueuesOk(s) && Allowed(s, actions[0]) && Reaches(HostStep(s, actions[0]), actions[1..], s')
  }

  // ---------- flow control ----------

  /** The allowance in force: the last value advertised, or the single command allowed initially. */
  function Allowance(log: seq<Happening>): nat {
    if log == [] then 1
    else
      var e := log[|log| - 1];
      if e.Advertised? then e.credits else Allowance(log[..|log| - 1])
  }

  /** Commands sent since the last advertisement. */
  function SentSince(log: seq<Happening>): nat {
    if log == [] then 0
    else
      var e := log[|log| - 1];
      if e.Advertised? then 0 else SentSince(log[..|log| - 1]) + if e.CommandTx? then 1 else 0
  }

  lemma LogSnoc(log: seq<Happening>, e: Happening)
    ensures e.Advertised? ==> Allowance(log + [e]) == e.credits && SentSince(log + [e]) == 0
    ensures !e.Advertised? ==>
              && Allowance(log + [e]) == Allowance(log)
              && SentSince(log + [e]) == SentSince(log) + if e.CommandTx? then 1 else 0
  {
    assert (log + [e])[..|log|] == log;
  }

  // ---------- transmission spans ----------

  datatype Span = Idle | Open(buf: Buf) | Broken

  /** The rule for the wire: between a packet's first and last fragment nothing else is sent. */
  function SpanNext(sp: Span, e: Happening): Span {
    match sp
    case Broken => Broken
    case Idle =>
      (match e
       case Advertised(_) => Idle
       case CommandTx(_) => Idle
       case DataTx(b, _, last) => if last then Idle else Open(b)
       case HandBack(_) => Broken)
    case Open(b) =>
      (match e
       case Advertised(_) => sp
       case CommandTx(_) => Broken
       case DataTx(b', _, last) => if b' != b then Broken else if last then Idle else sp
       case HandBack(b') => if b' == b then Idle else Broken)
  }

  function Scan(log: seq<Happening>): Span {
    if log == [] then Idle else SpanNext(Scan(log[..|log| - 1]), log[|log| - 1])
  }

  function SpanOf(current: Option<Out>): Span {
    if current.Some? then Open(current.value.buf) else Idle
  }

  lemma ScanSnoc(log: seq<Happening>, e: Happening)
    ensures Scan(log + [e]) == SpanNext(Scan(log), e)
  {
    assert (log + [e])[..|log|] == log;
  }

  lemma {:induction false} ScanPrefix(log: seq<Happening>, k: nat)
    requires k <= |log| && Scan(log) != Broken
    ensures Scan(log[..k]) != Broken
    decreases |log|
  {
    if k < |log| {
      var init := log[..|log| - 1];
      ScanPrefix(init, k);
      assert init[..k] == log[..k];
    } else {
      assert log[..k] == log;
    }
  }

  predicate Ends(e: Happening, b: Buf) {
    (e.DataTx? && e.buf == b && e.last) || (e.HandBack? && e.buf == b)
  }

  /** What the rule means for the log itself. */
  lemma {:induction false} NothingInBetween(log: seq<Happening>, i: nat, j: nat)
    requires Scan(log) != Broken
    requires i < j < |log| && log[i].DataTx? && !log[i].last
    requires forall k :: i < k < j ==> !Ends(log[k], log[i].buf)
    ensures Scan(log[..j]) == Open(log[i].buf)
    ensures log[j].Advertised? || ((log[j].HandBack? || log[j].DataTx?) && log[j].buf == log[i].buf)
    decreases j
  {
    ScanPrefix(log, j);
    ScanPrefix(log, j + 1);
    assert log[..j + 1] == log[..j] + [log[j]];
    ScanSnoc(log[..j], log[j]);
    assert log[..j] == log[..j - 1] + [log[j - 1]];
    ScanSnoc(log[..j - 1], log[j - 1]);
    if i < j - 1 {
      NothingInBetween(log, i, j - 1);
    }
  }

  // ---------- who holds a buffer ----------

  function InCommands(ws: seq<Wait>, b: Buf): nat {
    if ws == [] then 0 else (if ws[0].command == b then 1 else 0) + InCommands(ws[1..], b)
  }

  function InPackets(os: seq<Out>, b: Buf): nat {
    if os == [] then 0 else (if os[0].buf == b then 1 else 0) + InPackets(os[1..], b)
  }

  function InCurrent(current: Option<Out>, b: Buf): nat {
    if current.Some? && current.value.buf == b then 1 else 0
  }

  /** How often buffer `b` has been freed or handed on. */
  function Disposals(fates: seq<Fate>, b: Buf): nat {
    if fates == [] then 0 else (if fates[0].buf == b then 1 else 0) + Disposals(fates[1..], b)
  }

  lemma {:induction false} InCommandsPlus(x: seq<Wait>, y: seq<Wait>, b: Buf)
    ensures InCommands(x + y, b) == InCommands(x, b) + InCommands(y, b)
  {
    if x == [] {
      assert x + y == y;
    } else {
      assert (x + y)[1..] == x[1..] + y;
      InCommandsPlus(x[1..], y, b);
    }
  }

  lemma {:induction false} InPacketsSnoc(x: seq<Out>, o: Out, b: Buf)
    ensures InPackets(x + [o], b) == InPackets(x, b) + if o.buf == b then 1 else 0
  {
    if x == [] {
      assert (x + [o])[1..] == [];
    } else {
      assert (x + [o])[1..] == x[1..] + [o];
      InPacketsSnoc(x[1..], o, b);
    }
  }

  lemma {:induction false} DisposalsPlus(x: seq<Fate>, y: seq<Fate>, b: Buf)
    ensures Disposals(x + y, b) == Disposals(x, b) + Disposals(y, b)
  {
    if x == [] {
      assert x + y == y;
    } else {
      assert (x + y)[1..] == x[1..] + y;
      DisposalsPlus(x[1..], y, b);
    }
  }

  lemma InCommandsOne(w: Wait, b: Buf)
    ensures InCommands([w], b) == if w.command == b then 1 else 0
  {
    assert [w][1..] == [];
  }

  lemma RemoveAt(ws: seq<Wait>, i: nat, b: Buf)
    requires i < |ws|
    ensures InCommands(ws, b) == InCommands(ws[..i] + ws[i + 1..], b) + if ws[i].command == b then 1 else 0
  {
    InCommandsPlus(ws[..i], ws[i + 1..], b);
    InCommandsPlus(ws[..i], ws[i..], b);
    assert ws == ws[..i] + ws[i..];
    assert ws[i..][1..] == ws[i + 1..];
  }

  /** Copies of buffer `b` anywhere: queued, pending, current, or already disposed of. */
  function Places(s: Host, b: Buf): nat {
    InCommands(s.commands, b) + InCommands(s.pending, b) + InPackets(s.packets, b) + InCurrent(s.current, b)
    + Disposals(s.fates, b)
  }

  // ---------- invariants ----------

  /** Credits are what the controller last advertised, less the commands sent since. */
  ghost predicate CreditsOk(s: Host) {
    0 <= s.credits && s.credits == Allowance(s.log) - SentSince(s.log)
  }

  /** A span is open exactly while a packet is current. */
  ghost predicate SpanOk(s: Host) {
    Scan(s.log) == SpanOf(s.current) && (s.current.Some? ==> s.current.value.acl && |s.current.value.bytes| >= PREAMBLE)
  }

  ghost predicate TimerOk(s: Host) {
    s.timer <==> s.pending != []
  }

  /** Every buffer taken in is in exactly one place, once; no other buffer is anywhere. */
  ghost predicate OnePlace(s: Host, b: Buf) {
    Places(s, b) == if b in s.taken then 1 else 0
  }

  function Finished(s: Host, b: Buf): nat {
    InCommands(s.completed, b) + InCommands(s.statused, b)
  }

  /** Every submitted command is in exactly one phase, and no other command is in any. */
  ghost predicate OnePhase(s: Host, b: Buf) {
    && InCommands(s.commands, b) + InCommands(s.pending, b) + Finished(s, b) == (if b in s.submitted then 1 else 0)
    && (b in s.submitted ==> b in s.taken)
  }

  function Commands(ws: seq<Wait>): seq<Buf> {
    if ws == [] then [] else Commands(ws[..|ws| - 1]) + [ws[|ws| - 1].command]
  }

  function CommandsOnWire(log: seq<Happening>): seq<Buf> {
    if log == [] then []
    else
      var e := log[|log| - 1];
      CommandsOnWire(log[..|log| - 1]) + if e.CommandTx? then [e.buf] else []
  }

  lemma WireSnoc(log: seq<Happening>, e: Happening)
    ensures CommandsOnWire(log + [e]) == CommandsOnWire(log) + if e.CommandTx? then [e.buf] else []
  {
    assert (log + [e])[..|log|] == log;
  }

  lemma CommandsSnoc(ws: seq<Wait>, w: Wait)
    ensures Commands(ws + [w]) == Commands(ws) + [w.command]
  {
    assert (ws + [w])[..|ws|] == ws;
  }

  lemma {:induction false} CommandsFront(ws: seq<Wait>)
    requires ws != []
    ensures Commands(ws) == [ws[0].command] + Commands(ws[1..])
    decreases |ws|
  {
    if |ws| > 1 {
      var n := |ws| - 1;
      CommandsFront(ws[..n]);
      assert ws[1..][..n - 1] == ws[..n][1..];
    } else {
      assert ws[..0] == [] && ws[1..] == [];
    }
  }

  /** First in, first out: what went out and then what is queued is what was submitted, in order. */
  ghost predicate OrderOk(s: Host) {
    s.submitted == CommandsOnWire(s.log) + Commands(s.commands)
  }

  function Bufs(os: seq<Out>): seq<Buf> {
    if os == [] then [] else Bufs(os[..|os| - 1]) + [os[|os| - 1].buf]
  }

  /** The data packets whose transmission has begun, in order: a fragment outside a span begins one. */
  function Started(log: seq<Happening>): seq<Buf> {
    if log == [] then []
    else
      var init, e := log[..|log| - 1], log[|log| - 1];
      Started(init) + if e.DataTx? && Scan(init) == Idle then [e.buf] else []
  }

  lemma StartedSnoc(log: seq<Happening>, e: Happening)
    ensures Started(log + [e]) == if e.DataTx? && Scan(log) == Idle then Started(log) + [e.buf] else Started(log)
  {
    assert (log + [e])[..|log|] == log;
    assert Started(log) + [] == Started(log);
  }

  lemma BufsSnoc(os: seq<Out>, o: Out)
    ensures Bufs(os + [o]) == Bufs(os) + [o.buf]
  {
    assert (os + [o])[..|os|] == os;
  }

  lemma {:induction false} BufsFront(os: seq<Out>)
    requires os != []
    ensures Bufs(os) == [os[0].buf] + Bufs(os[1..])
    decreases |os|
  {
    if |os| == 1 {
      assert os[..0] == [] && os[1..] == [];
    } else {
      var init, last := os[..|os| - 1], os[|os| - 1];
      BufsFront(init);
      BufsSnoc(init[1..], last);
      assert os[1..] == init[1..] + [last];
      PlusAssoc([os[0].buf], Bufs(init[1..]), [last.buf]);
    }
  }

  /** First in, first out for data too: what was begun and then what is queued is what was submitted. */
  ghost predicate DataOrderOk(s: Host) {
    s.dataSubmitted == Started(s.log) + Bufs(s.packets)
  }

  // ---------- continuations ----------

  /** What a submitter may have asked for: a completion callback, else a future; a status callback. */
  datatype Continuation = OnComplete | OnFuture | OnStatus

  predicate Asks(w: Wait, k: Continuation) {
    match k
    case OnComplete => w.onComplete
    case OnFuture => !w.onComplete && w.future
    case OnStatus => w.onStatus
  }

  /** The fate is that continuation `k` of command `b` runs. */
  predicate Runs(f: Fate, k: Continuation, b: Buf) {
    match k
    case OnComplete => f.ToComplete? && f.command == b
    case OnFuture => f.ToFuture? && f.command == b
    case OnStatus => f.ToStatus? && f.buf == b
  }

  /** Entries of command `b` that asked for continuation `k`. */
  function Asked(ws: seq<Wait>, k: Continuation, b: Buf): nat {
    if ws == [] then 0
    else Asked(ws[..|ws| - 1], k, b) + if ws[|ws| - 1].command == b && Asks(ws[|ws| - 1], k) then 1 else 0
  }

  /** How often continuation `k` of command `b` has run. */
  function Ran(fates: seq<Fate>, k: Continuation, b: Buf): nat {
    if fates == [] then 0 else Ran(fates[..|fates| - 1], k, b) + if Runs(fates[|fates| - 1], k, b) then 1 else 0
  }

  lemma AskedSnoc(ws: seq<Wait>, w: Wait, k: Continuation, b: Buf)
    ensures Asked(ws + [w], k, b) == Asked(ws, k, b) + if w.command == b && Asks(w, k) then 1 else 0
  {
    assert (ws + [w])[..|ws|] == ws;
  }

  lemma {:induction false} RanPlus(x: seq<Fate>, y: seq<Fate>, k: Continuation, b: Buf)
    ensures Ran(x + y, k, b) == Ran(x, k, b) + Ran(y, k, b)
    decreases |y|
  {
    if y == [] {
      assert x + y == x;
    } else {
      assert (x + y)[..|x + y| - 1] == x + y[..|y| - 1];
      RanPlus(x, y[..|y| - 1], k, b);
    }
  }

  lemma RanOne(f: Fate, k: Continuation, b: Buf)
    ensures Ran([f], k, b) == if Runs(f, k, b) then 1 else 0
  {
    assert [f][..0] == [];
  }

  /** The commands finished the way that runs continuation `k`. */
  function FinishedFor(s: Host, k: Continuation): seq<Wait> {
    if k.OnStatus? then s.statused else s.completed
  }

  /** Continuation `k` of command `b` has run as often as `b` was finished and had asked for it. */
  ghost predicate CalledOk(s: Host, k: Continuation, b: Buf) {
    Ran(s.fates, k, b) == Asked(FinishedFor(s, k), k, b)
  }

  lemma EventRuns(buf: Buf, w: Option<Wait>, complete: bool, k: Continuation, b: Buf)
    ensures Ran(EventFates(buf, w, complete), k, b)
            == if w.Some? && complete == !k.OnStatus? && w.value.command == b && Asks(w.value, k) then 1 else 0
  {
    var f := EventFates(buf, w, complete);
    RanOne(f[0], k, b);
    if w.Some? {
      RanOne(f[1], k, b);
      RanPlus([f[0]], [f[1]], k, b);
      assert f == [f[0]] + [f[1]];
    } else {
      assert f == [f[0]];
    }
  }

  lemma AnswerKeepsCalled(s: Host, buf: Buf, n: Byte, opcode: U16, complete: bool, k: Continuation, b: Buf)
    requires CalledOk(s, k, b)
    ensures CalledOk(Answer(s, buf, n, opcode, complete), k, b)
  {
    var i := Oldest(s.pending, opcode);
    var w := if i < |s.pending| then Some(s.pending[i]) else None;
    RanPlus(s.fates, EventFates(buf, w, complete), k, b);
    EventRuns(buf, w, complete, k, b);
    if w.Some? {
      AskedSnoc(if complete then s.completed else s.statused, w.value, k, b);
    }
  }

  lemma DispatchRunsNothing(o: Out, up: bool, k: Continuation, b: Buf)
    ensures Ran(DispatchFates(o, up), k, b) == 0
  {
    if DispatchFates(o, up) != [] {
      RanOne(DispatchFates(o, up)[0], k, b);
    }
  }

  lemma KeepsCalled(s: Host, a: Action, k: Continuation, b: Buf)
    requires QueuesOk(s) && Allowed(s, a) && CalledOk(s, k, b)
    ensures CalledOk(HostStep(s, a), k, b)
  {
    match a
    case Submit(w) =>
    case SubmitData(o) =>
    case Turn(up) =>
      NextOk(s);
      if Next(s).Some? {
        RanPlus(s.fates, DispatchFates(Next(s).value, up), k, b);
        DispatchRunsNothing(Next(s).value, up, k, b);
      }
    case Arrive(buf, event, up) =>
      var r := ParseEvent(event);
      var t := s.(taken := s.taken + {buf});
      if r.Other? {
        RanPlus(s.fates, [PassUp(buf, up)], k, b);
        RanOne(PassUp(buf, up), k, b);
      } else {
        AnswerKeepsCalled(t, buf, r.credits, r.opcode, r.CommandComplete?, k, b);
      }
  }

  lemma {:induction false} AskedAtMost(ws: seq<Wait>, k: Continuation, b: Buf)
    ensures Asked(ws, k, b) <= InCommands(ws, b)
    decreases |ws|
  {
    if ws != [] {
      var init, w := ws[..|ws| - 1], ws[|ws| - 1];
      AskedAtMost(init, k, b);
      InCommandsPlus(init, [w], b);
      InCommandsOne(w, b);
      assert ws == init + [w];
    }
  }

  /** Some entry of command `b` asks for continuation `k`. */
  predicate SomeAsks(ws: seq<Wait>, k: Continuation, b: Buf) {
    exists i :: 0 <= i < |ws| && ws[i].command == b && Asks(ws[i], k)
  }

  lemma {:induction false} AskedIff(ws: seq<Wait>, k: Continuation, b: Buf)
    ensures Asked(ws, k, b) > 0 <==> SomeAsks(ws, k, b)
    decreases |ws|
  {
    if ws != [] {
      var init, w := ws[..|ws| - 1], ws[|ws| - 1];
      AskedIff(init, k, b);
      SomeAsksSnoc(init, w, k, b);
      assert ws == init + [w];
    }
  }

  lemma SomeAsksSnoc(ws: seq<Wait>, w: Wait, k: Continuation, b: Buf)
    ensures SomeAsks(ws + [w], k, b) <==> SomeAsks(ws, k, b) || (w.command == b && Asks(w, k))
  {
    var all := ws + [w];
    assert all[|ws|] == w;
    if SomeAsks(ws, k, b) {
      var i :| 0 <= i < |ws| && ws[i].command == b && Asks(ws[i], k);
      assert all[i] == ws[i];
    }
  }

  // ---------- each step keeps each invariant ----------

  lemma KeepsQueues(s: Host, a: Action)
    requires QueuesOk(s) && Allowed(s, a)
    ensures QueuesOk(HostStep(s, a))
  {
    if a.Turn? && s.current.None? && !(s.commands != [] && s.credits > 0) && s.packets != [] {
      assert OutOk(s.packets[0]);
    }
  }

  lemma DispatchOnLog(log: seq<Happening>, o: Out)
    requires OutOk(o)
    ensures Allowance(log + DispatchLog(o)) == Allowance(log) && SentSince(log + DispatchLog(o)) == SentSince(log)
    ensures CommandsOnWire(log + DispatchLog(o)) == CommandsOnWire(log)
  {
    if Cut(o) {
      var sent := DataTx(o.buf, FirstFragment(o.bytes, o.dataSize), false);
      LogSnoc(log, sent);
      WireSnoc(log, sent);
      if o.quota == 1 {
        assert log + [sent, HandBack(o.buf)] == (log + [sent]) + [HandBack(o.buf)];
        LogSnoc(log + [sent], HandBack(o.buf));
        WireSnoc(log + [sent], HandBack(o.buf));
      }
    } else {
      LogSnoc(log, DataTx(o.buf, o.bytes, true));
      WireSnoc(log, DataTx(o.buf, o.bytes, true));
    }
  }

  lemma DispatchOnSpan(log: seq<Happening>, current: Option<Out>, o: Out)
    requires OutOk(o) && Scan(log) == SpanOf(current)
    requires current.None? || (current == Some(o) && o.acl)
    ensures Scan(log + DispatchLog(o)) == SpanOf(DispatchCurrent(o, current))
  {
    if Cut(o) {
      var sent := DataTx(o.buf, FirstFragment(o.bytes, o.dataSize), false);
      ScanSnoc(log, sent);
      if o.quota == 1 {
        assert log + [sent, HandBack(o.buf)] == (log + [sent]) + [HandBack(o.buf)];
        ScanSnoc(log + [sent], HandBack(o.buf));
      }
    } else {
      ScanSnoc(log, DataTx(o.buf, o.bytes, true));
    }
  }

  lemma DispatchOnBuffers(fates: seq<Fate>, current: Option<Out>, o: Out, up: bool, b: Buf)
    requires OutOk(o)
    requires current.None? || (current == Some(o) && o.acl)
    ensures InCurrent(DispatchCurrent(o, current), b) + Disposals(fates + DispatchFates(o, up), b)
            == Disposals(fates, b) + if o.buf == b then 1 else 0
  {
    var d := DispatchFates(o, up);
    DisposalsPlus(fates, d, b);
    if d != [] {
      assert d[1..] == [];
    }
  }

  /** The packet a turn dispatches, if it dispatches one. */
  function Next(s: Host): Option<Out> {
    if s.current.Some? then s.current
    else if s.commands != [] && s.credits > 0 then None
    else if s.packets != [] then Some(s.packets[0])
    else None
  }

  lemma NextOk(s: Host)
    requires QueuesOk(s)
    ensures Next(s).Some? ==> OutOk(Next(s).value)
  {
  }

  lemma KeepsCredits(s: Host, a: Action)
    requires QueuesOk(s) && Allowed(s, a) && CreditsOk(s)
    ensures CreditsOk(HostStep(s, a))
  {
    NextOk(s);
    if a.Turn? && Next(s).Some? {
      DispatchOnLog(s.log, Next(s).value);
    } else if a.Turn? && s.commands != [] {
      LogSnoc(s.log, CommandTx(s.commands[0].command));
    } else if a.Arrive? && !ParseEvent(a.event).Other? {
      LogSnoc(s.log, Advertised(ParseEvent(a.event).credits));
    }
  }

  lemma KeepsSpan(s: Host, a: Action)
    requires QueuesOk(s) && Allowed(s, a) && SpanOk(s)
    ensures SpanOk(HostStep(s, a))
  {
    NextOk(s);
    if a.Turn? && Next(s).Some? {
      DispatchOnSpan(s.log, s.current, Next(s).value);
    } else if a.Turn? && s.commands != [] {
      ScanSnoc(s.log, CommandTx(s.commands[0].command));
    } else if a.Arrive? && !ParseEvent(a.event).Other? {
      ScanSnoc(s.log, Advertised(ParseEvent(a.event).credits));
    }
  }

  lemma KeepsTimer(s: Host, a: Action)
    requires QueuesOk(s) && Allowed(s, a) && TimerOk(s)
    ensures TimerOk(HostStep(s, a))
  {
    NextOk(s);
  }

  lemma EventFatesOnce(buf: Buf, w: Option<Wait>, complete: bool, b: Buf)
    ensures Disposals(EventFates(buf, w, complete), b)
            == (if buf == b then 1 else 0) + (if w.Some? && w.value.command == b then 1 else 0)
  {
    var f := EventFates(buf, w, complete);
    assert Disposals(f, b) == (if f[0].buf == b then 1 else 0) + Disposals(f[1..], b);
    if w.Some? {
      assert Disposals(f[1..], b) == (if f[1].buf == b then 1 else 0) + Disposals(f[1..][1..], b);
    }
  }

  lemma AnswerOnBuffers(s: Host, buf: Buf, n: Byte, opcode: U16, complete: bool, b: Buf)
    ensures Places(Answer(s, buf, n, opcode, complete), b) == Places(s, b) + if buf == b then 1 else 0
    ensures var s' := Answer(s, buf, n, opcode, complete);
            InCommands(s'.pending, b) + Finished(s', b) == InCommands(s.pending, b) + Finished(s, b)
  {
    var i := Oldest(s.pending, opcode);
    var w := if i < |s.pending| then Some(s.pending[i]) else None;
    var f := EventFates(buf, w, complete);
    DisposalsPlus(s.fates, f, b);
    EventFatesOnce(buf, w, complete, b);
    if w.Some? {
      RemoveAt(s.pending, i, b);
      InCommandsPlus(if complete then s.completed else s.statused, [w.value], b);
      InCommandsOne(w.value, b);
    }
  }

  lemma KeepsOnePlace(s: Host, a: Action, b: Buf)
    requires QueuesOk(s) && Allowed(s, a) && SpanOk(s) && OnePlace(s, b)
    ensures OnePlace(HostStep(s, a), b)
  {
    NextOk(s);
    match a
    case Submit(w) =>
      InCommandsPlus(s.commands, [w], b);
      InCommandsOne(w, b);
    case SubmitData(o) => InPacketsSnoc(s.packets, o, b);
    case Turn(up) =>
      if Next(s).Some? {
        DispatchOnBuffers(s.fates, s.current, Next(s).value, up, b);
      } else if s.commands != [] && s.credits > 0 {
        InCommandsPlus(s.pending, [s.commands[0]], b);
        InCommandsOne(s.commands[0], b);
      }
    case Arrive(buf, event, up) =>
      var r := ParseEvent(event);
      var t := s.(taken := s.taken + {buf});
      match r
      case CommandComplete(n, opcode) => AnswerOnBuffers(t, buf, n, opcode, true, b);
      case CommandStatus(n, opcode) => AnswerOnBuffers(t, buf, n, opcode, false, b);
      case Other =>
        DisposalsPlus(s.fates, [PassUp(buf, up)], b);
        assert [PassUp(buf, up)][1..] == [];
  }

  lemma KeepsOnePhase(s: Host, a: Action, b: Buf)
    requires QueuesOk(s) && Allowed(s, a) && OnePhase(s, b)
    ensures OnePhase(HostStep(s, a), b)
  {
    NextOk(s);
    match a
    case Submit(w) =>
      InCommandsPlus(s.commands, [w], b);
      InCommandsOne(w, b);
    case SubmitData(o) =>
    case Turn(up) =>
      if Next(s).None? && s.commands != [] && s.credits > 0 {
        InCommandsPlus(s.pending, [s.commands[0]], b);
        InCommandsOne(s.commands[0], b);
      }
    case Arrive(buf, event, up) =>
      var r := ParseEvent(event);
      if !r.Other? {
        AnswerOnBuffers(s.(taken := s.taken + {buf}), buf, r.credits, r.opcode, r.CommandComplete?, b);
      }
  }

  /** The command sent is the front of the queue, so it moves from the queued part to the wire part. */
  lemma SendKeepsOrder(s: Host)
    requires OrderOk(s) && s.commands != []
    ensures OrderOk(SendCommand(s))
  {
    var c, rest := s.commands[0].command, Commands(s.commands[1..]);
    WireSnoc(s.log, CommandTx(c));
    CommandsFront(s.commands);
    PlusAssoc(CommandsOnWire(s.log), [c], rest);
  }

  lemma SubmitKeepsOrder(s: Host, w: Wait)
    requires OrderOk(s)
    ensures s.submitted + [w.command] == CommandsOnWire(s.log) + Commands(s.commands + [w])
  {
    CommandsSnoc(s.commands, w);
    PlusAssoc(CommandsOnWire(s.log), Commands(s.commands), [w.command]);
  }

  lemma TurnKeepsOrder(s: Host, up: bool)
    requires QueuesOk(s) && OrderOk(s)
    ensures OrderOk(TurnStep(s, up))
  {
    NextOk(s);
    if Next(s).Some? {
      DispatchOnLog(s.log, Next(s).value);
    } else if s.commands != [] && s.credits > 0 {
      SendKeepsOrder(s);
    }
  }

  lemma ArriveKeepsOrder(s: Host, buf: Buf, r: Report, up: bool)
    requires OrderOk(s)
    ensures OrderOk(ArriveStep(s, buf, r, up))
  {
    if !r.Other? {
      WireSnoc(s.log, Advertised(r.credits));
    }
  }

  lemma KeepsOrder(s: Host, a: Action)
    requires QueuesOk(s) && Allowed(s, a) && OrderOk(s)
    ensures OrderOk(HostStep(s, a))
  {
    match a
    case Submit(w) => SubmitKeepsOrder(s, w);
    case SubmitData(o) =>
    case Turn(up) => TurnKeepsOrder(s, up);
    case Arrive(buf, event, up) => ArriveKeepsOrder(s.(taken := s.taken + {buf}), buf, ParseEvent(event), up);
  }

  lemma DispatchStarts(log: seq<Happening>, current: Option<Out>, o: Out)
    requires OutOk(o) && Scan(log) == SpanOf(current) && (current.None? || (current == Some(o) && o.acl))
    ensures Started(log + DispatchLog(o)) == if current.None? then Started(log) + [o.buf] else Started(log)
  {
    if Cut(o) {
      var sent := DataTx(o.buf, FirstFragment(o.bytes, o.dataSize), false);
      StartedSnoc(log, sent);
      if o.quota == 1 {
        assert log + [sent, HandBack(o.buf)] == (log + [sent]) + [HandBack(o.buf)];
        StartedSnoc(log + [sent], HandBack(o.buf));
      }
    } else {
      StartedSnoc(log, DataTx(o.buf, o.bytes, true));
    }
  }

  /** The packet begun is the front of the queue, so it moves from the queued part to the begun part. */
  lemma BeginKeepsDataOrder(s: Host, up: bool)
    requires DataOrderOk(s) && s.packets != [] && OutOk(s.packets[0])
    requires Scan(s.log) == Idle
    ensures DataOrderOk(Dispatch(s.(packets := s.packets[1..]), s.packets[0], up))
  {
    DispatchStarts(s.log, None, s.packets[0]);
    BufsFront(s.packets);
    PlusAssoc(Started(s.log), [s.packets[0].buf], Bufs(s.packets[1..]));
  }

  lemma GoOnKeepsDataOrder(s: Host, o: Out, up: bool)
    requires DataOrderOk(s) && OutOk(o) && o.acl && Scan(s.log) == Open(o.buf)
    ensures DataOrderOk(Dispatch(s, o, up))
  {
    DispatchStarts(s.log, Some(o), o);
  }

  lemma TurnKeepsDataOrder(s: Host, up: bool)
    requires QueuesOk(s) && SpanOk(s) && DataOrderOk(s)
    ensures DataOrderOk(TurnStep(s, up))
  {
    if s.current.Some? {
      GoOnKeepsDataOrder(s, s.current.value, up);
    } else if s.commands != [] && s.credits > 0 {
      StartedSnoc(s.log, CommandTx(s.commands[0].command));
    } else if s.packets != [] {
      BeginKeepsDataOrder(s, up);
    }
  }

  lemma KeepsDataOrder(s: Host, a: Action)
    requires QueuesOk(s) && Allowed(s, a) && SpanOk(s) && DataOrderOk(s)
    ensures DataOrderOk(HostStep(s, a))
  {
    match a
    case Submit(w) =>
    case SubmitData(o) =>
      BufsSnoc(s.packets, o);
      PlusAssoc(Started(s.log), Bufs(s.packets), [o.buf]);
    case Turn(up) => TurnKeepsDataOrder(s, up);
    case Arrive(buf, event, up) => ArriveKeepsDataOrder(s.(taken := s.taken + {buf}), buf, ParseEvent(event), up);
  }

  lemma ArriveKeepsDataOrder(s: Host, buf: Buf, r: Report, up: bool)
    requires DataOrderOk(s)
    ensures DataOrderOk(ArriveStep(s, buf, r, up))
  {
    if !r.Other? {
      StartedSnoc(s.log, Advertised(r.credits));
    }
  }

  // ---------- every run ----------

  ghost predicate Good(s: Host) {
    && QueuesOk(s) && CreditsOk(s) && SpanOk(s) && TimerOk(s) && OrderOk(s) && DataOrderOk(s)
    && (forall b :: OnePlace(s, b)) && (forall b :: OnePhase(s, b)) && (forall k, b :: CalledOk(s, k, b))
  }

  lemma StepGood(s: Host, a: Action)
    requires Good(s) && Allowed(s, a)
    ensures Good(HostStep(s, a))
  {
    KeepsQueues(s, a);
    KeepsCredits(s, a);
    KeepsSpan(s, a);
    KeepsTimer(s, a);
    KeepsOrder(s, a);
    KeepsDataOrder(s, a);
    forall b ensures OnePlace(HostStep(s, a), b) {
      KeepsOnePlace(s, a, b);
    }
    forall b ensures OnePhase(HostStep(s, a), b) {
      KeepsOnePhase(s, a, b);
    }
    forall k, b ensures CalledOk(HostStep(s, a), k, b) {
      KeepsCalled(s, a, k, b);
    }
  }

  lemma {:induction false} RunGood(s: Host, actions: seq<Action>, s': Host)
    requires Good(s) && Reaches(s, actions, s')
    ensures Good(s')
    decreases |actions|
  {
    if actions != [] {
      StepGood(s, actions[0]);
      RunGood(HostStep(s, actions[0]), actions[1..], s');
    }
  }

  lemma ReachedGood(actions: seq<Action>, s: Host)
    requires Reaches(START_STATE, actions, s)
    ensures Good(s)
  {
    StartGood();
    RunGood(START_STATE, actions, s);
  }

  lemma StartGood()
    ensures Good(START_STATE)
  {
    var s := START_STATE;
    assert QueuesOk(s) && CreditsOk(s) && SpanOk(s) && TimerOk(s) && OrderOk(s) && DataOrderOk(s);
    forall b ensures OnePlace(s, b) && OnePhase(s, b) {
    }
    forall k, b ensures CalledOk(s, k, b) {
    }
  }

  lemma GoodOrder(s: Host, b: Buf)
    requires Good(s)
    ensures CommandsOnWire(s.log) <= s.submitted
    ensures OnePhase(s, b) && OnePlace(s, b)
  {
  }

  /**
   At the end of every run: credits are the last advertised value (initially 1) minus the commands sent
   since and never negative; the response timer runs exactly while answers are outstanding; a fragment
   span is open exactly while a packet is current, and the wire never broke the span rule.
   */
  lemma EveryRunFlows(actions: seq<Action>, s: Host)
    requires Reaches(START_STATE, actions, s)
    ensures SentSince(s.log) <= Allowance(s.log) && s.credits == Allowance(s.log) - SentSince(s.log)
    ensures s.timer <==> s.pending != []
    ensures Scan(s.log) == SpanOf(s.current)
  {
    ReachedGood(actions, s);
  }

  /**
   Every buffer ever submitted or received is in exactly one place, once: queued, pending, current, or
   at a single fate. No buffer is lost, freed twice, or both freed and handed on.
   */
  lemma EveryBufferOnePlace(actions: seq<Action>, s: Host, b: Buf)
    requires Reaches(START_STATE, actions, s)
    ensures Places(s, b) == if b in s.taken then 1 else 0
  {
    ReachedGood(actions, s);
    GoodOrder(s, b);
  }

  /** Data packets are begun in the order they were submitted. */
  lemma EveryRunDataInOrder(actions: seq<Action>, s: Host)
    requires Reaches(START_STATE, actions, s)
    ensures s.dataSubmitted == Started(s.log) + Bufs(s.packets)
  {
    ReachedGood(actions, s);
  }

  /**
   Commands go out in the order they were submitted, and each submitted command is in exactly one of
   the phases queued, pending and finished.
   */
  lemma EveryCommandOnePhase(actions: seq<Action>, s: Host, b: Buf)
    requires Reaches(START_STATE, actions, s)
    ensures CommandsOnWire(s.log) <= s.submitted
    ensures InCommands(s.commands, b) + InCommands(s.pending, b) + Finished(s, b) == if b in s.submitted then 1 else 0
  {
    ReachedGood(actions, s);
    GoodOrder(s, b);
  }

  /**
   In every run, for each command: its completion callback, or in its absence its future, has run exactly
   once if Command Complete finished it and it asked for that, its status callback exactly once if Command
   Status finished it and it asked for that, and otherwise they have never run. So Command Status never
   readies a future.
   */
  lemma EveryContinuationOnce(actions: seq<Action>, s: Host, k: Continuation, b: Buf)
    requires Reaches(START_STATE, actions, s)
    ensures Ran(s.fates, k, b) == if SomeAsks(FinishedFor(s, k), k, b) then 1 else 0
  {
    ReachedGood(actions, s);
    GoodOrder(s, b);
    assert CalledOk(s, k, b);
    AskedAtMost(FinishedFor(s, k), k, b);
    AskedIff(FinishedFor(s, k), k, b);
  }

  /** No step moves a command backwards: once sent it is never queued again, once finished it stays so. */
  lemma PhaseForward(s: Host, a: Action, b: Buf)
    requires QueuesOk(s) && Allowed(s, a)
    ensures Finished(s, b) <= Finished(HostStep(s, a), b)
    ensures InCommands(s.pending, b) + Finished(s, b)
            <= InCommands(HostStep(s, a).pending, b) + Finished(HostStep(s, a), b)
  {
    NextOk(s);
    match a
    case Submit(w) =>
    case SubmitData(o) =>
    case Turn(up) =>
      if Next(s).None? && s.commands != [] && s.credits > 0 {
        InCommandsPlus(s.pending, [s.commands[0]], b);
      }
    case Arrive(buf, event, up) =>
      var r := ParseEvent(event);
      if !r.Other? {
        AnswerOnBuffers(s.(taken := s.taken + {buf}), buf, r.credits, r.opcode, r.CommandComplete?, b);
        var i := Oldest(s.pending, r.opcode);
        if i < |s.pending| {
          InCommandsPlus(if r.CommandComplete? then s.completed else s.statused, [s.pending[i]], b);
        }
      }
  }
}
