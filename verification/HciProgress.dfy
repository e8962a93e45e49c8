/**
 What the steps of the host machine achieve: an event, given as bytes, finishes the command it names; a
 packet once begun goes out fragment by fragment to its end; a turn with something to send sends it.
 */
module HciProgress {
  import opened Bytes
  import opened AclFraming
  import opened HciHost

  // ---------- events as bytes ----------

  /** Command Complete: number of allowed commands, then the opcode, low byte first. */
  function CompleteEvent(len: Byte, n: Byte, opcode: U16, rest: seq<Byte>): seq<Byte> {
    [0x0E, len, n] + Le16(opcode) + rest
  }

  /** Command Status: status, number of allowed commands, then the opcode. */
  function StatusEvent(len: Byte, status: Byte, n: Byte, opcode: U16, rest: seq<Byte>): seq<Byte> {
    [0x0F, len, status, n] + Le16(opcode) + rest
  }

  lemma CompleteOnBytes(len: Byte, n: Byte, opcode: U16, rest: seq<Byte>)
    ensures var event := CompleteEvent(len, n, opcode, rest);
            EventReadable(event) && ParseEvent(event) == CommandComplete(n, opcode)
  {
    var event := CompleteEvent(len, n, opcode, rest);
    assert event[0] == 0x0E && event[2] == n && event[3] == opcode % 256 && event[4] == opcode / 256;
  }

  lemma StatusOnBytes(len: Byte, status: Byte, n: Byte, opcode: U16, rest: seq<Byte>)
    ensures var event := StatusEvent(len, status, n, opcode, rest);
            EventReadable(event) && ParseEvent(event) == CommandStatus(n, opcode)
  {
    var event := StatusEvent(len, status, n, opcode, rest);
    assert event[0] == 0x0F && event[3] == n && event[4] == opcode % 256 && event[5] == opcode / 256;
  }

  lemma OtherOnBytes(event: seq<Byte>)
    requires EventReadable(event)
    ensures ParseEvent(event).Other? <==> event[0] !in {0x0E, 0x0F}
  {
  }

  /** Entry `i` is the oldest pending command with the opcode. */
  predicate OldestAt(pending: seq<Wait>, opcode: U16, i: nat) {
    i < |pending| && pending[i].opcode == opcode && forall j :: 0 <= j < i ==> pending[j].opcode != opcode
  }

  /** What answering command `w` with event `buf` leaves, apart from where the two buffers go. */
  ghost predicate AnsweredAt(s: Host, s': Host, i: nat, n: Byte) {
    && i < |s.pending|
    && s'.pending == s.pending[..i] + s.pending[i + 1..] && s'.credits == n && (s'.timer <==> s'.pending != [])
    && s'.commands == s.commands && s'.packets == s.packets && s'.current == s.current
  }

  /**
   A Command Complete with the opcode of a pending command finishes the oldest such command, sets the
   credits to its byte, gives the event to the command's callback or else its future, and frees the command.
   */
  lemma CompleteFinishesOldest(s: Host, buf: Buf, len: Byte, n: Byte, opcode: U16, rest: seq<Byte>, up: bool, i: nat)
    requires QueuesOk(s) && buf !in s.taken && OldestAt(s.pending, opcode, i)
    ensures EventReadable(CompleteEvent(len, n, opcode, rest))
    ensures var s', w := HostStep(s, Arrive(buf, CompleteEvent(len, n, opcode, rest), up)), s.pending[i];
            && AnsweredAt(s, s', i, n)
            && s'.completed == s.completed + [w] && s'.statused == s.statused
            && (w.onComplete ==> s'.fates == s.fates + [ToComplete(buf, w.command), Freed(w.command)])
            && (!w.onComplete && w.future ==> s'.fates == s.fates + [ToFuture(buf, w.command), Freed(w.command)])
            && (!w.onComplete && !w.future ==> s'.fates == s.fates + [Freed(buf), Freed(w.command)])
  {
    CompleteOnBytes(len, n, opcode, rest);
    OldestIs(s.pending, opcode, i);
  }

  /** A Command Status does the same with the status callback, which gets the command; the event is freed. */
  lemma StatusFinishesOldest(s: Host, buf: Buf, len: Byte, status: Byte, n: Byte, opcode: U16, rest: seq<Byte>,
                             up: bool, i: nat)
    requires QueuesOk(s) && buf !in s.taken && OldestAt(s.pending, opcode, i)
    ensures EventReadable(StatusEvent(len, status, n, opcode, rest))
    ensures var s', w := HostStep(s, Arrive(buf, StatusEvent(len, status, n, opcode, rest), up)), s.pending[i];
            && AnsweredAt(s, s', i, n)
            && s'.statused == s.statused + [w] && s'.completed == s.completed
            && (w.onStatus ==> s'.fates == s.fates + [Freed(buf), ToStatus(w.command)])
            && (!w.onStatus ==> s'.fates == s.fates + [Freed(buf), Freed(w.command)])
  {
    StatusOnBytes(len, status, n, opcode, rest);
    OldestIs(s.pending, opcode, i);
  }

  lemma OldestIs(pending: seq<Wait>, opcode: U16, i: nat)
    requires OldestAt(pending, opcode, i)
    ensures Oldest(pending, opcode) == i
  {
  }

  /** An answer to nobody still brings its credits; the event is freed and no command moves. */
  lemma UnmatchedOnlyCredits(s: Host, buf: Buf, event: seq<Byte>, n: Byte, opcode: U16, up: bool)
    requires QueuesOk(s) && buf !in s.taken && forall j :: 0 <= j < |s.pending| ==> s.pending[j].opcode != opcode
    requires (exists len, rest :: event == CompleteEvent(len, n, opcode, rest))
             || (exists len, status, rest :: event == StatusEvent(len, status, n, opcode, rest))
    ensures EventReadable(event)
    ensures var s' := HostStep(s, Arrive(buf, event, up));
            && s'.credits == n && s'.pending == s.pending && s'.fates == s.fates + [Freed(buf)]
            && s'.completed == s.completed && s'.statused == s.statused && s'.current == s.current
  {
    if len, rest :| event == CompleteEvent(len, n, opcode, rest) {
      CompleteOnBytes(len, n, opcode, rest);
    } else {
      var len, status, rest :| event == StatusEvent(len, status, n, opcode, rest);
      StatusOnBytes(len, status, n, opcode, rest);
    }
  }

  /** Any other event goes to the upper layer if that takes it, and is freed otherwise; nothing else changes. */
  lemma OtherEventGoesUp(s: Host, buf: Buf, event: seq<Byte>, up: bool)
    requires QueuesOk(s) && buf !in s.taken && EventReadable(event) && event[0] !in {0x0E, 0x0F}
    ensures HostStep(s, Arrive(buf, event, up))
            == s.(taken := s.taken + {buf}, fates := s.fates + [if up then ToUpper(buf) else Freed(buf)])
  {
  }

  // ---------- a packet once begun ----------

  function Turns(actions: seq<Action>): nat {
    if actions == [] then 0 else (if actions[0].Turn? then 1 else 0) + Turns(actions[1..])
  }

  /** The packets transmitted from a buffer, in order. */
  function DataOf(log: seq<Happening>, b: Buf): seq<seq<Byte>> {
    if log == [] then []
    else
      var init, e := log[..|log| - 1], log[|log| - 1];
      if e.DataTx? && e.buf == b then DataOf(init, b) + [e.bytes] else DataOf(init, b)
  }

  function HandBacks(log: seq<Happening>, b: Buf): nat {
    if log == [] then 0
    else HandBacks(log[..|log| - 1], b) + if log[|log| - 1] == HandBack(b) then 1 else 0
  }

  lemma OnLogSnoc(log: seq<Happening>, e: Happening, b: Buf)
    ensures DataOf(log + [e], b) == if e.DataTx? && e.buf == b then DataOf(log, b) + [e.bytes] else DataOf(log, b)
    ensures HandBacks(log + [e], b) == HandBacks(log, b) + if e == HandBack(b) then 1 else 0
  {
    assert (log + [e])[..|log|] == log;
  }

  /** An ACL packet that can be cut, for a controller that takes data. */
  predicate Cuttable(o: Out) {
    OutOk(o) && o.acl && |o.bytes| >= PREAMBLE && o.dataSize > 0
  }

  /** Everything that is to be sent for it, with its quota. */
  function RunOf(o: Out): QuotaRun
    requires Cuttable(o)
  {
    SendWithQuota(o.bytes, o.dataSize, o.quota)
  }

  /** What a dispatch leaves: nothing if this was all, or the packet with the rest of the run. */
  lemma DispatchIsRun(o: Out, current: Option<Out>)
    requires Cuttable(o)
    ensures var run, left := RunOf(o), DispatchCurrent(o, current);
            && |run.sent| > 0
            && (left.None? <==> |run.sent| == 1)
            && (left.Some? ==>
                  && Cuttable(left.value) && left.value.buf == o.buf && run.handedBack == RunOf(left.value).handedBack
                  && run.sent == [run.sent[0]] + RunOf(left.value).sent)
  {
    if Cut(o) {
      RemainderFields(o.bytes, o.dataSize);
      if o.quota != 1 {
        var k := if o.quota == 0 then 0 else o.quota - 1;
        QuotaCounts(Remainder(o.bytes, o.dataSize), o.dataSize, k);
        var rest := SendWithQuota(Remainder(o.bytes, o.dataSize), o.dataSize, k);
        assert rest.sent != [] by {
          if rest.handedBack.Some? {
            assert |rest.sent| == k;
          }
        }
      }
    }
  }

  lemma DispatchTransmits(log: seq<Happening>, o: Out)
    requires Cuttable(o)
    ensures var run := RunOf(o);
            && |run.sent| > 0
            && DataOf(log + DispatchLog(o), o.buf) == DataOf(log, o.buf) + [run.sent[0]]
            && HandBacks(log + DispatchLog(o), o.buf)
               == HandBacks(log, o.buf) + if |run.sent| == 1 && run.handedBack.Some? then 1 else 0
  {
    DispatchIsRun(o, None);
    var first := DispatchLog(o)[0];
    OnLogSnoc(log, first, o.buf);
    if Cut(o) && o.quota == 1 {
      assert log + DispatchLog(o) == (log + [first]) + [HandBack(o.buf)];
      OnLogSnoc(log + [first], HandBack(o.buf), o.buf);
    } else {
      assert DispatchLog(o) == [first];
    }
  }

  /** How far a packet has come: `k` of its fragments more are on the log, and at the end it has left. */
  ghost predicate Advanced(before: seq<Happening>, s': Host, o: Out, k: nat)
    requires Cuttable(o)
  {
    AdvancedBy(RunOf(o), DataOf(before, o.buf), HandBacks(before, o.buf), s', o.buf, k)
  }

  /** The same for a run, what was transmitted of the buffer before it, and how often it was handed back. */
  ghost predicate AdvancedBy(run: QuotaRun, data: seq<seq<Byte>>, backs: nat, s': Host, buf: Buf, k: nat) {
    && k <= |run.sent|
    && DataOf(s'.log, buf) == data + run.sent[..k]
    && (if k == |run.sent| then
          s'.current.None? && HandBacks(s'.log, buf) == backs + (if run.handedBack.Some? then 1 else 0)
        else
          s'.current.Some? && s'.current.value.buf == buf && HandBacks(s'.log, buf) == backs)
  }

  /** Submissions and events leave the packet and its transmissions alone. */
  lemma OthersLeave(s: Host, a: Action, b: Buf)
    requires QueuesOk(s) && Allowed(s, a) && !a.Turn?
    ensures var s' := HostStep(s, a);
            && s'.current == s.current
            && DataOf(s'.log, b) == DataOf(s.log, b) && HandBacks(s'.log, b) == HandBacks(s.log, b)
  {
    if a.Arrive? {
      var r := ParseEvent(a.event);
      if !r.Other? {
        OnLogSnoc(s.log, Advertised(r.credits), b);
      }
    }
  }

  lemma {:induction false} QuietStays(s: Host, actions: seq<Action>, s': Host, b: Buf)
    requires Turns(actions) == 0 && Reaches(s, actions, s')
    ensures s'.current == s.current && DataOf(s'.log, b) == DataOf(s.log, b)
    ensures HandBacks(s'.log, b) == HandBacks(s.log, b)
    decreases |actions|
  {
    if actions != [] {
      OthersLeave(s, actions[0], b);
      QuietStays(HostStep(s, actions[0]), actions[1..], s', b);
    }
  }

  /** From the dispatch of packet `o` on, every further turn sends its next fragment, whatever else happens. */
  lemma {:induction false} AfterDispatch(before: seq<Happening>, s: Host, o: Out, actions: seq<Action>, s': Host)
    requires Cuttable(o) && s.log == before + DispatchLog(o) && s.current == DispatchCurrent(o, Some(o))
    requires Reaches(s, actions, s') && 1 + Turns(actions) <= |RunOf(o).sent|
    ensures Advanced(before, s', o, 1 + Turns(actions))
    decreases |actions|
  {
    DispatchTransmits(before, o);
    if Turns(actions) == 0 {
      QuietAfter(before, s, o, actions, s');
    } else {
      DispatchIsRun(o, Some(o));
      OneAfterAnother(before, s, o, actions, s');
    }
  }

  lemma QuietAfter(before: seq<Happening>, s: Host, o: Out, actions: seq<Action>, s': Host)
    requires Cuttable(o) && s.current == DispatchCurrent(o, Some(o)) && |RunOf(o).sent| > 0
    requires Reaches(s, actions, s') && Turns(actions) == 0
    requires DataOf(s.log, o.buf) == DataOf(before, o.buf) + [RunOf(o).sent[0]]
    requires HandBacks(s.log, o.buf)
             == HandBacks(before, o.buf) + if |RunOf(o).sent| == 1 && RunOf(o).handedBack.Some? then 1 else 0
    ensures Advanced(before, s', o, 1)
  {
    QuietStays(s, actions, s', o.buf);
    OneSent(before, s', o);
  }

  lemma OneSent(before: seq<Happening>, s': Host, o: Out)
    requires Cuttable(o) && s'.current == DispatchCurrent(o, Some(o)) && |RunOf(o).sent| > 0
    requires DataOf(s'.log, o.buf) == DataOf(before, o.buf) + [RunOf(o).sent[0]]
    requires HandBacks(s'.log, o.buf)
             == HandBacks(before, o.buf) + if |RunOf(o).sent| == 1 && RunOf(o).handedBack.Some? then 1 else 0
    ensures Advanced(before, s', o, 1)
  {
    DispatchIsRun(o, Some(o));
    assert RunOf(o).sent[..1] == [RunOf(o).sent[0]];
  }

  lemma {:induction false} OneAfterAnother(before: seq<Happening>, s: Host, o: Out, actions: seq<Action>, s': Host)
    requires Cuttable(o) && s.current.Some? && s.current == DispatchCurrent(o, Some(o)) && |RunOf(o).sent| > 1
    requires DataOf(s.log, o.buf) == DataOf(before, o.buf) + [RunOf(o).sent[0]]
    requires HandBacks(s.log, o.buf) == HandBacks(before, o.buf)
    requires Reaches(s, actions, s') && 0 < Turns(actions) < |RunOf(o).sent|
    ensures Advanced(before, s', o, 1 + Turns(actions))
    decreases |actions|, 0
  {
    var a, s1 := actions[0], HostStep(s, actions[0]);
    if a.Turn? {
      var left := s.current.value;
      DispatchIsRun(o, Some(o));
      assert s1.log == s.log + DispatchLog(left) && s1.current == DispatchCurrent(left, Some(left));
      AfterDispatch(s.log, s1, left, actions[1..], s');
      JoinRuns(RunOf(o), RunOf(left), RunOf(o).sent[0], DataOf(before, o.buf), HandBacks(before, o.buf), s', o.buf,
               Turns(actions));
    } else {
      OthersLeave(s, a, o.buf);
      OneAfterAnother(before, s1, o, actions[1..], s');
    }
  }

  /** A first transmission and then `k` of the rest are one more of the whole. */
  lemma JoinRuns(run: QuotaRun, rest: QuotaRun, first: seq<Byte>, data: seq<seq<Byte>>, backs: nat,
                 s': Host, buf: Buf, k: nat)
    requires run.sent == [first] + rest.sent && run.handedBack == rest.handedBack
    requires AdvancedBy(rest, data + [first], backs, s', buf, k)
    ensures AdvancedBy(run, data, backs, s', buf, 1 + k)
  {
    assert run.sent[..1 + k] == [first] + rest.sent[..k];
    PlusAssoc(data, [first], rest.sent[..k]);
  }

  /**
   Progress: a current packet needs exactly as many turns as its quota run has fragments. After that many,
   with any submissions and events between them, it is no longer current, the transmissions of its buffer
   since are exactly the run's fragments in order, and it was handed back iff the run hands it back; after
   fewer turns it is still current with exactly that many fragments sent.
   */
  lemma CurrentPacketFinishes(s: Host, o: Out, actions: seq<Action>, s': Host)
    requires Good(s) && s.current == Some(o) && o.dataSize > 0 && Reaches(s, actions, s')
    requires Turns(actions) <= |RunOf(o).sent|
    ensures Advanced(s.log, s', o, Turns(actions))
    decreases |actions|
  {
    DispatchIsRun(o, None);
    if actions == [] {
      assert RunOf(o).sent[..0] == [] && DataOf(s.log, o.buf) + [] == DataOf(s.log, o.buf);
    } else if actions[0].Turn? {
      AfterDispatch(s.log, HostStep(s, actions[0]), o, actions[1..], s');
    } else {
      OthersLeave(s, actions[0], o.buf);
      StepGood(s, actions[0]);
      CurrentPacketFinishes(HostStep(s, actions[0]), o, actions[1..], s');
    }
  }

  // ---------- a turn with no packet current ----------

  /** With a credit and a queued command, a turn transmits the oldest command not yet sent. */
  lemma TurnSendsCommand(s: Host, up: bool)
    requires Good(s) && s.current.None? && s.commands != [] && s.credits > 0
    ensures var s', sent := HostStep(s, Turn(up)), |CommandsOnWire(s.log)|;
            && sent < |s.submitted| && s'.log == s.log + [CommandTx(s.submitted[sent])]
            && s'.pending == s.pending + [s.commands[0]] && s'.credits == s.credits - 1 && s'.timer
            && s.commands[0].command == s.submitted[sent]
  {
    CommandsFront(s.commands);
    var wire := CommandsOnWire(s.log);
    assert s.submitted == wire + Commands(s.commands);
    assert s.submitted[|wire|] == Commands(s.commands)[0];
  }

  /**
   Otherwise it transmits from the oldest data packet not yet begun: the whole packet if it needs no cutting,
   else its first fragment.
   */
  lemma TurnSendsData(s: Host, up: bool)
    requires Good(s) && s.current.None? && (s.commands == [] || s.credits == 0) && s.packets != []
    ensures var s', o, begun := HostStep(s, Turn(up)), s.packets[0], |Started(s.log)|;
            && begun < |s.dataSubmitted| && o.buf == s.dataSubmitted[begun]
            && |s'.log| > |s.log|
            && s'.log[|s.log|] == (if o.acl && |o.bytes| > o.dataSize + PREAMBLE
                                   then DataTx(o.buf, FirstFragment(o.bytes, o.dataSize), false)
                                   else DataTx(o.buf, o.bytes, true))
  {
    BufsFront(s.packets);
    var begun := Started(s.log);
    assert s.dataSubmitted == begun + Bufs(s.packets);
    assert s.dataSubmitted[|begun|] == Bufs(s.packets)[0];
  }

  /** From that turn on the packet goes out to its end. */
  lemma BegunPacketFinishes(s: Host, up: bool, actions: seq<Action>, s': Host)
    requires Good(s) && s.current.None? && (s.commands == [] || s.credits == 0) && s.packets != []
    requires Cuttable(s.packets[0]) && Reaches(HostStep(s, Turn(up)), actions, s')
    requires 1 + Turns(actions) <= |RunOf(s.packets[0]).sent|
    ensures Advanced(s.log, s', s.packets[0], 1 + Turns(actions))
  {
    AfterDispatch(s.log, HostStep(s, Turn(up)), s.packets[0], actions, s');
  }

  /** A packet that is not ACL, or fits, is gone after its one turn, and freed. */
  lemma UncutPacketFinishes(s: Host, up: bool)
    requires Good(s) && s.current.None? && (s.commands == [] || s.credits == 0) && s.packets != []
    requires !s.packets[0].acl || |s.packets[0].bytes| <= s.packets[0].dataSize + PREAMBLE
    ensures var s', o := HostStep(s, Turn(up)), s.packets[0];
            && s'.log == s.log + [DataTx(o.buf, o.bytes, true)] && s'.current.None?
            && s'.packets == s.packets[1..] && s'.fates == s.fates + [Freed(o.buf)]
  {
  }

  /** A packet handed back goes to the upper layer if that takes it, and is freed otherwise. */
  lemma HandedBackGoesUp(s: Host, up: bool)
    requires Good(s) && s.current.Some?
    requires |s.current.value.bytes| > s.current.value.dataSize + PREAMBLE && s.current.value.quota == 1
    ensures HostStep(s, Turn(up)).fates
            == s.fates + [if up then ToUpper(s.current.value.buf) else Freed(s.current.value.buf)]
  {
  }
}
