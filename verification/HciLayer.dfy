/**
 The HCI layer's environment and handlers, updated field by field as the host task and the event path do.
 Every handler is one step of the machine in `HciHost`, whose runs carry the guarantees.
 */
module HciLayer {
  import opened Bytes
  import opened AclFraming
  import opened HciHost

  /** What the upper layers hand down, by message type. */
  datatype Downward = Command(command: Buf, bytes: seq<Byte>) | Data(packet: Out)

  ghost predicate Submits(d: Downward, a: Action) {
    match d
    case Command(command, bytes) =>
      a.Submit? && Le16(a.w.opcode) <= bytes && a.w == Wait(command, a.w.opcode, false, false, false)
    case Data(o) => a == SubmitData(o)
  }

  class Layer {
    var commandCredits: int
    var commandQueue: seq<Wait>
    var packetQueue: seq<Out>
    var currentFragmentPacket: Option<Out>
    var commandsPendingResponse: seq<Wait>
    var timerIsSet: bool
    ghost var log: seq<Happening>
    ghost var fates: seq<Fate>
    ghost var completed: seq<Wait>
    ghost var statused: seq<Wait>
    ghost var taken: set<Buf>
    ghost var submitted: seq<Buf>
    ghost var dataSubmitted: seq<Buf>

    ghost function View(): Host
      reads this
    {
      Host(commandCredits, commandQueue, packetQueue, currentFragmentPacket, commandsPendingResponse, timerIsSet,
           log, fates, completed, statused, taken, submitted, dataSubmitted)
    }

    constructor ()
      ensures View() == START_STATE && Good(View())
    {
      commandCredits, commandQueue, packetQueue := 1, [], [];
      currentFragmentPacket, commandsPendingResponse, timerIsSet := None, [], false;
      log, fates, completed, statused := [], [], [], [];
      taken, submitted, dataSubmitted := {}, [], [];
    }

    /** transmit_command: the opcode is read off the command's first two bytes. */
    method TransmitCommand(command: Buf, bytes: seq<Byte>, ghost opcode: U16, onComplete: bool, onStatus: bool)
      requires Good(View()) && command !in taken && Le16(opcode) <= bytes
      modifies this
      ensures Good(View())
      ensures View() == HostStep(old(View()), Submit(Wait(command, opcode, onComplete, onStatus, false)))
    {
      StepGood(View(), Submit(Wait(command, opcode, onComplete, onStatus, false)));
      Enqueue(Wait(command, ReadOpcode(bytes), onComplete, onStatus, false));
    }

    method TransmitCommandFutured(command: Buf, bytes: seq<Byte>, ghost opcode: U16)
      requires Good(View()) && command !in taken && Le16(opcode) <= bytes
      modifies this
      ensures Good(View()) && View() == HostStep(old(View()), Submit(Wait(command, opcode, false, false, true)))
    {
      StepGood(View(), Submit(Wait(command, opcode, false, false, true)));
      Enqueue(Wait(command, ReadOpcode(bytes), false, false, true));
    }

    method Enqueue(w: Wait)
      requires QueuesOk(View()) && w.command !in taken
      modifies this`commandQueue, this`taken, this`submitted
      ensures View() == HostStep(old(View()), Submit(w))
    {
      commandQueue := commandQueue + [w];
      taken, submitted := taken + {w.command}, submitted + [w.command];
    }

    function ReadOpcode(bytes: seq<Byte>): (opcode: U16)
      requires |bytes| >= 2
      ensures Le16(opcode) == bytes[..2]
    {
      FromLe16(bytes[0], bytes[1])
    }

    /** transmit_downward: a command is submitted without callbacks, everything else is queued as data. */
    method TransmitDownward(d: Downward, ghost a: Action)
      requires Good(View()) && Submits(d, a) && Allowed(View(), a)
      modifies this
      ensures Good(View()) && View() == HostStep(old(View()), a)
    {
      match d
      case Command(command, bytes) => TransmitCommand(command, bytes, a.w.opcode, false, false);
      case Data(o) => EnqueuePacket(o);
    }

    method EnqueuePacket(o: Out)
      requires Good(View()) && o.buf !in taken && OutOk(o)
      modifies this
      ensures Good(View()) && View() == HostStep(old(View()), SubmitData(o))
    {
      StepGood(View(), SubmitData(o));
      packetQueue := packetQueue + [o];
      taken, dataSubmitted := taken + {o.buf}, dataSubmitted + [o.buf];
    }

    /** One iteration of the host task when the controller can take a packet. */
    method HostTurn(upperTakes: bool)
      requires Good(View())
      modifies this
      ensures Good(View()) && View() == HostStep(old(View()), Turn(upperTakes))
    {
      StepGood(View(), Turn(upperTakes));
      NextOk(View());
      if currentFragmentPacket.Some? {
        FragmentAndDispatch(currentFragmentPacket.value, upperTakes);
      } else if commandQueue != [] && commandCredits > 0 {
        EventCommandReady();
      } else if packetQueue != [] {
        EventPacketReady(upperTakes);
      }
    }

    method EventCommandReady()
      requires commandQueue != []
      modifies this
      ensures View() == SendCommand(old(View()))
    {
      var waitEntry := commandQueue[0];
      commandQueue := commandQueue[1..];
      commandCredits := commandCredits - 1;
      commandsPendingResponse := commandsPendingResponse + [waitEntry];
      log := log + [CommandTx(waitEntry.command)];
      RestartCommandTimer();
    }

    method EventPacketReady(upperTakes: bool)
      requires packetQueue != [] && OutOk(packetQueue[0])
      modifies this
      ensures View() == Dispatch(old(View()).(packets := old(packetQueue)[1..]), old(packetQueue)[0], upperTakes)
    {
      var packet := packetQueue[0];
      packetQueue := packetQueue[1..];
      FragmentAndDispatch(packet, upperTakes);
    }

    /** The fragmenter on packet values; `PacketFragmenter` has it in place on buffers. */
    method FragmentAndDispatch(o: Out, upperTakes: bool)
      requires OutOk(o)
      modifies this`currentFragmentPacket, this`log, this`fates
      ensures currentFragmentPacket == DispatchCurrent(o, old(currentFragmentPacket))
      ensures log == old(log) + DispatchLog(o) && fates == old(fates) + DispatchFates(o, upperTakes)
    {
      if !o.acl {
        TransmitLast(o);
      } else if |o.bytes| > o.dataSize + PREAMBLE {
        log := log + [DataTx(o.buf, FirstFragment(o.bytes, o.dataSize), false)];
        var rest := o.(bytes := Remainder(o.bytes, o.dataSize));
        currentFragmentPacket := Some(rest);
        if rest.quota != 0 {
          rest := rest.(quota := rest.quota - 1);
          currentFragmentPacket := Some(rest);
          if rest.quota == 0 {
            currentFragmentPacket := None;
            log := log + [HandBack(o.buf)];
            fates := fates + [PassUp(o.buf, upperTakes)];
          }
        }
      } else {
        currentFragmentPacket := None;
        TransmitLast(o);
      }
    }

    method TransmitLast(o: Out)
      modifies this`log, this`fates
      ensures log == old(log) + [DataTx(o.buf, o.bytes, true)] && fates == old(fates) + [Freed(o.buf)]
    {
      log := log + [DataTx(o.buf, o.bytes, true)];
      fates := fates + [Freed(o.buf)];
    }

    method RestartCommandTimer()
      modifies this`timerIsSet
      ensures timerIsSet <==> commandsPendingResponse != []
    {
      if timerIsSet {
        timerIsSet := false;
      }
      if commandsPendingResponse != [] {
        timerIsSet := true;
      }
    }

    /** Take the oldest pending entry with this opcode off the list. */
    method GetWaitingCommand(opcode: U16) returns (w: Option<Wait>)
      modifies this`commandsPendingResponse
      ensures var pending := old(commandsPendingResponse);
              var i := Oldest(pending, opcode);
              && w == (if i < |pending| then Some(pending[i]) else None)
              && commandsPendingResponse == (if w.Some? then pending[..i] + pending[i + 1..] else pending)
    {
      var i := 0;
      while i < |commandsPendingResponse|
        invariant 0 <= i <= |commandsPendingResponse|
        invariant forall j :: 0 <= j < i ==> commandsPendingResponse[j].opcode != opcode
      {
        if commandsPendingResponse[i].opcode == opcode {
          w := Some(commandsPendingResponse[i]);
          commandsPendingResponse := commandsPendingResponse[..i] + commandsPendingResponse[i + 1..];
          return;
        }
        i := i + 1;
      }
      w := None;
    }

    /** hal_says_packet_ready for an event: intercept answers to commands, pass the rest up. */
    method EventArrives(packet: Buf, mem: seq<Byte>, upperTakes: bool)
      requires Good(View()) && packet !in taken && EventReadable(mem)
      modifies this
      ensures Good(View()) && View() == HostStep(old(View()), Arrive(packet, mem, upperTakes))
    {
      StepGood(View(), Arrive(packet, mem, upperTakes));
      taken := taken + {packet};
      FilterOrPassUp(packet, mem, upperTakes);
    }

    method FilterOrPassUp(packet: Buf, mem: seq<Byte>, upperTakes: bool)
      requires EventReadable(mem)
      modifies this
      ensures View() == ArriveStep(old(View()), packet, ParseEvent(mem), upperTakes)
    {
      var intercepted := FilterIncomingEvent(packet, mem);
      if !intercepted {
        fates := fates + [PassUp(packet, upperTakes)];
      }
    }

    method FilterIncomingEvent(packet: Buf, mem: seq<Byte>) returns (intercepted: bool)
      requires EventReadable(mem)
      modifies this
      ensures intercepted <==> !ParseEvent(mem).Other?
      ensures View() == if intercepted then ArriveStep(old(View()), packet, ParseEvent(mem), false) else old(View())
    {
      var eventCode := mem[0];
      if eventCode == 0x0E {
        Intercept(packet, mem[2], FromLe16(mem[3], mem[4]), true);
        return true;
      } else if eventCode == 0x0F {
        Intercept(packet, mem[3], FromLe16(mem[4], mem[5]), false);
        return true;
      } else {
        return false;
      }
    }

    method Intercept(packet: Buf, credits: Byte, opcode: U16, complete: bool)
      modifies this
      ensures View() == Answer(old(View()), packet, credits, opcode, complete)
    {
      var waitEntry := TakeAnswer(credits, opcode);
      Settle(packet, waitEntry, complete);
      AnswerIs(old(View()), View(), packet, credits, opcode, complete, waitEntry);
    }

    /** The credits of the event, the command it answers, and the timer for those still waiting. */
    method TakeAnswer(credits: Byte, opcode: U16) returns (w: Option<Wait>)
      modifies this`commandCredits, this`commandsPendingResponse, this`log, this`timerIsSet
      ensures commandCredits == credits && log == old(log) + [Advertised(credits)]
      ensures timerIsSet <==> commandsPendingResponse != []
      ensures var pending := old(commandsPendingResponse);
              var i := Oldest(pending, opcode);
              && w == (if i < |pending| then Some(pending[i]) else None)
              && commandsPendingResponse == (if w.Some? then pending[..i] + pending[i + 1..] else pending)
    {
      commandCredits := credits;
      w := GetWaitingCommand(opcode);
      log := log + [Advertised(credits)];
      RestartCommandTimer();
    }

    /** Callbacks, futures and frees at the end of an intercepted event. */
    method Settle(packet: Buf, waitEntry: Option<Wait>, complete: bool)
      modifies this`fates, this`completed, this`statused
      ensures fates == old(fates) + EventFates(packet, waitEntry, complete)
      ensures completed == if waitEntry.Some? && complete then old(completed) + [waitEntry.value] else old(completed)
      ensures statused == if waitEntry.Some? && !complete then old(statused) + [waitEntry.value] else old(statused)
    {
      if waitEntry.Some? {
        var w := waitEntry.value;
        if complete && w.onComplete {
          fates := fates + [ToComplete(packet, w.command)];
        } else if complete && w.future {
          fates := fates + [ToFuture(packet, w.command)];
        }
        if !complete || (!w.onComplete && !w.future) {
          fates := fates + [Freed(packet)];
        }
        if complete || !w.onStatus {
          fates := fates + [Freed(w.command)];
        } else {
          fates := fates + [ToStatus(w.command)];
        }
        if complete {
          completed := completed + [w];
        } else {
          statused := statused + [w];
        }
      } else {
        fates := fates + [Freed(packet)];
      }
    }
  }

  /** The answer of the machine, field by field. */
  lemma AnswerIs(s: Host, s': Host, buf: Buf, n: Byte, opcode: U16, complete: bool, w: Option<Wait>)
    requires var i := Oldest(s.pending, opcode);
             && w == (if i < |s.pending| then Some(s.pending[i]) else None)
             && s'.pending == (if w.Some? then s.pending[..i] + s.pending[i + 1..] else s.pending)
    requires s'.credits == n && s'.log == s.log + [Advertised(n)] && (s'.timer <==> s'.pending != [])
    requires s'.fates == s.fates + EventFates(buf, w, complete)
    requires s'.completed == (if w.Some? && complete then s.completed + [w.value] else s.completed)
    requires s'.statused == (if w.Some? && !complete then s.statused + [w.value] else s.statused)
    requires s'.commands == s.commands && s'.packets == s.packets && s'.current == s.current
    requires s'.taken == s.taken && s'.submitted == s.submitted && s'.dataSubmitted == s.dataSubmitted
    ensures s' == Answer(s, buf, n, opcode, complete)
  {
  }
}
