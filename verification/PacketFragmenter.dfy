/**
 The sending half of the packet fragmenter, in place on packet buffers. Each method is tied to the byte
 functions of `AclFraming`; the receiving half is in `PacketReassembler`.
 */
module PacketFragmenter {
  import opened Bytes
  import opened AclFraming

  const EVENT_ACL_OUT: U16 := 0x2100
  const EVENT_SEG_XMIT: U16 := 0x1900

  function EventClass(event: U16): int {
    event / 256 * 256
  }

  /** A BT_HDR buffer: the packet is the `len` bytes of `data` from `offset` on. */
  class Packet {
    var event: U16
    var len: U16
    var offset: U16
    var layerSpecific: U16
    const data: array<Byte>

    constructor (event: U16, len: U16, size: nat)
      ensures this.event == event && this.len == len && offset == 0 && layerSpecific == 0
      ensures fresh(data) && data.Length == size
    {
      this.event, this.len, offset, layerSpecific := event, len, 0, 0;
      data := new Byte[size];
    }

    ghost predicate Valid()
      reads this
    {
      offset + len <= data.Length && offset + len < 0x10000
    }

    function Contents(): seq<Byte>
      requires Valid()
      reads this, data
    {
      data[offset..offset + len]
    }
  }

  // ---------- rewriting a buffer ----------

  function Put16(d: seq<Byte>, i: nat, n: U16): seq<Byte>
    requires i + 2 <= |d|
  {
    d[i := n % 256][i + 1 := n / 256]
  }

  method WriteU16(a: array<Byte>, i: nat, n: U16)
    requires i + 2 <= a.Length
    modifies a
    ensures a[..] == Put16(old(a[..]), i, n)
  {
    a[i], a[i + 1] := n % 256, n / 256;
  }

  /** A write of two bytes changes a slice only if the slice meets them. */
  lemma Put16Slice(d: seq<Byte>, k: nat, n: U16, i: nat, j: nat)
    requires k + 2 <= |d| && i <= j <= |d|
    ensures |Put16(d, k, n)| == |d|
    ensures j <= k || k + 2 <= i ==> Put16(d, k, n)[i..j] == d[i..j]
    ensures i == k && j == k + 2 ==> Put16(d, k, n)[i..j] == Le16(n)
  {
  }

  /** Writing the fragment length over the packet's own gives the first fragment. */
  lemma CutFirst(d: seq<Byte>, o: nat, len: nat, m: nat)
    requires o + len <= |d| && Fragmentable(d[o..o + len], m) && Oversize(d[o..o + len], m)
    ensures Put16(d, o + 2, m)[o..o + PREAMBLE + m] == FirstFragment(d[o..o + len], m)
  {
    var b, d1, e := d[o..o + len], Put16(d, o + 2, m), o + PREAMBLE + m;
    Put16Slice(d, o + 2, m, o, o + 2);
    Put16Slice(d, o + 2, m, o + 2, o + 4);
    Put16Slice(d, o + 2, m, o + 4, e);
    SliceSlice(d, o, o + len, 0, 2);
    SliceSlice(d, o, o + len, 4, 4 + m);
    assert d1[o..e] == d1[o..o + 2] + d1[o + 2..o + 4] + d1[o + 4..e];
  }

  /** Writing the next header over the last bytes sent gives the remaining packet. */
  lemma CutRest(d: seq<Byte>, d1: seq<Byte>, o: nat, len: nat, m: nat, c: U16)
    requires o + len <= |d| && Fragmentable(d[o..o + len], m) && Oversize(d[o..o + len], m)
    requires d1 == Put16(d, o + 2, m) && |d1| == |d|
    requires Le16(c) == FieldBytes(ContinuationField(HandleField(d[o..o + len])))
    ensures Put16(Put16(d1, o + m, c), o + m + 2, len - m - PREAMBLE)[o + m..o + len] == Remainder(d[o..o + len], m)
  {
    RestBytes(d, d1, o, len, m, c);
  }

  /** Both writes of one cut, on the bytes `b` of the packet at `o`. */
  lemma CutBoth(d: seq<Byte>, o: nat, len: nat, m: nat, c: U16, b: seq<Byte>)
    requires o + len <= |d| && b == d[o..o + len] && Fragmentable(b, m) && Oversize(b, m)
    requires Le16(c) == FieldBytes(ContinuationField(HandleField(b)))
    ensures var d1 := Put16(d, o + 2, m);
            && |d1| == |d| && d1[o..o + PREAMBLE + m] == FirstFragment(b, m)
            && Put16(Put16(d1, o + m, c), o + m + 2, len - m - PREAMBLE)[o + m..o + len] == Remainder(b, m)
  {
    CutFirst(d, o, len, m);
    CutRest(d, Put16(d, o + 2, m), o, len, m, c);
  }

  lemma RestBytes(d: seq<Byte>, d1: seq<Byte>, o: nat, len: nat, m: nat, c: U16)
    requires o + len <= |d| && m + PREAMBLE < len < 0x10000
    requires d1 == Put16(d, o + 2, m) && |d1| == |d|
    ensures Put16(Put16(d1, o + m, c), o + m + 2, len - m - PREAMBLE)[o + m..o + len]
            == Le16(c) + Le16(len - m - PREAMBLE) + d[o..o + len][PREAMBLE + m..]
  {
    TwoWords(d1, o + m, c, len - m - PREAMBLE, o + len);
    Put16Slice(d, o + 2, m, o + m + 4, o + len);
    SliceSlice(d, o, o + len, PREAMBLE + m, len);
    assert d[o..o + len][PREAMBLE + m..len] == d[o..o + len][PREAMBLE + m..];
  }

  lemma TwoWords(d: seq<Byte>, x: nat, c: U16, n: U16, e: nat)
    requires x + 4 <= e <= |d|
    ensures Put16(Put16(d, x, c), x + 2, n)[x..e] == Le16(c) + Le16(n) + d[x + 4..e]
  {
    var d2 := Put16(d, x, c);
    Put16Slice(d, x, c, x, x + 2);
    Put16Slice(d, x, c, x + 4, e);
    HeaderSlices(d2, x, n, e);
  }

  lemma HeaderSlices(d: seq<Byte>, x: nat, n: U16, e: nat)
    requires x + 4 <= e <= |d|
    ensures |Put16(d, x + 2, n)| == |d| && Put16(d, x + 2, n)[x..e] == d[x..x + 2] + Le16(n) + d[x + 4..e]
  {
    var d3 := Put16(d, x + 2, n);
    Put16Slice(d, x + 2, n, x, x + 2);
    Put16Slice(d, x + 2, n, x + 2, x + 4);
    Put16Slice(d, x + 2, n, x + 4, e);
    assert d3[x..e] == d3[x..x + 2] + d3[x + 2..x + 4] + d3[x + 4..e];
  }

  /** One call of the `fragmented` callback. */
  datatype Sent = Sent(packet: Packet, bytes: seq<Byte>, last: bool)

  /** The callbacks a whole dispatch makes for the fragments `run.sent` of packet `p`. */
  ghost function Callbacks(p: Packet, run: QuotaRun): seq<Sent> {
    seq(|run.sent|, i requires 0 <= i < |run.sent| => Sent(p, run.sent[i], run.handedBack.None? && i == |run.sent| - 1))
  }

  /**
   The fragments sent for the packet `b` suit a controller that takes `limit` bytes of data: none carries
   more, all but the last carry exactly that many, and a packet that fits goes out whole.
   */
  ghost predicate Sized(p: Packet, b: seq<Byte>, now: seq<Sent>, before: seq<Sent>, limit: nat) {
    && before <= now
    && (forall i :: |before| <= i < |now| ==> |now[i].bytes| <= limit + PREAMBLE)
    && (forall i :: |before| <= i < |now| && !now[i].last ==> |now[i].bytes| == limit + PREAMBLE)
    && (|b| <= limit + PREAMBLE ==> now == before + [Sent(p, b, true)])
  }

  class Fragmenter {
    const classicSize: U16
    const bleSize: U16
    var current: Packet?
    var sent: seq<Sent>
    var handedBack: seq<Packet>

    constructor (classicSize: U16, bleSize: U16)
      ensures current == null && sent == [] && handedBack == []
    {
      this.classicSize, this.bleSize := classicSize, bleSize;
      current, sent, handedBack := null, [], [];
    }

    function DataSize(event: U16): U16 {
      if event % 256 == 0 then classicSize else bleSize
    }

    /**
     One dispatch. An ACL packet that is too long gives away its first fragment and is turned in place
     into the packet of the rest: the new header overwrites bytes that have just been sent, and the
     callback saw them before that.
     */
    method FragmentAndDispatch(p: Packet)
      requires p.Valid()
      requires EventClass(p.event) == EVENT_ACL_OUT ==>
                 p.offset + 2 <= p.data.Length && DataSize(p.event) + PREAMBLE < 0x10000
      modifies this, p, p.data
      ensures p.Valid()
      ensures var b, m, acl := old(p.Contents()), DataSize(old(p.event)), EventClass(old(p.event)) == EVENT_ACL_OUT;
              && (!acl || !Oversize(b, m) ==>
                    && sent == old(sent) + [Sent(p, b, true)]
                    && current == (if acl then null else old(current))
                    && handedBack == old(handedBack) && p.Contents() == b
                    && p.event == old(p.event) && p.layerSpecific == old(p.layerSpecific))
              && (acl && Oversize(b, m) ==>
                    && sent == old(sent) + [Sent(p, FirstFragment(b, m), false)]
                    && p.Contents() == Remainder(b, m)
                    && p.layerSpecific == (if old(p.layerSpecific) == 0 then 0 else old(p.layerSpecific) - 1)
                    && (if old(p.layerSpecific) == 1
                        then current == null && handedBack == old(handedBack) + [p] && p.event == EVENT_SEG_XMIT
                        else current == p && handedBack == old(handedBack) && p.event == old(p.event)))
      ensures old(p.event) == 0x2100 ==> Sized(p, old(p.Contents()), sent, old(sent), classicSize)
      ensures 0x2100 < old(p.event) < 0x2200 ==> Sized(p, old(p.Contents()), sent, old(sent), bleSize)
      ensures !(0x2100 <= old(p.event) < 0x2200) ==>
                sent == old(sent) + [Sent(p, old(p.Contents()), true)] && current == old(current)
    {
      if EventClass(p.event) != EVENT_ACL_OUT {
        sent := sent + [Sent(p, p.Contents(), true)];
        return;
      }
      FragmentAcl(p, DataSize(p.event));
    }

    /** An ACL packet, for a controller that takes `maxData` bytes of data. */
    method FragmentAcl(p: Packet, maxData: U16)
      requires p.Valid() && p.offset + 2 <= p.data.Length && maxData + PREAMBLE < 0x10000
      modifies this, p, p.data
      ensures p.Valid() && Sized(p, old(p.Contents()), sent, old(sent), maxData)
      ensures var b := old(p.Contents());
              if Oversize(b, maxData) then
                && sent == old(sent) + [Sent(p, FirstFragment(b, maxData), false)]
                && p.Contents() == Remainder(b, maxData)
                && p.layerSpecific == (if old(p.layerSpecific) == 0 then 0 else old(p.layerSpecific) - 1)
                && (if old(p.layerSpecific) == 1
                    then current == null && handedBack == old(handedBack) + [p] && p.event == EVENT_SEG_XMIT
                    else current == p && handedBack == old(handedBack) && p.event == old(p.event))
              else
                && sent == old(sent) + [Sent(p, b, true)] && current == null
                && handedBack == old(handedBack) && p.Contents() == b
                && p.event == old(p.event) && p.layerSpecific == old(p.layerSpecific)
    {
      OneSized(p, p.Contents(), maxData, sent);
      var maxPacket := maxData + PREAMBLE;
      var o := p.offset;
      var handle := ApplyContinuation(FromLe16(p.data[o], p.data[o + 1]));
      MacrosOnBytes(Field(p.data[o], p.data[o + 1]));
      if p.len > maxPacket {
        current := p;
        CutInPlace(p, maxData, handle);
        if p.layerSpecific != 0 {
          p.layerSpecific := p.layerSpecific - 1;
          if p.layerSpecific == 0 {
            p.event := EVENT_SEG_XMIT;
            current := null;
            handedBack := handedBack + [p];
          }
        }
      } else {
        current := null;
        sent := sent + [Sent(p, p.Contents(), true)];
      }
    }

    /** Send the first fragment and write the header of the next one behind it. */
    method CutInPlace(p: Packet, maxData: U16, handle: U16)
      requires p.Valid() && maxData + PREAMBLE < 0x10000 && Oversize(p.Contents(), maxData)
      requires Le16(handle) == FieldBytes(ContinuationField(HandleField(p.Contents())))
      modifies this`sent, p`len, p`offset, p.data
      ensures p.Valid()
      ensures sent == old(sent) + [Sent(p, FirstFragment(old(p.Contents()), maxData), false)]
      ensures p.Contents() == Remainder(old(p.Contents()), maxData)
    {
      ghost var first, rest := FirstFragment(p.Contents(), maxData), Remainder(p.Contents(), maxData);
      CutBoth(p.data[..], p.offset, p.len, maxData, handle, p.Contents());
      var remaining := p.len;
      SendFirst(p, maxData, first);
      WriteNext(p, maxData, remaining, handle, rest);
    }

    /** Behind the fragment just sent, make a header for what is left of the `total` bytes. */
    method WriteNext(p: Packet, maxData: U16, total: U16, handle: U16, ghost rest: seq<Byte>)
      requires p.offset + total <= p.data.Length && p.offset + total < 0x10000 && maxData + PREAMBLE < total
      requires var x := p.offset + maxData;
               Put16(Put16(p.data[..], x, handle), x + 2, total - maxData - PREAMBLE)[x..p.offset + total] == rest
      modifies p`len, p`offset, p.data
      ensures p.Valid() && p.Contents() == rest
    {
      p.offset := p.offset + maxData;
      p.len := total - maxData;
      WriteU16(p.data, p.offset, handle);
      WriteU16(p.data, p.offset + 2, p.len - PREAMBLE);
      assert p.Contents() == p.data[..][p.offset..p.offset + p.len];
    }

    method SendFirst(p: Packet, maxData: U16, ghost first: seq<Byte>)
      requires p.offset + PREAMBLE + maxData <= p.data.Length && p.offset + PREAMBLE + maxData < 0x10000
      requires Put16(p.data[..], p.offset + 2, maxData)[p.offset..p.offset + PREAMBLE + maxData] == first
      modifies this`sent, p`len, p.data
      ensures p.data[..] == Put16(old(p.data[..]), p.offset + 2, maxData)
      ensures sent == old(sent) + [Sent(p, first, false)]
    {
      WriteU16(p.data, p.offset + 2, maxData);
      p.len := maxData + PREAMBLE;
      assert p.Contents() == p.data[..][p.offset..p.offset + PREAMBLE + maxData];
      sent := sent + [Sent(p, p.Contents(), false)];
    }

    /**
     Dispatching a packet again and again, as the host task does while it is current: the remaining
     length falls by the data size each time, and the callbacks see exactly the quota run of the bytes.
     */
    method TransmitToEnd(p: Packet)
      requires p.Valid() && p.len >= PREAMBLE && EventClass(p.event) == EVENT_ACL_OUT
      requires 0 < DataSize(p.event) && DataSize(p.event) + PREAMBLE < 0x10000
      modifies this, p, p.data
      ensures p.Valid() && current == null
      ensures var run := SendWithQuota(old(p.Contents()), DataSize(old(p.event)), old(p.layerSpecific));
              && sent == old(sent) + Callbacks(p, run)
              && (run.handedBack.Some? ==>
                    && p.Contents() == run.handedBack.value
                    && handedBack == old(handedBack) + [p] && p.event == EVENT_SEG_XMIT)
              && (run.handedBack.None? ==> handedBack == old(handedBack) && p.event == old(p.event))
      ensures old(p.event) == 0x2100 ==> Sized(p, old(p.Contents()), sent, old(sent), classicSize)
      ensures 0x2100 < old(p.event) < 0x2200 ==> Sized(p, old(p.Contents()), sent, old(sent), bleSize)
    {
      RunSized(p, p.Contents(), DataSize(p.event), p.layerSpecific, sent);
      TransmitRun(p);
    }

    method TransmitRun(p: Packet)
      requires p.Valid() && p.len >= PREAMBLE && EventClass(p.event) == EVENT_ACL_OUT
      requires 0 < DataSize(p.event) && DataSize(p.event) + PREAMBLE < 0x10000
      modifies this, p, p.data
      ensures p.Valid() && current == null
      ensures var run := SendWithQuota(old(p.Contents()), DataSize(old(p.event)), old(p.layerSpecific));
              && sent == old(sent) + Callbacks(p, run)
              && (run.handedBack.Some? ==>
                    && p.Contents() == run.handedBack.value
                    && handedBack == old(handedBack) + [p] && p.event == EVENT_SEG_XMIT)
              && (run.handedBack.None? ==> handedBack == old(handedBack) && p.event == old(p.event))
    {
      ghost var m := DataSize(p.event);
      ghost var run := SendWithQuota(p.Contents(), m, p.layerSpecific);
      current := p;
      while current != null
        invariant current == null || current == p
        invariant p.Valid() && p.len >= PREAMBLE
        invariant current == p ==>
                    && p.event == old(p.event) && handedBack == old(handedBack)
                    && Outstanding(p, SendWithQuota(p.Contents(), m, p.layerSpecific), run, sent, old(sent))
        invariant current == null ==>
                    && sent == old(sent) + Callbacks(p, run)
                    && (run.handedBack.Some? ==>
                          && p.Contents() == run.handedBack.value
                          && handedBack == old(handedBack) + [p] && p.event == EVENT_SEG_XMIT)
                    && (run.handedBack.None? ==> handedBack == old(handedBack) && p.event == old(p.event))
        decreases if current == null then 0 else p.len
      {
        OutstandingStep(p, p.Contents(), m, p.layerSpecific, run, sent, old(sent));
        FragmentAndDispatch(p);
      }
    }
  }

  lemma {:induction false} RunFull(b: seq<Byte>, m: nat, q: nat)
    requires Fragmentable(b, m) && m > 0
    ensures var run := SendWithQuota(b, m, q);
            && |run.sent| > 0
            && (forall i :: 0 <= i < |run.sent| ==> |run.sent[i]| <= m + PREAMBLE)
            && (forall i :: 0 <= i < |run.sent| && (run.handedBack.Some? || i < |run.sent| - 1) ==>
                  |run.sent[i]| == m + PREAMBLE)
    decreases |b|
  {
    if Oversize(b, m) {
      FirstFragmentFields(b, m);
      if q != 1 {
        var k := if q == 0 then 0 else q - 1;
        RunFull(Remainder(b, m), m, k);
        var rest := SendWithQuota(Remainder(b, m), m, k);
        var all := [FirstFragment(b, m)] + rest.sent;
        assert forall i :: 1 <= i < |all| ==> all[i] == rest.sent[i - 1];
      }
    }
  }

  lemma OneSized(p: Packet, b: seq<Byte>, m: nat, before: seq<Sent>)
    requires |b| < 0x10000 && m + PREAMBLE < 0x10000
    ensures if Oversize(b, m) then Sized(p, b, before + [Sent(p, FirstFragment(b, m), false)], before, m)
            else Sized(p, b, before + [Sent(p, b, true)], before, m)
  {
    if Oversize(b, m) {
      FirstFragmentFields(b, m);
    }
  }

  lemma RunSized(p: Packet, b: seq<Byte>, m: nat, q: nat, before: seq<Sent>)
    requires Fragmentable(b, m) && m > 0
    ensures Sized(p, b, before + Callbacks(p, SendWithQuota(b, m, q)), before, m)
  {
    RunFull(b, m, q);
    if !Oversize(b, m) {
      CallbacksOne(p, b, None);
    }
  }

  /** `left` is still to come: with it, the callbacks made so far add up to those of `run`. */
  ghost predicate Outstanding(p: Packet, left: QuotaRun, run: QuotaRun, now: seq<Sent>, before: seq<Sent>) {
    left.handedBack == run.handedBack && before + Callbacks(p, run) == now + Callbacks(p, left)
  }

  lemma CallbacksCons(p: Packet, f: seq<Byte>, after: QuotaRun)
    requires |after.sent| > 0
    ensures Callbacks(p, QuotaRun([f] + after.sent, after.handedBack)) == [Sent(p, f, false)] + Callbacks(p, after)
  {
    var all := QuotaRun([f] + after.sent, after.handedBack);
    forall i | 1 <= i < |all.sent| ensures Callbacks(p, all)[i] == Callbacks(p, after)[i - 1] {
      assert all.sent[i] == after.sent[i - 1];
    }
  }

  lemma CallbacksOne(p: Packet, f: seq<Byte>, handedBack: Option<seq<Byte>>)
    ensures Callbacks(p, QuotaRun([f], handedBack)) == [Sent(p, f, handedBack.None?)]
  {
  }

  lemma OutstandingStep(p: Packet, b: seq<Byte>, m: nat, q: nat, run: QuotaRun, now: seq<Sent>, before: seq<Sent>)
    requires Fragmentable(b, m) && m > 0
    requires Outstanding(p, SendWithQuota(b, m, q), run, now, before)
    ensures Oversize(b, m) && q != 1 ==>
              var left := SendWithQuota(Remainder(b, m), m, if q == 0 then 0 else q - 1);
              Outstanding(p, left, run, now + [Sent(p, FirstFragment(b, m), false)], before)
    ensures Oversize(b, m) && q == 1 ==>
              && now + [Sent(p, FirstFragment(b, m), false)] == before + Callbacks(p, run)
              && run.handedBack == Some(Remainder(b, m))
    ensures !Oversize(b, m) ==> now + [Sent(p, b, true)] == before + Callbacks(p, run) && run.handedBack == None
  {
    if Oversize(b, m) && q != 1 {
      var f, k := FirstFragment(b, m), if q == 0 then 0 else q - 1;
      var after := SendWithQuota(Remainder(b, m), m, k);
      QuotaCounts(Remainder(b, m), m, k);
      CallbacksCons(p, f, after);
      PlusAssoc(now, [Sent(p, f, false)], Callbacks(p, after));
    } else if Oversize(b, m) {
      CallbacksOne(p, FirstFragment(b, m), Some(Remainder(b, m)));
    } else {
      CallbacksOne(p, b, None);
    }
  }
}
