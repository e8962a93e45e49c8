/**
 HCI ACL data packets (Bluetooth Core, Vol 2 Part E, section 5.4.2) as byte strings: how one packet is
 cut into fragments, and how a stream of fragments of many connections is put together again.
 Everything here is a function of bytes; `PacketFragmenter` holds the in-place code proved against it.
 */
module AclFraming {
  import opened Bytes

  const PREAMBLE: nat := 4
  const START: int := 2
  const CONTINUATION: int := 1

  // ---------- header fields ----------

  /** The two bytes of a handle field: a 12-bit handle, a 2-bit boundary flag and a 2-bit broadcast flag. */
  datatype Field = Field(lo: Byte, hi: Byte)

  function Handle(field: Field): int {
    field.lo + 256 * (field.hi % 16)
  }

  function Boundary(field: Field): int {
    field.hi / 16 % 4
  }

  function Broadcast(field: Field): int {
    field.hi / 64
  }

  /** The field with its boundary flag set to 01. */
  function ContinuationField(field: Field): Field {
    Field(field.lo, field.hi / 64 * 64 + 16 + field.hi % 16)
  }

  function FieldBytes(field: Field): seq<Byte> {
    [field.lo, field.hi]
  }

  /** Setting the flag changes the boundary flag and nothing else. */
  lemma ContinuationFieldKeeps(field: Field)
    ensures Handle(ContinuationField(field)) == Handle(field)
    ensures Broadcast(ContinuationField(field)) == Broadcast(field)
    ensures Boundary(ContinuationField(field)) == CONTINUATION
    ensures ContinuationField(ContinuationField(field)) == ContinuationField(field)
  {
    var q, r := field.hi / 64, field.hi % 16;
    var c: int := ContinuationField(field).hi;
    assert c == 64 * q + 16 + r;
    assert c / 64 == q && c % 16 == r && c / 16 == 4 * q + 1;
  }

  // The macros of the code, on the 16-bit value read from the two bytes.

  /** APPLY_CONTINUATION_FLAG: clear the two boundary bits and set them to 01. */
  function ApplyContinuation(word: U16): U16 {
    word / 0x4000 * 0x4000 + 0x1000 + word % 0x1000
  }

  /** GET_BOUNDARY_FLAG. */
  function BoundaryFlag(word: U16): int {
    word / 0x1000 % 4
  }

  /** The handle mask. */
  function HandleMask(word: U16): int {
    word % 0x1000
  }

  /** The macros see the fields, and writing the flagged word writes the flagged field. */
  lemma MacrosOnBytes(field: Field)
    ensures var word := FromLe16(field.lo, field.hi);
            && HandleMask(word) == Handle(field) && BoundaryFlag(word) == Boundary(field)
            && Le16(ApplyContinuation(word)) == FieldBytes(ContinuationField(field))
  {
    var lo: int, hi: int, word: int := field.lo, field.hi, FromLe16(field.lo, field.hi);
    WordParts(lo, hi);
    var top := hi / 64 * 64 + 16 + hi % 16;
    var c := ApplyContinuation(word);
    assert c == 256 * top + lo;
    WordBytes(lo, top);
  }

  lemma WordBytes(lo: int, hi: int)
    requires 0 <= lo < 256
    ensures (256 * hi + lo) % 256 == lo && (256 * hi + lo) / 256 == hi
  {
  }

  lemma WordParts(lo: int, hi: int)
    requires 0 <= lo < 256 && 0 <= hi < 256
    ensures (lo + 256 * hi) / 0x4000 == hi / 64
    ensures (lo + 256 * hi) / 0x1000 == hi / 16
    ensures (lo + 256 * hi) % 0x1000 == lo + 256 * (hi % 16)
  {
    var q, r, s := hi / 16, hi % 16, hi % 64;
    assert lo + 256 * hi == 0x1000 * q + (256 * r + lo);
    assert lo + 256 * hi == 0x4000 * (hi / 64) + (256 * s + lo);
  }

  function HandleField(b: seq<Byte>): Field
    requires |b| >= PREAMBLE
  {
    Field(b[0], b[1])
  }

  function LengthField(b: seq<Byte>): U16
    requires |b| >= PREAMBLE
  {
    FromLe16(b[2], b[3])
  }

  /** What the transport checks and the reassembler asserts: the length field counts the payload. */
  predicate Consistent(b: seq<Byte>) {
    PREAMBLE <= |b| < 0x10000 && LengthField(b) == |b| - PREAMBLE
  }

  predicate For(b: seq<Byte>, h: int) {
    |b| >= PREAMBLE && Handle(HandleField(b)) == h
  }

  predicate IsStart(b: seq<Byte>) {
    |b| >= PREAMBLE && Boundary(HandleField(b)) == START
  }

  // ---------- fragmentation ----------

  predicate Fragmentable(b: seq<Byte>, m: nat) {
    PREAMBLE <= |b| < 0x10000 && m + PREAMBLE < 0x10000
  }

  predicate Oversize(b: seq<Byte>, m: nat) {
    |b| > m + PREAMBLE
  }

  /** The fragment handed to the transport: the packet's own handle field, length m, the next m bytes. */
  function FirstFragment(b: seq<Byte>, m: nat): seq<Byte>
    requires Fragmentable(b, m) && Oversize(b, m)
  {
    b[..2] + Le16(m) + b[PREAMBLE..PREAMBLE + m]
  }

  /** The packet left behind: continuation flag, the length still to send, the unsent payload. */
  function Remainder(b: seq<Byte>, m: nat): (r: seq<Byte>)
    requires Fragmentable(b, m) && Oversize(b, m)
    ensures |r| == |b| - m
  {
    FieldBytes(ContinuationField(HandleField(b))) + Le16(|b| - m - PREAMBLE) + b[PREAMBLE + m..]
  }

  function Fragments(b: seq<Byte>, m: nat): seq<seq<Byte>>
    requires Fragmentable(b, m) && m > 0
    decreases |b|
  {
    if Oversize(b, m) then [FirstFragment(b, m)] + Fragments(Remainder(b, m), m) else [b]
  }

  function Payload(b: seq<Byte>): seq<Byte>
    requires |b| >= PREAMBLE
  {
    b[PREAMBLE..]
  }

  function Payloads(fs: seq<seq<Byte>>): seq<seq<Byte>>
    requires AllFramed(fs)
  {
    seq(|fs|, i requires 0 <= i < |fs| => fs[i][PREAMBLE..])
  }

  lemma FirstFragmentFields(b: seq<Byte>, m: nat)
    requires Fragmentable(b, m) && Oversize(b, m)
    ensures var f := FirstFragment(b, m);
            && |f| == PREAMBLE + m && HandleField(f) == HandleField(b) && LengthField(f) == m
            && Payload(f) == b[PREAMBLE..PREAMBLE + m]
  {
    var f := FirstFragment(b, m);
    assert f[0] == b[0] && f[1] == b[1] && f[2] == m % 256 && f[3] == m / 256;
    assert Payload(f) == b[PREAMBLE..PREAMBLE + m];
  }

  lemma RemainderFields(b: seq<Byte>, m: nat)
    requires Fragmentable(b, m) && Oversize(b, m)
    ensures var r := Remainder(b, m);
            Consistent(r) && HandleField(r) == ContinuationField(HandleField(b)) && Payload(r) == b[PREAMBLE + m..]
  {
    var r, c, n := Remainder(b, m), ContinuationField(HandleField(b)), |b| - m - PREAMBLE;
    assert r[0] == c.lo && r[1] == c.hi && r[2] == n % 256 && r[3] == n / 256;
    assert Payload(r) == b[PREAMBLE + m..];
  }

  /** A fragment as the controller must see it: at most m payload bytes, counted by its length field. */
  predicate GoodFragment(f: seq<Byte>, m: nat, field: Field) {
    PREAMBLE <= |f| <= PREAMBLE + m && LengthField(f) == |f| - PREAMBLE && HandleField(f) == field
  }

  /** Every fragment but the last is full, the first has handle field `first` and the others `later`. */
  ghost predicate GoodFragments(fs: seq<seq<Byte>>, m: nat, first: Field, later: Field) {
    && |fs| > 0
    && GoodFragment(fs[0], m, first)
    && (forall i :: 1 <= i < |fs| ==> GoodFragment(fs[i], m, later))
    && (forall i :: 0 <= i < |fs| - 1 ==> |fs[i]| == PREAMBLE + m)
  }

  lemma GoodFragmentsStep(f: seq<Byte>, rest: seq<seq<Byte>>, m: nat, first: Field, later: Field)
    requires GoodFragment(f, m, first) && |f| == PREAMBLE + m
    requires GoodFragments(rest, m, later, later)
    ensures GoodFragments([f] + rest, m, first, later)
  {
    var fs := [f] + rest;
    forall i | 1 <= i < |fs| ensures GoodFragment(fs[i], m, later) {
      assert fs[i] == rest[i - 1];
    }
  }

  lemma {:induction false} FragmentsGood(b: seq<Byte>, m: nat)
    requires Consistent(b) && Fragmentable(b, m) && m > 0
    ensures GoodFragments(Fragments(b, m), m, HandleField(b), ContinuationField(HandleField(b)))
    decreases |b|
  {
    if Oversize(b, m) {
      var r := Remainder(b, m);
      FirstFragmentFields(b, m);
      RemainderFields(b, m);
      ContinuationFieldKeeps(HandleField(b));
      FragmentsGood(r, m);
      GoodFragmentsStep(FirstFragment(b, m), Fragments(r, m), m, HandleField(b), HandleField(r));
    }
  }

  lemma {:induction false} FragmentsPayload(b: seq<Byte>, m: nat)
    requires Fragmentable(b, m) && m > 0
    ensures AllFramed(Fragments(b, m)) && Concat(Payloads(Fragments(b, m))) == Payload(b)
    decreases |b|
  {
    var fs := Fragments(b, m);
    if Oversize(b, m) {
      var f, r := FirstFragment(b, m), Remainder(b, m);
      SplitPayload(b, m);
      FragmentsPayload(r, m);
      PayloadsCons(f, Fragments(r, m));
    } else {
      PayloadsCons(b, []);
      assert [b] + [] == fs;
    }
  }

  lemma PayloadsCons(f: seq<Byte>, rest: seq<seq<Byte>>)
    requires |f| >= PREAMBLE && AllFramed(rest)
    ensures AllFramed([f] + rest) && Concat(Payloads([f] + rest)) == Payload(f) + Concat(Payloads(rest))
  {
    var all := [f] + rest;
    assert Payloads(all)[0] == Payload(f);
    assert Payloads(all)[1..] == Payloads(rest);
  }

  lemma SplitPayload(b: seq<Byte>, m: nat)
    requires Fragmentable(b, m) && Oversize(b, m)
    ensures |FirstFragment(b, m)| >= PREAMBLE
    ensures Payload(b) == Payload(FirstFragment(b, m)) + Payload(Remainder(b, m))
  {
    CutTwice(b, PREAMBLE, PREAMBLE + m);
    FirstFragmentFields(b, m);
    RemainderFields(b, m);
  }

  /**
   Cutting a packet loses and reorders nothing: the payloads, in order, are the packet's payload;
   every fragment but the last is full; the first keeps the handle field and the others carry the same
   handle with the continuation flag.
   */
  lemma FragmentsPartition(b: seq<Byte>, m: nat)
    requires Consistent(b) && Fragmentable(b, m) && m > 0
    ensures GoodFragments(Fragments(b, m), m, HandleField(b), ContinuationField(HandleField(b)))
    ensures AllFramed(Fragments(b, m)) && Concat(Payloads(Fragments(b, m))) == Payload(b)
  {
    FragmentsGood(b, m);
    FragmentsPayload(b, m);
  }

  // ---------- quotas ----------

  datatype QuotaRun = QuotaRun(sent: seq<seq<Byte>>, handedBack: Option<seq<Byte>>)

  predicate AllFramed(fs: seq<seq<Byte>>) {
    forall i :: 0 <= i < |fs| ==> |fs[i]| >= PREAMBLE
  }

  /** Repeated dispatch under a segment quota; 0 means unlimited, as layer_specific does. */
  function SendWithQuota(b: seq<Byte>, m: nat, quota: nat): (run: QuotaRun)
    requires Fragmentable(b, m) && m > 0
    ensures AllFramed(run.sent)
    decreases |b|
  {
    if !Oversize(b, m) then QuotaRun([b], None)
    else if quota == 1 then QuotaRun([FirstFragment(b, m)], Some(Remainder(b, m)))
    else
      var rest := SendWithQuota(Remainder(b, m), m, if quota == 0 then 0 else quota - 1);
      QuotaRun([FirstFragment(b, m)] + rest.sent, rest.handedBack)
  }

  lemma {:induction false} QuotaCounts(b: seq<Byte>, m: nat, quota: nat)
    requires Fragmentable(b, m) && m > 0
    ensures var run := SendWithQuota(b, m, quota);
            && |Fragments(b, m)| > 0
            && (run.handedBack.None? ==> run.sent == Fragments(b, m))
            && (run.handedBack.None? <==> quota == 0 || |Fragments(b, m)| <= quota)
            && (run.handedBack.Some? ==>
                  var r := run.handedBack.value;
                  && |run.sent| == quota && Fragmentable(r, m)
                  && Fragments(b, m) == run.sent + Fragments(r, m))
    decreases |b|
  {
    if Oversize(b, m) {
      var f, r := FirstFragment(b, m), Remainder(b, m);
      var q := if quota == 0 then 0 else quota - 1;
      QuotaCounts(r, m, q);
      if quota != 1 {
        var rest := SendWithQuota(r, m, q);
        if rest.handedBack.Some? {
          var left := Fragments(rest.handedBack.value, m);
          assert [f] + (rest.sent + left) == ([f] + rest.sent) + left;
        }
      }
    }
  }

  /** The payload of `b` is what `sent` carries followed by what `left` still holds. */
  ghost predicate Carries(b: seq<Byte>, sent: seq<seq<Byte>>, left: seq<Byte>) {
    && |b| >= PREAMBLE && |left| >= PREAMBLE && AllFramed(sent)
    && Payload(b) == Concat(Payloads(sent)) + Payload(left)
  }

  lemma CarriesStep(b: seq<Byte>, f: seq<Byte>, r: seq<Byte>, sent: seq<seq<Byte>>, left: seq<Byte>)
    requires |b| >= PREAMBLE && |f| >= PREAMBLE && |r| >= PREAMBLE && Payload(b) == Payload(f) + Payload(r)
    requires Carries(r, sent, left)
    ensures Carries(b, [f] + sent, left)
  {
    PayloadsCons(f, sent);
  }

  lemma {:induction false} QuotaPayload(b: seq<Byte>, m: nat, quota: nat)
    requires Fragmentable(b, m) && m > 0
    ensures var run := SendWithQuota(b, m, quota);
            run.handedBack.Some? ==> Carries(b, run.sent, run.handedBack.value)
    decreases |b|
  {
    if Oversize(b, m) {
      SplitPayload(b, m);
      var f, r := FirstFragment(b, m), Remainder(b, m);
      if quota == 1 {
        assert Carries(r, [], r);
        CarriesStep(b, f, r, [], r);
        assert [f] + [] == [f];
      } else {
        var q := if quota == 0 then 0 else quota - 1;
        QuotaPayload(r, m, q);
        var rest := SendWithQuota(r, m, q);
        if rest.handedBack.Some? {
          CarriesStep(b, f, r, rest.sent, rest.handedBack.value);
        }
      }
    }
  }

  lemma {:induction false} QuotaHandBack(b: seq<Byte>, m: nat, quota: nat)
    requires Fragmentable(b, m) && m > 0
    ensures var run := SendWithQuota(b, m, quota);
            run.handedBack.Some? ==>
              Consistent(run.handedBack.value) && HandleField(run.handedBack.value) == ContinuationField(HandleField(b))
    decreases |b|
  {
    if Oversize(b, m) {
      RemainderFields(b, m);
      if quota != 1 {
        QuotaHandBack(Remainder(b, m), m, if quota == 0 then 0 else quota - 1);
        ContinuationFieldKeeps(HandleField(b));
      }
    }
  }

  /**
   A quota only splits the transmission in time: exactly `quota` fragments go out before a hand-back,
   what is handed back is a well-formed continuation packet carrying the unsent payload, and sending it
   later completes exactly the fragment stream that an unlimited run would have produced.
   */
  lemma QuotaSplitsStream(b: seq<Byte>, m: nat, quota: nat)
    requires Fragmentable(b, m) && m > 0
    ensures var run := SendWithQuota(b, m, quota);
            && (run.handedBack.None? ==> run.sent == Fragments(b, m))
            && (run.handedBack.None? <==> quota == 0 || |Fragments(b, m)| <= quota)
            && (run.handedBack.Some? ==>
                  var r := run.handedBack.value;
                  && |run.sent| == quota
                  && Consistent(r) && HandleField(r) == ContinuationField(HandleField(b))
                  && Payload(b) == Concat(Payloads(run.sent)) + Payload(r)
                  && Fragments(b, m) == run.sent + Fragments(r, m))
  {
    QuotaCounts(b, m, quota);
    QuotaPayload(b, m, quota);
    QuotaHandBack(b, m, quota);
  }

  // ---------- reassembly ----------

  /** A received ACL packet, and the two bytes that lie behind it in memory. */
  datatype Inbound = Inbound(bytes: seq<Byte>, past: (Byte, Byte))

  /** The L2CAP length the code reads at offset 4, even when the packet is shorter than that. */
  function L2capLength(p: Inbound): U16
    requires |p.bytes| >= PREAMBLE
  {
    var n := |p.bytes|;
    FromLe16(if n > 4 then p.bytes[4] else p.past.0,
             if n > 5 then p.bytes[5] else if n > 4 then p.past.0 else p.past.1)
  }

  /** Announced size of the whole packet, in the 16-bit arithmetic of the code. */
  function FullLength(p: Inbound): U16
    requires |p.bytes| >= PREAMBLE
  {
    var sum := L2capLength(p) + 8;
    if sum < 0x10000 then sum else sum - 0x10000
  }

  /** A packet being put together: its final size and the bytes collected so far. */
  datatype Partial = Partial(expected: nat, got: seq<Byte>)

  datatype Stepped = Stepped(held: Option<Partial>, out: seq<seq<Byte>>)

  /** The start packet with its length field rewritten to the announced size. */
  function Rewritten(p: Inbound): (r: seq<Byte>)
    requires |p.bytes| >= PREAMBLE && FullLength(p) > |p.bytes|
    ensures |r| == |p.bytes|
  {
    p.bytes[..2] + Le16(FullLength(p) - PREAMBLE) + p.bytes[PREAMBLE..]
  }

  function Take(s: seq<Byte>, n: int): seq<Byte> {
    if n <= 0 then [] else if n >= |s| then s else s[..n]
  }

  /** One packet of one connection. */
  function StepOne(held: Option<Partial>, p: Inbound): Stepped
    requires Consistent(p.bytes)
  {
    if IsStart(p.bytes) then
      if FullLength(p) <= |p.bytes| then Stepped(None, [p.bytes])
      else Stepped(Some(Partial(FullLength(p), Rewritten(p))), [])
    else if held.None? then Stepped(None, [])
    else
      var h := held.value;
      var got := h.got + Take(Payload(p.bytes), h.expected - |h.got|);
      if |got| == h.expected then Stepped(None, [got]) else Stepped(Some(h.(got := got)), [])
  }

  type Table = map<int, Partial>

  function Get(t: Table, h: int): Option<Partial> {
    if h in t then Some(t[h]) else None
  }

  function Put(t: Table, h: int, o: Option<Partial>): Table {
    if o.Some? then t[h := o.value] else t - {h}
  }

  datatype TableStep = TableStep(table: Table, out: seq<seq<Byte>>)

  function Step(t: Table, p: Inbound): TableStep
    requires Consistent(p.bytes)
  {
    var h := Handle(HandleField(p.bytes));
    var s := StepOne(Get(t, h), p);
    TableStep(Put(t, h, s.held), s.out)
  }

  predicate AllConsistent(ins: seq<Inbound>) {
    forall i :: 0 <= i < |ins| ==> Consistent(ins[i].bytes)
  }

  function Run(t: Table, ins: seq<Inbound>): TableStep
    requires AllConsistent(ins)
    decreases |ins|
  {
    if ins == [] then TableStep(t, [])
    else
      var s := Step(t, ins[0]);
      var rest := Run(s.table, ins[1..]);
      TableStep(rest.table, s.out + rest.out)
  }

  function RunOne(held: Option<Partial>, ins: seq<Inbound>): Stepped
    requires AllConsistent(ins)
    decreases |ins|
  {
    if ins == [] then Stepped(held, [])
    else
      var s := StepOne(held, ins[0]);
      var rest := RunOne(s.held, ins[1..]);
      Stepped(rest.held, s.out + rest.out)
  }

  // ---------- connections do not interfere ----------

  function OfHandle(ins: seq<Inbound>, h: int): (r: seq<Inbound>)
    ensures AllConsistent(ins) ==> AllConsistent(r)
    ensures forall i :: 0 <= i < |r| ==> For(r[i].bytes, h)
  {
    if ins == [] then []
    else if For(ins[0].bytes, h) then [ins[0]] + OfHandle(ins[1..], h)
    else OfHandle(ins[1..], h)
  }

  function OutOfHandle(out: seq<seq<Byte>>, h: int): seq<seq<Byte>> {
    if out == [] then []
    else if For(out[0], h) then [out[0]] + OutOfHandle(out[1..], h)
    else OutOfHandle(out[1..], h)
  }

  lemma {:induction false} OutOfHandlePlus(a: seq<seq<Byte>>, b: seq<seq<Byte>>, h: int)
    ensures OutOfHandle(a + b, h) == OutOfHandle(a, h) + OutOfHandle(b, h)
  {
    if a == [] {
      assert a + b == b;
    } else {
      assert (a + b)[1..] == a[1..] + b;
      OutOfHandlePlus(a[1..], b, h);
    }
  }

  /** What a partial keeps while it is held: room left, its own handle, a start flag, a final length field. */
  ghost predicate PartialOk(h: int, p: Partial) {
    && PREAMBLE <= |p.got| < p.expected < 0x10000
    && For(p.got, h) && IsStart(p.got) && LengthField(p.got) == p.expected - PREAMBLE
  }

  ghost predicate TableOk(t: Table) {
    forall h :: h in t ==> PartialOk(h, t[h])
  }

  lemma StepOneKeeps(h: int, held: Option<Partial>, p: Inbound)
    requires Consistent(p.bytes) && For(p.bytes, h)
    requires held.Some? ==> PartialOk(h, held.value)
    ensures var s := StepOne(held, p);
            && (s.held.Some? ==> PartialOk(h, s.held.value))
            && |s.out| <= 1
            && (s.out != [] ==> For(s.out[0], h) && IsStart(s.out[0]) && Consistent(s.out[0]))
  {
    if IsStart(p.bytes) {
      if FullLength(p) > |p.bytes| {
        var r, n := Rewritten(p), FullLength(p) - PREAMBLE;
        assert r[0] == p.bytes[0] && r[1] == p.bytes[1] && r[2] == n % 256 && r[3] == n / 256;
      }
    } else if held.Some? {
      var g := held.value.got;
      var got := g + Take(Payload(p.bytes), held.value.expected - |g|);
      assert got[0] == g[0] && got[1] == g[1] && got[2] == g[2] && got[3] == g[3];
    }
  }

  /**
   Every inbound run keeps the table in order: at most one partial per handle (the table is a map), each
   still short of its announced size, and everything delivered starts a packet and is counted by its own
   length field.
   */
  lemma {:induction false} RunKeeps(t: Table, ins: seq<Inbound>)
    requires AllConsistent(ins) && TableOk(t)
    ensures TableOk(Run(t, ins).table)
    ensures forall i :: 0 <= i < |Run(t, ins).out| ==> Consistent(Run(t, ins).out[i]) && IsStart(Run(t, ins).out[i])
    decreases |ins|
  {
    if ins != [] {
      var h := Handle(HandleField(ins[0].bytes));
      StepOneKeeps(h, Get(t, h), ins[0]);
      RunKeeps(Step(t, ins[0]).table, ins[1..]);
    }
  }

  lemma StepProjects(t: Table, p: Inbound, h: int)
    requires Consistent(p.bytes) && TableOk(t)
    ensures TableOk(Step(t, p).table)
    ensures For(p.bytes, h) ==>
              && Get(Step(t, p).table, h) == StepOne(Get(t, h), p).held
              && OutOfHandle(Step(t, p).out, h) == StepOne(Get(t, h), p).out
    ensures !For(p.bytes, h) ==>
              Get(Step(t, p).table, h) == Get(t, h) && OutOfHandle(Step(t, p).out, h) == []
  {
    var g := Handle(HandleField(p.bytes));
    StepOneKeeps(g, Get(t, g), p);
    var out := Step(t, p).out;
    assert out == [] || out == [out[0]];
    if out != [] {
      assert OutOfHandle(out[1..], h) == [];
    }
  }

  /** Seen from one handle, a run over interleaved traffic is the run over that handle's own packets. */
  lemma {:induction false} NonInterference(t: Table, ins: seq<Inbound>, h: int)
    requires AllConsistent(ins) && TableOk(t)
    ensures Get(Run(t, ins).table, h) == RunOne(Get(t, h), OfHandle(ins, h)).held
    ensures OutOfHandle(Run(t, ins).out, h) == RunOne(Get(t, h), OfHandle(ins, h)).out
    decreases |ins|
  {
    if ins == [] {
    } else {
      var s := Step(t, ins[0]);
      StepProjects(t, ins[0], h);
      NonInterference(s.table, ins[1..], h);
      OutOfHandlePlus(s.out, Run(s.table, ins[1..]).out, h);
      if For(ins[0].bytes, h) {
        assert OfHandle(ins, h)[1..] == OfHandle(ins[1..], h);
      }
    }
  }

  // ---------- what a partial holds ----------

  lemma {:induction false} RunOneSnoc(held: Option<Partial>, ins: seq<Inbound>, p: Inbound)
    requires AllConsistent(ins) && Consistent(p.bytes)
    ensures RunOne(held, ins + [p]).held == StepOne(RunOne(held, ins).held, p).held
    decreases |ins|
  {
    if ins == [] {
      assert ins + [p] == [p];
      assert RunOne(held, [p]).held == RunOne(StepOne(held, p).held, [p][1..]).held;
    } else {
      assert (ins + [p])[1..] == ins[1..] + [p];
      RunOneSnoc(StepOne(held, ins[0]).held, ins[1..], p);
    }
  }

  /** Index of the last start packet, or -1. */
  function LastStart(ins: seq<Inbound>): (k: int)
    ensures -1 <= k < |ins|
    ensures k >= 0 ==> IsStart(ins[k].bytes)
    ensures forall j :: k < j < |ins| ==> !IsStart(ins[j].bytes)
  {
    if ins == [] then -1
    else if IsStart(ins[|ins| - 1].bytes) then |ins| - 1
    else LastStart(ins[..|ins| - 1])
  }

  function PayloadsOf(ins: seq<Inbound>): seq<seq<Byte>>
    requires AllConsistent(ins)
  {
    seq(|ins|, i requires 0 <= i < |ins| => Payload(ins[i].bytes))
  }

  /** Read off the history: the last start packet, rewritten, and every continuation payload since. */
  function HeldFromHistory(ins: seq<Inbound>): Option<Partial>
    requires AllConsistent(ins)
  {
    var k := LastStart(ins);
    if k < 0 || FullLength(ins[k]) <= |ins[k].bytes| then None
    else
      var got := Rewritten(ins[k]) + Concat(PayloadsOf(ins[k + 1..]));
      if |got| < FullLength(ins[k]) then Some(Partial(FullLength(ins[k]), got)) else None
  }

  lemma HistoryStart(ins: seq<Inbound>, p: Inbound)
    requires AllConsistent(ins + [p]) && Consistent(p.bytes) && IsStart(p.bytes)
    ensures HeldFromHistory(ins + [p]) == StepOne(None, p).held
  {
    var all := ins + [p];
    assert LastStart(all) == |ins|;
    assert PayloadsOf(all[|ins| + 1..]) == [];
    if FullLength(p) > |p.bytes| {
      assert Rewritten(p) + [] == Rewritten(p);
    }
  }

  lemma HistoryContinuation(ins: seq<Inbound>, p: Inbound)
    requires AllConsistent(ins) && AllConsistent(ins + [p]) && Consistent(p.bytes) && !IsStart(p.bytes)
    ensures HeldFromHistory(ins + [p]) == StepOne(HeldFromHistory(ins), p).held
  {
    var all, k := ins + [p], LastStart(ins);
    assert all[..|all| - 1] == ins;
    assert LastStart(all) == k;
    if k >= 0 && FullLength(ins[k]) > |ins[k].bytes| {
      assert all[k] == ins[k];
      assert PayloadsOf(all[k + 1..]) == PayloadsOf(ins[k + 1..]) + [Payload(p.bytes)];
      ConcatSnoc(PayloadsOf(ins[k + 1..]), Payload(p.bytes));
      PlusAssoc(Rewritten(ins[k]), Concat(PayloadsOf(ins[k + 1..])), Payload(p.bytes));
    }
  }

  lemma {:induction false} HeldIsHistory(ins: seq<Inbound>)
    requires AllConsistent(ins)
    ensures RunOne(None, ins).held == HeldFromHistory(ins)
    decreases |ins|
  {
    if ins == [] {
    } else {
      var n := |ins| - 1;
      var init, p := ins[..n], ins[n];
      assert ins == init + [p];
      HeldIsHistory(init);
      RunOneSnoc(None, init, p);
      if IsStart(p.bytes) {
        HistoryStart(init, p);
      } else {
        HistoryContinuation(init, p);
      }
    }
  }

  /**
   After any inbound run, for every handle: the partial held is exactly what that handle's history says,
   and nothing is held when the history says so.
   */
  lemma PartialIsItsHistory(ins: seq<Inbound>, h: int)
    requires AllConsistent(ins)
    ensures Get(Run(map[], ins).table, h) == HeldFromHistory(OfHandle(ins, h))
  {
    NonInterference(map[], ins, h);
    HeldIsHistory(OfHandle(ins, h));
  }

  /**
   What a packet makes a connection deliver, read off its history alone: a start packet that holds all it
   announces, as it came; or, with the continuation that brings the last announced byte, the last start
   packet rewritten and every continuation payload since, cut at the announced size; otherwise nothing.
   */
  function DeliveredBy(ins: seq<Inbound>, p: Inbound): seq<seq<Byte>>
    requires AllConsistent(ins) && Consistent(p.bytes)
  {
    var k := LastStart(ins);
    if IsStart(p.bytes) then if FullLength(p) <= |p.bytes| then [p.bytes] else []
    else if k < 0 || FullLength(ins[k]) <= |ins[k].bytes| then []
    else
      var full, got := FullLength(ins[k]), Rewritten(ins[k]) + Concat(PayloadsOf(ins[k + 1..]));
      if |got| < full <= |got + Payload(p.bytes)| then [(got + Payload(p.bytes))[..full]] else []
  }

  lemma DeliveryIsItsHistory(ins: seq<Inbound>, p: Inbound)
    requires AllConsistent(ins) && Consistent(p.bytes)
    ensures StepOne(RunOne(None, ins).held, p).out == DeliveredBy(ins, p)
  {
    HeldIsHistory(ins);
    var held := HeldFromHistory(ins);
    if !IsStart(p.bytes) && held.Some? {
      ClippedIsCut(held.value.got, Payload(p.bytes), held.value.expected);
    }
  }

  lemma ClippedIsCut(got: seq<Byte>, more: seq<Byte>, full: nat)
    requires |got| < full
    ensures full <= |got + more| ==> got + Take(more, full - |got|) == (got + more)[..full]
    ensures |got + more| < full ==> |got + Take(more, full - |got|)| < full
  {
  }

  // ---------- 16-bit sums ----------

  /** The sum `partial offset + payload length` does not wrap, so the truncation test sees the true sum. */
  predicate FitsOne(held: Option<Partial>, p: Inbound)
    requires Consistent(p.bytes)
  {
    !IsStart(p.bytes) && held.Some? ==> |held.value.got| + |p.bytes| - PREAMBLE < 0x10000
  }

  predicate Fits(t: Table, p: Inbound)
    requires Consistent(p.bytes)
  {
    FitsOne(Get(t, Handle(HandleField(p.bytes))), p)
  }

  predicate RunOneFits(held: Option<Partial>, ins: seq<Inbound>)
    requires AllConsistent(ins)
    decreases |ins|
  {
    ins == [] || (FitsOne(held, ins[0]) && RunOneFits(StepOne(held, ins[0]).held, ins[1..]))
  }

  predicate RunFits(t: Table, ins: seq<Inbound>)
    requires AllConsistent(ins)
    decreases |ins|
  {
    ins == [] || (Fits(t, ins[0]) && RunFits(Step(t, ins[0]).table, ins[1..]))
  }

  lemma OneFitsStep(t: Table, ins: seq<Inbound>, h: int)
    requires AllConsistent(ins) && ins != []
    requires RunOneFits(Get(t, h), OfHandle(ins, h))
    ensures RunOneFits(Get(Step(t, ins[0]).table, h), OfHandle(ins[1..], h))
    ensures For(ins[0].bytes, h) ==> Fits(t, ins[0])
  {
    if For(ins[0].bytes, h) {
      assert OfHandle(ins, h)[1..] == OfHandle(ins[1..], h);
    } else {
      assert Get(Step(t, ins[0]).table, h) == Get(t, h);
    }
  }

  ghost predicate EachFits(t: Table, ins: seq<Inbound>)
    requires AllConsistent(ins)
  {
    forall h :: RunOneFits(Get(t, h), OfHandle(ins, h))
  }

  lemma {:induction false} EachFitsAllFit(t: Table, ins: seq<Inbound>)
    requires AllConsistent(ins) && EachFits(t, ins)
    ensures RunFits(t, ins)
    decreases |ins|
  {
    if ins == [] {
    } else {
      var t' := Step(t, ins[0]).table;
      assert EachFits(t', ins[1..]) by {
        forall h ensures RunOneFits(Get(t', h), OfHandle(ins[1..], h)) {
          OneFitsStep(t, ins, h);
        }
      }
      OneFitsStep(t, ins, Handle(HandleField(ins[0].bytes)));
      EachFitsAllFit(t', ins[1..]);
    }
  }

  // ---------- the round trip ----------

  /** A whole L2CAP packet in one ACL packet, as the upper layer builds it. */
  predicate WholePacket(b: seq<Byte>) {
    && 8 <= |b| && Consistent(b) && IsStart(b)
    && FromLe16(b[4], b[5]) + 8 == |b|
  }

  predicate AllWhole(ps: seq<seq<Byte>>) {
    forall i :: 0 <= i < |ps| ==> WholePacket(ps[i])
  }

  predicate SamePackets(ins: seq<Inbound>, fs: seq<seq<Byte>>) {
    |ins| == |fs| && forall i :: 0 <= i < |fs| ==> ins[i].bytes == fs[i]
  }

  /** A continuation that does not complete the packet is appended to it. */
  lemma Appended(held: Partial, p: Inbound)
    requires Consistent(p.bytes) && Boundary(HandleField(p.bytes)) == CONTINUATION
    requires |held.got| + |Payload(p.bytes)| < held.expected
    ensures StepOne(Some(held), p) == Stepped(Some(held.(got := held.got + Payload(p.bytes))), [])
  {
    assert Take(Payload(p.bytes), held.expected - |held.got|) == Payload(p.bytes);
  }

  lemma ContinuationMiddle(held: Partial, r: seq<Byte>, m: nat, p: Inbound)
    requires Fragmentable(r, m) && Oversize(r, m) && Boundary(HandleField(r)) == CONTINUATION
    requires |held.got| + |Payload(r)| == held.expected < 0x10000
    requires Consistent(p.bytes) && p.bytes == FirstFragment(r, m)
    ensures StepOne(Some(held), p) == Stepped(Some(held.(got := held.got + Payload(p.bytes))), [])
    ensures |Payload(p.bytes)| == m && held.got + Payload(r) == held.got + Payload(p.bytes) + Payload(Remainder(r, m))
  {
    FirstFragmentFields(r, m);
    SplitPayload(r, m);
    Appended(held, p);
  }

  lemma ContinuationLast(held: Partial, r: seq<Byte>, p: Inbound)
    requires Consistent(r) && Boundary(HandleField(r)) == CONTINUATION && |r| > PREAMBLE
    requires |held.got| + |Payload(r)| == held.expected < 0x10000
    requires p.bytes == r
    ensures RunOne(Some(held), [p]) == Stepped(None, [held.got + Payload(r)])
    ensures RunOneFits(Some(held), [p])
  {
    assert StepOne(Some(held), p) == Stepped(None, [held.got + Payload(r)]);
    assert [p][1..] == [];
    assert RunOne(None, []) == Stepped(None, []);
    assert [held.got + Payload(r)] + [] == [held.got + Payload(r)];
  }

  lemma {:induction false} ContinuationRun(held: Partial, r: seq<Byte>, m: nat, ins: seq<Inbound>)
    requires Consistent(r) && Fragmentable(r, m) && m > 0 && |r| > PREAMBLE
    requires Boundary(HandleField(r)) == CONTINUATION
    requires |held.got| + |Payload(r)| == held.expected < 0x10000
    requires AllConsistent(ins) && SamePackets(ins, Fragments(r, m))
    ensures RunOne(Some(held), ins) == Stepped(None, [held.got + Payload(r)])
    ensures RunOneFits(Some(held), ins)
    decreases |r|
  {
    if Oversize(r, m) {
      var rest := Remainder(r, m);
      assert ins[0].bytes == FirstFragment(r, m);
      assert SamePackets(ins[1..], Fragments(rest, m));
      ContinuationMiddle(held, r, m, ins[0]);
      RemainderFields(r, m);
      ContinuationFieldKeeps(HandleField(r));
      var next := held.(got := held.got + Payload(ins[0].bytes));
      ContinuationRun(next, rest, m, ins[1..]);
      assert [] + [held.got + Payload(r)] == [held.got + Payload(r)];
    } else {
      assert ins == [ins[0]];
      ContinuationLast(held, r, ins[0]);
    }
  }

  lemma HeaderBytes(b: seq<Byte>)
    requires Consistent(b)
    ensures b[..PREAMBLE] == b[..2] + Le16(|b| - PREAMBLE)
  {
    var n := |b| - PREAMBLE;
    var lo: int, hi: int := b[2], b[3];
    assert lo + 256 * hi == LengthField(b) == n;
    assert lo == n % 256 && hi == n / 256;
  }

  /** The start fragment announces the whole packet, because its length field is rewritten to that of the packet. */
  lemma AnnouncesWhole(b: seq<Byte>, m: nat, p: Inbound)
    requires WholePacket(b) && 2 <= m && m + PREAMBLE < 0x10000 && Oversize(b, m)
    requires p.bytes == FirstFragment(b, m)
    ensures |p.bytes| == PREAMBLE + m && IsStart(p.bytes) && FullLength(p) == |b|
  {
    FirstFragmentFields(b, m);
    var f := p.bytes;
    assert f[4] == Payload(f)[0] == b[4] && f[5] == Payload(f)[1] == b[5];
  }

  lemma FirstFragmentStarts(b: seq<Byte>, m: nat, p: Inbound)
    requires WholePacket(b) && 2 <= m && m + PREAMBLE < 0x10000 && Oversize(b, m)
    requires Consistent(p.bytes) && p.bytes == FirstFragment(b, m)
    ensures StepOne(None, p) == Stepped(Some(Partial(|b|, b[..PREAMBLE + m])), [])
  {
    AnnouncesWhole(b, m, p);
    FirstFragmentFields(b, m);
    HeaderBytes(b);
    assert p.bytes[..2] == b[..2] && p.bytes[PREAMBLE..] == b[PREAMBLE..PREAMBLE + m];
    assert b[..PREAMBLE] + b[PREAMBLE..PREAMBLE + m] == b[..PREAMBLE + m];
  }

  /** `ins` on an idle connection delivers `out` and leaves it idle. */
  ghost predicate Delivers(ins: seq<Inbound>, out: seq<seq<Byte>>) {
    AllConsistent(ins) && RunOne(None, ins) == Stepped(None, out) && RunOneFits(None, ins)
  }

  lemma WholeArrives(b: seq<Byte>, p: Inbound)
    requires WholePacket(b) && p.bytes == b
    ensures Delivers([p], [b])
  {
    assert FullLength(p) == |b| && [p][1..] == [];
    assert StepOne(None, p) == Stepped(None, [b]);
    assert RunOne(None, []) == Stepped(None, []);
    assert [b] + [] == [b];
  }

  lemma ManyFragments(b: seq<Byte>, m: nat, ins: seq<Inbound>)
    requires Fragmentable(b, m) && m > 0 && Oversize(b, m)
    requires AllConsistent(ins) && SamePackets(ins, Fragments(b, m))
    ensures ins != [] && ins[0].bytes == FirstFragment(b, m)
    ensures AllConsistent(ins[1..]) && SamePackets(ins[1..], Fragments(Remainder(b, m), m))
  {
    assert Fragments(b, m)[0] == ins[0].bytes;
  }

  lemma OpensThenCloses(ins: seq<Inbound>, held: Partial, b: seq<Byte>)
    requires AllConsistent(ins) && ins != [] && IsStart(ins[0].bytes)
    requires StepOne(None, ins[0]) == Stepped(Some(held), [])
    requires RunOne(Some(held), ins[1..]) == Stepped(None, [b]) && RunOneFits(Some(held), ins[1..])
    ensures Delivers(ins, [b])
  {
    assert [] + [b] == [b];
  }

  lemma RestCloses(b: seq<Byte>, m: nat, held: Partial, ins: seq<Inbound>)
    requires WholePacket(b) && Fragmentable(b, m) && m > 0 && Oversize(b, m)
    requires held == Partial(|b|, b[..PREAMBLE + m])
    requires AllConsistent(ins) && SamePackets(ins, Fragments(Remainder(b, m), m))
    ensures RunOne(Some(held), ins) == Stepped(None, [b]) && RunOneFits(Some(held), ins)
  {
    var r := Remainder(b, m);
    RemainderFields(b, m);
    ContinuationFieldKeeps(HandleField(b));
    ContinuationRun(held, r, m, ins);
    assert held.got + Payload(r) == b;
  }

  /** The fragments of one packet, received in order on an idle connection, give the packet back. */
  lemma OnePacketRoundTrip(b: seq<Byte>, m: nat, ins: seq<Inbound>)
    requires WholePacket(b) && 2 <= m && m + PREAMBLE < 0x10000
    requires AllConsistent(ins) && SamePackets(ins, Fragments(b, m))
    ensures Delivers(ins, [b])
  {
    if Oversize(b, m) {
      var held := Partial(|b|, b[..PREAMBLE + m]);
      ManyFragments(b, m, ins);
      FirstFragmentStarts(b, m, ins[0]);
      RestCloses(b, m, held, ins[1..]);
      FirstFragmentFields(b, m);
      OpensThenCloses(ins, held, b);
    } else {
      assert ins == [ins[0]];
      WholeArrives(b, ins[0]);
    }
  }

  lemma {:induction false} RunOnePlus(held: Option<Partial>, a: seq<Inbound>, b: seq<Inbound>)
    requires AllConsistent(a) && AllConsistent(b)
    ensures AllConsistent(a + b)
    ensures var ra := RunOne(held, a);
            var rb := RunOne(ra.held, b);
            RunOne(held, a + b) == Stepped(rb.held, ra.out + rb.out)
    decreases |a|
  {
    if a == [] {
      assert a + b == b;
    } else {
      var s := StepOne(held, a[0]);
      assert (a + b)[1..] == a[1..] + b;
      RunOnePlus(s.held, a[1..], b);
      var ra := RunOne(s.held, a[1..]);
      var rb := RunOne(ra.held, b);
      assert s.out + (ra.out + rb.out) == (s.out + ra.out) + rb.out;
    }
  }

  lemma {:induction false} RunOneFitsPlus(held: Option<Partial>, a: seq<Inbound>, b: seq<Inbound>)
    requires AllConsistent(a) && AllConsistent(b)
    requires RunOneFits(held, a) && RunOneFits(RunOne(held, a).held, b)
    ensures AllConsistent(a + b) && RunOneFits(held, a + b)
    decreases |a|
  {
    if a == [] {
      assert a + b == b;
    } else {
      assert (a + b)[1..] == a[1..] + b;
      RunOneFirst(held, a);
      RunOneFitsPlus(StepOne(held, a[0]).held, a[1..], b);
      RunOneFirst(held, a + b);
    }
  }

  lemma RunOneFirst(held: Option<Partial>, ins: seq<Inbound>)
    requires AllConsistent(ins) && ins != []
    ensures RunOneFits(held, ins) <==> FitsOne(held, ins[0]) && RunOneFits(StepOne(held, ins[0]).held, ins[1..])
    ensures RunOne(held, ins).held == RunOne(StepOne(held, ins[0]).held, ins[1..]).held
  {
  }

  /** The fragment stream of a list of packets sent one after the other on one connection. */
  function Stream(ps: seq<seq<Byte>>, m: nat): seq<seq<Byte>>
    requires 2 <= m && m + PREAMBLE < 0x10000 && AllWhole(ps)
  {
    if ps == [] then []
    else
      assert WholePacket(ps[0]);
      Fragments(ps[0], m) + Stream(ps[1..], m)
  }

  lemma SplitSame(ins: seq<Inbound>, x: seq<seq<Byte>>, y: seq<seq<Byte>>)
    returns (a: seq<Inbound>, b: seq<Inbound>)
    requires AllConsistent(ins) && SamePackets(ins, x + y)
    ensures ins == a + b && AllConsistent(a) && AllConsistent(b) && SamePackets(a, x) && SamePackets(b, y)
  {
    a, b := ins[..|x|], ins[|x|..];
    forall i | 0 <= i < |x| ensures a[i].bytes == x[i] {
      assert (x + y)[i] == x[i];
    }
    forall i | 0 <= i < |y| ensures b[i].bytes == y[i] {
      assert (x + y)[|x| + i] == y[i];
    }
  }

  /** The packets of a stream are those of its first packet followed by those of the others. */
  lemma SplitStream(ps: seq<seq<Byte>>, m: nat, ins: seq<Inbound>) returns (a: seq<Inbound>, b: seq<Inbound>)
    requires 2 <= m && m + PREAMBLE < 0x10000 && AllWhole(ps) && ps != []
    requires AllConsistent(ins) && SamePackets(ins, Stream(ps, m))
    ensures ins == a + b && AllConsistent(a) && AllConsistent(b)
    ensures WholePacket(ps[0]) && SamePackets(a, Fragments(ps[0], m))
    ensures AllWhole(ps[1..]) && SamePackets(b, Stream(ps[1..], m))
  {
    var first, later := Fragments(ps[0], m), Stream(ps[1..], m);
    a, b := SplitSame(ins, first, later);
  }

  lemma {:induction false} StreamRoundTrip(ps: seq<seq<Byte>>, m: nat, ins: seq<Inbound>)
    requires 2 <= m && m + PREAMBLE < 0x10000 && AllWhole(ps)
    requires AllConsistent(ins) && SamePackets(ins, Stream(ps, m))
    ensures Delivers(ins, ps)
  {
    if ps != [] {
      var a, b := SplitStream(ps, m, ins);
      OnePacketRoundTrip(ps[0], m, a);
      StreamRoundTrip(ps[1..], m, b);
      RunsJoin(a, b, [ps[0]], ps[1..]);
      assert [ps[0]] + ps[1..] == ps;
    }
  }

  lemma RunsJoin(a: seq<Inbound>, b: seq<Inbound>, x: seq<seq<Byte>>, y: seq<seq<Byte>>)
    requires Delivers(a, x) && Delivers(b, y)
    ensures Delivers(a + b, x + y)
  {
    RunOnePlus(None, a, b);
    RunOneFitsPlus(None, a, b);
  }

  /** What was sent on one connection: its packets and the data size they were cut to. */
  datatype Sender = Sender(packets: seq<seq<Byte>>, dataSize: nat)

  ghost predicate SenderOk(h: int, s: Sender) {
    && 2 <= s.dataSize && s.dataSize + PREAMBLE < 0x10000
    && AllWhole(s.packets) && forall i :: 0 <= i < |s.packets| ==> For(s.packets[i], h)
  }

  /** `ins` is some interleaving of the senders' fragment streams: per handle, exactly that stream. */
  ghost predicate Interleaving(ins: seq<Inbound>, senders: map<int, Sender>) {
    && AllConsistent(ins)
    && (forall h :: h in senders ==> SenderOk(h, senders[h]))
    && (forall h :: h in senders ==>
          SamePackets(OfHandle(ins, h), Stream(senders[h].packets, senders[h].dataSize)))
    && (forall h :: h !in senders ==> OfHandle(ins, h) == [])
  }

  /**
   Fragmentation and reassembly are inverse under every interleaving: each connection's packets come
   out complete, in order and nothing else does, no partial is left over, and no 16-bit sum wraps.
   */
  lemma InterleavedRoundTrip(senders: map<int, Sender>, ins: seq<Inbound>)
    requires Interleaving(ins, senders)
    ensures forall h :: h in senders ==> OutOfHandle(Run(map[], ins).out, h) == senders[h].packets
    ensures forall h :: h !in senders ==> OutOfHandle(Run(map[], ins).out, h) == []
    ensures Run(map[], ins).table == map[]
    ensures RunFits(map[], ins)
  {
    var end := Run(map[], ins);
    forall h
      ensures Get(end.table, h) == None
      ensures OutOfHandle(end.out, h) == if h in senders then senders[h].packets else []
      ensures RunOneFits(Get(map[], h), OfHandle(ins, h))
    {
      NonInterference(map[], ins, h);
      if h in senders {
        assert SenderOk(h, senders[h]);
        StreamRoundTrip(senders[h].packets, senders[h].dataSize, OfHandle(ins, h));
      }
    }
    forall h ensures h !in end.table {
      assert Get(end.table, h) == None;
    }
    assert EachFits(map[], ins);
    EachFitsAllFit(map[], ins);
  }
}
