/**
 The two packet readers of MQTTPacket.c: the blocking one, and the resumable one that keeps its place in
 an MQTTTransport between calls and lives with partial reads and "call again" answers.
 */
module MqttReadnb {
  import opened Bytes
  import opened MqttLength

  // ---------- the transport ----------

  /** MQTTTransport, with the buffer filled so far, the input still to come, and the outcome. */
  datatype Reader = Reader(
    state: nat,
    multiplier: nat,
    remaining: nat,
    len: nat,
    buf: seq<Byte>,
    input: seq<Byte>,
    result: Result)

  datatype Result = CallAgain | Packet(ty: int) | ReadError

  /** What getfn answers: "call again", up to this many bytes, or an error. */
  datatype Answer = Stall | Bytes(count: nat) | Broken

  /** The number of bytes an answer yields when `want` were asked for; 0 means "call again". */
  function Got(a: Answer, want: nat, available: nat): nat {
    if !a.Bytes? then 0
    else
      var most := if want < available then want else available;
      if a.count < most then a.count else most
  }

  predicate NoAnswer(a: Answer, want: nat, available: nat) {
    Got(a, want, available) == 0
  }

  function Fail(r: Reader): Reader {
    r.(state := 0, result := ReadError)
  }

  /**
   What happens before getfn is asked, when a call begins and each time the length loop goes round: an
   unknown state starts over, a fifth attempt on the length fails, the first one starts from a clean value.
   */
  function Enter(r: Reader): Reader {
    if r.result != CallAgain then r
    else if r.state > 2 then r.(state := 0)
    else if r.state == 1 && r.len >= MAX_LENGTH_BYTES then Fail(r.(len := r.len + 1))
    else if r.state == 1 && r.len == 0 then r.(multiplier := 1, remaining := 0)
    else r
  }

  /** One answer of getfn and everything up to the next time it is asked; `buflen` bounds the packet. */
  function Feed(r: Reader, a: Answer, buflen: nat): Reader {
    var r0 := Enter(r);
    if r0.result != CallAgain then r0
    else if r0.state == 0 then FeedHeader(r0, a)
    else if r0.state == 1 then Attempt(r0, a, buflen)
    else FeedBody(r0, a)
  }

  function FeedHeader(r: Reader, a: Answer): Reader {
    if a.Broken? then Fail(r)
    else if NoAnswer(a, 1, |r.input|) then r
    else Enter(r.(buf := [r.input[0]], input := r.input[1..], len := 0, state := 1))
  }

  /** One round of MQTTPacket_decodenb: the attempt counts, also if it stalls. */
  function Attempt(r: Reader, a: Answer, buflen: nat): Reader {
    var r1 := r.(len := r.len + 1);
    if a.Broken? then Fail(r1)
    else if NoAnswer(a, 1, |r1.input|) then r1
    else
      var r2 := Digit(r1);
      if r1.input[0] >= 128 then Enter(r2) else LengthDone(r2, buflen)
  }

  function Digit(r: Reader): Reader
    requires r.input != []
  {
    r.(input := r.input[1..], remaining := r.remaining + (r.input[0] % 128) * r.multiplier,
       multiplier := r.multiplier * 128)
  }

  /** Put the length back into the buffer and check that the packet fits. */
  function LengthDone(r: Reader, buflen: nat): Reader {
    var e := Encode(r.remaining);
    var r' := r.(len := 1 + |e|, buf := r.buf + e);
    if r'.remaining + r'.len > buflen then Fail(r') else r'.(state := 2)
  }

  function FeedBody(r: Reader, a: Answer): Reader {
    var n := Got(a, r.remaining, |r.input|);
    if a.Broken? then Fail(r)
    else if n == 0 then r
    else
      var r' := r.(buf := r.buf + r.input[..n], input := r.input[n..], remaining := r.remaining - n, len := r.len + n);
      if r'.remaining > 0 then r'
      else r'.(state := 0, result := Packet(if r'.buf == [] then 0 else r'.buf[0] / 16))
  }

  function FeedAll(r: Reader, answers: seq<Answer>, buflen: nat): Reader {
    if answers == [] then r else Feed(FeedAll(r, answers[..|answers| - 1], buflen), answers[|answers| - 1], buflen)
  }

  function Fresh(input: seq<Byte>): Reader {
    Reader(0, 1, 0, 0, [], input, CallAgain)
  }

  // ---------- calls ----------

  /** What one call leaves behind, and how many answers it asked for. */
  datatype Called = Called(reader: Reader, used: nat)

  /** The call returns after this answer: nothing came, or it was asked for the body. */
  predicate Pauses(r: Reader, a: Answer) {
    r.state == 2 || NoAnswer(a, 1, |r.input|)
  }

  /** The rest of a call that has been given `i` answers. */
  function CallFrom(r: Reader, answers: seq<Answer>, i: nat, buflen: nat): (c: Called)
    requires i <= |answers|
    ensures i <= c.used <= |answers|
    ensures r.result == CallAgain && i < |answers| ==> i < c.used
    decreases |answers| - i
  {
    if r.result != CallAgain || i == |answers| then Called(r, i)
    else
      var r' := Feed(r, answers[i], buflen);
      if r'.result != CallAgain || Pauses(r, answers[i]) then Called(r', i + 1)
      else CallFrom(r', answers, i + 1, buflen)
  }

  /** A call that is neither over nor paused goes on behind the answer. */
  lemma CallStep(r: Reader, answers: seq<Answer>, i: nat, buflen: nat)
    requires i < |answers| && r.result == CallAgain
    ensures var r', c := Feed(r, answers[i], buflen), CallFrom(r, answers, i, buflen);
            c == if r'.result != CallAgain || Pauses(r, answers[i]) then Called(r', i + 1)
                 else CallFrom(r', answers, i + 1, buflen)
  {
  }

  lemma AttemptStep(r: Reader, answers: seq<Answer>, i: nat, buflen: nat)
    requires i < |answers| && r.result == CallAgain && r.state == 1 && r.len < MAX_LENGTH_BYTES && Enter(r) == r
    ensures var r', c := Attempt(r, answers[i], buflen), CallFrom(r, answers, i, buflen);
            c == if r'.result != CallAgain || NoAnswer(answers[i], 1, |r.input|) then Called(r', i + 1)
                 else CallFrom(r', answers, i + 1, buflen)
  {
    CallStep(r, answers, i, buflen);
  }

  /** What the call comes to from here: another round, the body, or nothing more. */
  function CallNow(r: Reader, again: bool, answers: seq<Answer>, i: nat, buflen: nat): Called
    requires i <= |answers|
  {
    if again then CallFrom(Enter(r), answers, i, buflen)
    else if r.state == 2 then CallFrom(r, answers, i, buflen)
    else Called(r, i)
  }

  /** A round of the length loop leads from `r` to `r'` without changing what the call comes to. */
  ghost predicate Onward(r: Reader, r': Reader, again: bool, answers: seq<Answer>, i: nat, used: nat, buflen: nat) {
    && i <= used <= |answers|
    && CallFrom(Enter(r), answers, i, buflen) == CallNow(r', again, answers, used, buflen)
  }

  /** What an attempt leaves: another round to go, the length complete, a stall, or an error. */
  ghost predicate Tried(r: Reader, a: Answer, r': Reader, again: bool, buflen: nat) {
    && Attempt(r, a, buflen) == (if again then Enter(r') else r')
    && (r'.result == CallAgain || Failed(r'))
    && (again ==> r'.state == 1 && r'.result == CallAgain && r'.len == r.len + 1)
    && (r'.result == CallAgain ==> r'.state == 1 || r'.state == 2)
    && (r'.result == CallAgain ==> (NoAnswer(a, 1, |r.input|) <==> r'.state == 1 && !again))
  }

  lemma RoundStep(r: Reader, r': Reader, again: bool, answers: seq<Answer>, i: nat, buflen: nat)
    requires i < |answers| && r.result == CallAgain && r.state == 1 && r.len < MAX_LENGTH_BYTES && Enter(r) == r
    requires Tried(r, answers[i], r', again, buflen)
    ensures Onward(r, r', again, answers, i, i + 1, buflen)
  {
    AttemptStep(r, answers, i, buflen);
  }

  lemma HeaderFirst(r: Reader, answers: seq<Answer>, buflen: nat)
    requires answers != [] && r.result == CallAgain && r.state == 0
    ensures var r', c := FeedHeader(r, answers[0]), Call(r, answers, buflen);
            c == if r'.result != CallAgain || NoAnswer(answers[0], 1, |r.input|) then Called(r', 1)
                 else CallFrom(r', answers, 1, buflen)
  {
    CallStep(r, answers, 0, buflen);
  }

  /** MQTTPacket_readnb. */
  function Call(r: Reader, answers: seq<Answer>, buflen: nat): (c: Called)
    ensures c.used <= |answers|
  {
    CallFrom(Enter(r), answers, 0, buflen)
  }

  /** Calling again as long as the reader says so. */
  function CallAll(r: Reader, answers: seq<Answer>, buflen: nat): Reader
    decreases |answers|
  {
    if answers == [] || r.result != CallAgain then r
    else
      var c := Call(r, answers, buflen);
      if c.used == 0 then c.reader else CallAll(c.reader, answers[c.used..], buflen)
  }

  lemma {:induction false} FeedAllStuck(r: Reader, answers: seq<Answer>, buflen: nat)
    requires r.result != CallAgain
    ensures FeedAll(r, answers, buflen) == r
  {
    if answers != [] {
      FeedAllStuck(r, answers[..|answers| - 1], buflen);
    }
  }

  lemma FeedFirst(r: Reader, answers: seq<Answer>, buflen: nat)
    requires answers != []
    ensures FeedAll(r, answers, buflen) == FeedAll(Feed(r, answers[0], buflen), answers[1..], buflen)
  {
    assert answers == [answers[0]] + answers[1..];
    FeedAllPlus(r, [answers[0]], answers[1..], buflen);
    assert [answers[0]][..0] == [];
  }

  lemma EnterOnce(r: Reader, answers: seq<Answer>, buflen: nat)
    requires answers != []
    ensures FeedAll(Enter(r), answers, buflen) == FeedAll(r, answers, buflen)
  {
    FeedFirst(r, answers, buflen);
    FeedFirst(Enter(r), answers, buflen);
  }

  lemma {:induction false} CallFromFeeds(r: Reader, answers: seq<Answer>, i: nat, buflen: nat)
    requires i <= |answers|
    ensures var c := CallFrom(r, answers, i, buflen); c.reader == FeedAll(r, answers[i..c.used], buflen)
    decreases |answers| - i
  {
    var c := CallFrom(r, answers, i, buflen);
    if r.result == CallAgain && i < |answers| {
      var r', rest := Feed(r, answers[i], buflen), answers[i..c.used];
      FeedFirst(r, rest, buflen);
      assert rest[1..] == answers[i + 1..c.used];
      if r'.result == CallAgain && !Pauses(r, answers[i]) {
        CallFromFeeds(r', answers, i + 1, buflen);
      }
    }
  }

  /** A call takes its answers off the front of the schedule. */
  lemma CallFeeds(r: Reader, answers: seq<Answer>, buflen: nat)
    requires answers != []
    ensures var c := Call(r, answers, buflen);
            FeedAll(r, answers, buflen) == FeedAll(c.reader, answers[c.used..], buflen)
  {
    var c := Call(r, answers, buflen);
    EnterOnce(r, answers, buflen);
    CallFromFeeds(Enter(r), answers, 0, buflen);
    assert answers == answers[0..c.used] + answers[c.used..];
    FeedAllPlus(Enter(r), answers[0..c.used], answers[c.used..], buflen);
  }

  /** Where calls begin and end does not matter: calling again and again is feeding the answers one by one. */
  lemma {:induction false} CallsAreFeeds(r: Reader, answers: seq<Answer>, buflen: nat)
    ensures CallAll(r, answers, buflen) == FeedAll(r, answers, buflen)
    decreases |answers|
  {
    if r.result != CallAgain {
      FeedAllStuck(r, answers, buflen);
    } else if answers != [] {
      var c := Call(r, answers, buflen);
      CallFeeds(r, answers, buflen);
      if c.used == 0 {
        FeedAllStuck(c.reader, answers[0..], buflen);
      } else {
        CallsAreFeeds(c.reader, answers[c.used..], buflen);
      }
    }
  }

  // ---------- the blocking reader ----------

  datatype Blocking = Blocking(rc: int, buf: seq<Byte>, rest: seq<Byte>)

  /** MQTTPacket_read on a source that always delivers what is there. */
  function ReadBlocking(input: seq<Byte>, buflen: nat): Blocking {
    if input == [] then Blocking(-1, [], [])
    else
      var d := Decode(input[1..]);
      var used := 1 + if d.ok then d.len else d.len - 1;
      var rest := if used <= |input| then input[used..] else [];
      var head := [input[0]] + Encode(d.value);
      if d.value + |head| > buflen then Blocking(-1, head, rest)
      else if |rest| < d.value then Blocking(-1, head + rest, [])
      else Blocking(input[0] / 16, head + rest[..d.value], rest[d.value..])
  }

  // ---------- a packet on the wire ----------

  datatype Wire = Wire(header: Byte, body: seq<Byte>, after: seq<Byte>)

  function Code(w: Wire): seq<Byte> {
    Encode(|w.body|)
  }

  function PacketBytes(w: Wire): seq<Byte> {
    [w.header] + Code(w) + w.body
  }

  function Input(w: Wire): seq<Byte> {
    PacketBytes(w) + w.after
  }

  predicate Legal(w: Wire, buflen: nat) {
    |w.body| <= MAX_REMAINING && |PacketBytes(w)| <= buflen
  }

  lemma BlockingReadsPacket(w: Wire, buflen: nat)
    requires Legal(w, buflen)
    ensures ReadBlocking(Input(w), buflen) == Blocking(w.header / 16, PacketBytes(w), w.after)
  {
    var input := Input(w);
    assert input[1..] == Code(w) + (w.body + w.after);
    LengthRoundTrip(|w.body|, w.body + w.after);
    var rest := input[1 + |Code(w)|..];
    assert rest == w.body + w.after;
    assert rest[..|w.body|] == w.body && rest[|w.body|..] == w.after;
  }

  // ---------- the resumable reader ----------

  // What follows about a schedule is read off the answers alone.

  predicate Brings(a: Answer) {
    a.Bytes? && a.count > 0
  }

  /** Answers that bring at least one byte. */
  function Productive(answers: seq<Answer>): nat {
    if answers == [] then 0
    else Productive(answers[..|answers| - 1]) + if Brings(answers[|answers| - 1]) then 1 else 0
  }

  /** The first answer that brings a byte, which is the header; or the length. */
  function HeaderAt(answers: seq<Answer>): (h: nat)
    ensures h <= |answers| && (h < |answers| ==> Brings(answers[h]))
    ensures forall i :: 0 <= i < h ==> !Brings(answers[i])
  {
    if answers == [] then 0
    else
      var init := answers[..|answers| - 1];
      var h := HeaderAt(init);
      if h < |init| then h else if Brings(answers[|init|]) then |init| else |answers|
  }

  /** Up to four answers behind position `h`. */
  function WindowAt(answers: seq<Answer>, h: nat): (w: seq<Answer>)
    ensures |w| <= MAX_LENGTH_BYTES
  {
    if h + 5 <= |answers| then answers[h + 1..h + 5] else if h < |answers| then answers[h + 1..] else []
  }

  /** The answers to the length attempts: at most four, right behind the header's. */
  function Window(answers: seq<Answer>): seq<Answer> {
    WindowAt(answers, HeaderAt(answers))
  }

  /** Four answers have gone by without the `e` bytes of the length. */
  predicate TooSlow(answers: seq<Answer>, e: nat) {
    |Window(answers)| == MAX_LENGTH_BYTES && Productive(Window(answers)) < e
  }

  predicate Unbroken(answers: seq<Answer>) {
    forall i :: 0 <= i < |answers| ==> !answers[i].Broken?
  }

  lemma HeaderSnoc(init: seq<Answer>, a: Answer)
    ensures HeaderAt(init + [a])
            == if HeaderAt(init) < |init| then HeaderAt(init) else if Brings(a) then |init| else |init| + 1
  {
    assert (init + [a])[..|init|] == init;
  }

  lemma WindowAtSnoc(init: seq<Answer>, a: Answer, h: nat)
    requires h < |init|
    ensures var win := WindowAt(init, h);
            WindowAt(init + [a], h) == if |win| < MAX_LENGTH_BYTES then win + [a] else win
  {
    var all := init + [a];
    if h + 5 <= |init| {
      assert all[h + 1..h + 5] == init[h + 1..h + 5];
    } else {
      assert all[h + 1..] == init[h + 1..] + [a];
      assert h + 5 == |all| ==> all[h + 1..h + 5] == all[h + 1..];
    }
  }

  lemma ProductiveSnoc(init: seq<Answer>, a: Answer)
    ensures Productive(init + [a]) == Productive(init) + if Brings(a) then 1 else 0
  {
    assert (init + [a])[..|init|] == init;
  }

  lemma {:induction false} NoneProductive(answers: seq<Answer>)
    requires forall i :: 0 <= i < |answers| ==> !Brings(answers[i])
    ensures Productive(answers) == 0
  {
    if answers != [] {
      NoneProductive(answers[..|answers| - 1]);
    }
  }

  /** What one more answer does to the schedule: it finds the header, or fills the window, or comes too late. */
  lemma ScheduleSnoc(init: seq<Answer>, a: Answer)
    ensures var win, win' := Window(init), Window(init + [a]);
            if HeaderAt(init) == |init| then win == win' == [] && (HeaderAt(init + [a]) == |init| <==> Brings(a))
            else
              && HeaderAt(init + [a]) < |init|
              && (if |win| == MAX_LENGTH_BYTES then win' == win
                  else |win'| == |win| + 1 && Productive(win') == Productive(win) + if Brings(a) then 1 else 0)
  {
    HeaderSnoc(init, a);
    if HeaderAt(init) < |init| {
      WindowAtSnoc(init, a, HeaderAt(init));
      ProductiveSnoc(Window(init), a);
    }
  }

  /** Nothing read yet. */
  ghost predicate AtHeader(r: Reader, w: Wire) {
    r.state == 0 && r.result == CallAgain && r.input == Input(w)
  }

  /** `k` of the length bytes have been consumed in `r.len` attempts; after four, the next call fails. */
  ghost predicate AtLength(r: Reader, w: Wire, k: nat) {
    && r.state == 1 && r.result == CallAgain && r.buf == [w.header]
    && k < |Code(w)| && k <= r.len <= MAX_LENGTH_BYTES
    && r.input == Code(w)[k..] + (w.body + w.after)
    && (r.len == 0 ==> r.multiplier == 1 && r.remaining == 0)
    && DecodeLoop(Code(w), k, r.multiplier, r.remaining) == Decoded(|w.body|, |Code(w)|, true)
  }

  /** `j` bytes of the body have been consumed; a non-empty body has bytes left. */
  ghost predicate AtBody(r: Reader, w: Wire, j: nat) {
    && r.state == 2 && r.result == CallAgain && (j < |w.body| || j == |w.body| == 0)
    && r.buf == [w.header] + Code(w) + w.body[..j] && r.input == w.body[j..] + w.after
    && r.remaining == |w.body| - j
  }

  ghost predicate Done(r: Reader, w: Wire) {
    && r.state == 0 && r.result == Packet(w.header / 16)
    && r.buf == PacketBytes(w) && r.input == w.after
  }

  ghost predicate Failed(r: Reader) {
    r.state == 0 && r.result == ReadError
  }

  /** Where the reader stands on the packet, with the bytes consumed so far. */
  datatype Place = Header | Length(k: nat) | Body(j: nat) | Finished | GivenUp

  ghost predicate Stands(r: Reader, w: Wire, p: Place) {
    match p
    case Header => AtHeader(r, w)
    case Length(k) => AtLength(r, w, k)
    case Body(j) => AtBody(r, w, j)
    case Finished => Done(r, w) && |w.body| > 0
    case GivenUp => Failed(r)
  }

  function Consumed(w: Wire, p: Place): nat {
    match p
    case Header => 0
    case Length(k) => 1 + k
    case Body(j) => 1 + |Code(w)| + j
    case Finished => |PacketBytes(w)|
    case GivenUp => 0
  }

  /** The place after one more answer; the length is given up behind the fourth attempt. */
  function Advance(w: Wire, p: Place, a: Answer, attempts: nat): Place {
    match p
    case Header => if NoAnswer(a, 1, |Input(w)|) then Header else Length(0)
    case Length(k) =>
      if attempts >= MAX_LENGTH_BYTES then GivenUp
      else if NoAnswer(a, 1, 1) then p
      else if k + 1 == |Code(w)| then Body(0)
      else if attempts + 1 == MAX_LENGTH_BYTES then GivenUp
      else Length(k + 1)
    case Body(j) =>
      var left := if j < |w.body| then |w.body| - j else 0;
      var n := Got(a, left, left + |w.after|);
      if n == 0 then p else if j + n < |w.body| then Body(j + n) else Finished
    case Finished => Finished
    case GivenUp => GivenUp
  }

  lemma HeaderStep(r: Reader, w: Wire, a: Answer, buflen: nat)
    requires |w.body| <= MAX_REMAINING && AtHeader(r, w) && !a.Broken?
    ensures Stands(Feed(r, a, buflen), w, Advance(w, Header, a, 0))
    ensures Advance(w, Header, a, 0).Length? ==> Feed(r, a, buflen).len == 0
  {
    DecodeFromStart(w);
    assert Input(w)[1..] == Code(w) + (w.body + w.after);
    assert Code(w)[0..] == Code(w);
  }

  lemma {:induction false} CodeDigits(n: nat, k: nat)
    requires k < |Encode(n)|
    ensures Encode(n)[k] >= 128 <==> k + 1 < |Encode(n)|
    decreases n
  {
    if n >= 128 && k > 0 {
      CodeDigits(n / 128, k - 1);
    }
  }

  lemma DecodeFromStart(w: Wire)
    requires |w.body| <= MAX_REMAINING
    ensures DecodeLoop(Code(w), 0, 1, 0) == Decoded(|w.body|, |Code(w)|, true)
  {
    LengthRoundTrip(|w.body|, []);
    assert Code(w) + [] == Code(w);
  }

  lemma LengthStep(r: Reader, w: Wire, k: nat, a: Answer, buflen: nat)
    requires Legal(w, buflen) && AtLength(r, w, k) && !a.Broken?
    ensures Stands(Feed(r, a, buflen), w, Advance(w, Length(k), a, r.len))
    ensures Advance(w, Length(k), a, r.len).Length? ==> Feed(r, a, buflen).len == r.len + 1
  {
    EncodeSize(|w.body|);
    CodeDigits(|w.body|, k);
    if r.len < MAX_LENGTH_BYTES {
      assert Feed(r, a, buflen) == Attempt(r, a, buflen);
      if !NoAnswer(a, 1, 1) {
        var code := Code(w);
        assert r.input[0] == code[k];
        assert r.input[1..] == code[k + 1..] + (w.body + w.after);
        if k + 1 == |code| {
          assert code[k + 1..] == [];
          assert r.input[1..] == w.body[0..] + w.after;
          BodyStart(r, w, k, a, buflen);
        } else {
          LengthNext(r, w, k, a, buflen);
        }
      }
    }
  }

  /** A continuation byte goes on to the next attempt, unless it came with the fourth. */
  lemma LengthNext(r: Reader, w: Wire, k: nat, a: Answer, buflen: nat)
    requires AtLength(r, w, k) && k + 1 < |Code(w)| && r.len < MAX_LENGTH_BYTES && !NoAnswer(a, 1, 1)
    requires Code(w)[k] >= 128
    requires r.input[0] == Code(w)[k] && r.input[1..] == Code(w)[k + 1..] + (w.body + w.after)
    ensures var r' := Attempt(r, a, buflen);
            if r.len + 1 == MAX_LENGTH_BYTES then Failed(r') else AtLength(r', w, k + 1) && r'.len == r.len + 1
  {
    var m, v := r.multiplier, r.remaining;
    assert DecodeLoop(Code(w), k, m, v) == DecodeLoop(Code(w), k + 1, m * 128, v + (Code(w)[k] % 128) * m);
  }

  lemma BodyStart(r: Reader, w: Wire, k: nat, a: Answer, buflen: nat)
    requires Legal(w, buflen) && AtLength(r, w, k) && k + 1 == |Code(w)| && !NoAnswer(a, 1, 1)
    requires Code(w)[k] < 128 && r.len < MAX_LENGTH_BYTES
    requires r.input[0] == Code(w)[k] && r.input[1..] == w.body[0..] + w.after
    ensures AtBody(Attempt(r, a, buflen), w, 0)
  {
    var m, v := r.multiplier, r.remaining;
    assert DecodeLoop(Code(w), k, m, v) == Decoded(v + (Code(w)[k] % 128) * m, k + 1, true);
    assert w.body[..0] == [] && [w.header] + Code(w) + [] == [w.header] + Code(w);
  }

  /** `n` more bytes of the body, taken from the input and put behind the buffer. */
  lemma BodyBytes(head: seq<Byte>, body: seq<Byte>, after: seq<Byte>, j: nat, n: nat)
    requires j + n <= |body|
    ensures var input := body[j..] + after;
            && |input| >= n
            && head + body[..j] + input[..n] == head + body[..j + n]
            && input[n..] == body[j + n..] + after
  {
    var input := body[j..] + after;
    assert input[..n] == body[j..j + n];
    assert body[..j] + body[j..j + n] == body[..j + n];
    PlusAssoc(head, body[..j], input[..n]);
  }

  lemma BodyMore(r: Reader, w: Wire, j: nat, a: Answer, n: nat)
    requires !a.Broken? && AtBody(r, w, j) && n == Got(a, |w.body| - j, |r.input|) && 0 < n && j + n < |w.body|
    ensures AtBody(FeedBody(r, a), w, j + n)
  {
    BodyBytes([w.header] + Code(w), w.body, w.after, j, n);
  }

  lemma BodyLast(r: Reader, w: Wire, j: nat, a: Answer, n: nat)
    requires !a.Broken? && AtBody(r, w, j) && n == Got(a, |w.body| - j, |r.input|) && 0 < n && j + n == |w.body|
    ensures Done(FeedBody(r, a), w)
  {
    BodyBytes([w.header] + Code(w), w.body, w.after, j, n);
    assert w.body[..j + n] == w.body && w.body[j + n..] + w.after == w.after;
    assert PacketBytes(w)[0] == w.header;
  }

  lemma BodyStep(r: Reader, w: Wire, j: nat, a: Answer, buflen: nat)
    requires !a.Broken? && AtBody(r, w, j)
    ensures Stands(Feed(r, a, buflen), w, Advance(w, Body(j), a, 0))
  {
    var n := Got(a, |w.body| - j, |r.input|);
    assert Feed(r, a, buflen) == FeedBody(r, a);
    if n == 0 {
      assert Advance(w, Body(j), a, 0) == Body(j);
    } else if j + n < |w.body| {
      BodyMore(r, w, j, a, n);
      assert Advance(w, Body(j), a, 0) == Body(j + n);
    } else {
      BodyLast(r, w, j, a, n);
      assert Advance(w, Body(j), a, 0) == Finished;
    }
  }

  lemma PlaceStep(r: Reader, w: Wire, p: Place, a: Answer, buflen: nat)
    requires Legal(w, buflen) && Stands(r, w, p) && !a.Broken?
    ensures Stands(Feed(r, a, buflen), w, Advance(w, p, a, r.len))
    ensures Advance(w, p, a, r.len).Length? ==> Feed(r, a, buflen).len == if p.Length? then r.len + 1 else 0
  {
    match p
    case Header => HeaderStep(r, w, a, buflen);
    case Length(k) => LengthStep(r, w, k, a, buflen);
    case Body(j) => BodyStep(r, w, j, a, buflen);
    case Finished =>
    case GivenUp =>
  }

  /** The place reached by a schedule. */
  function PlaceAfter(w: Wire, answers: seq<Answer>, buflen: nat): Place {
    if answers == [] then Header
    else
      var init := answers[..|answers| - 1];
      Advance(w, PlaceAfter(w, init, buflen), answers[|answers| - 1], FeedAll(Fresh(Input(w)), init, buflen).len)
  }

  /** How the place agrees with the schedule: the window decides the length, and nothing else does. */
  ghost predicate OnSchedule(r: Reader, w: Wire, p: Place, answers: seq<Answer>) {
    var e, win := |Code(w)|, Window(answers);
    match p
    case Header => HeaderAt(answers) == |answers|
    case Length(k) => HeaderAt(answers) < |answers| && r.len == |win| && k == Productive(win)
    case Body(_) => HeaderAt(answers) < |answers| && Productive(win) >= e
    case Finished => HeaderAt(answers) < |answers| && Productive(win) >= e
    case GivenUp => HeaderAt(answers) < |answers| && TooSlow(answers, e)
  }

  lemma ScheduleStep(r: Reader, w: Wire, p: Place, init: seq<Answer>, a: Answer, buflen: nat)
    requires Legal(w, buflen) && !a.Broken? && Stands(r, w, p) && OnSchedule(r, w, p, init)
    ensures Stands(Feed(r, a, buflen), w, Advance(w, p, a, r.len))
    ensures OnSchedule(Feed(r, a, buflen), w, Advance(w, p, a, r.len), init + [a])
  {
    ScheduleSnoc(init, a);
    PlaceStep(r, w, p, a, buflen);
    NoAnswerIs(a, 1);
    NoAnswerIs(a, |Input(w)|);
  }

  lemma NoAnswerIs(a: Answer, available: nat)
    requires available > 0
    ensures NoAnswer(a, 1, available) <==> !Brings(a)
  {
  }

  ghost predicate ScheduleAt(w: Wire, answers: seq<Answer>, buflen: nat) {
    var r, p := FeedAll(Fresh(Input(w)), answers, buflen), PlaceAfter(w, answers, buflen);
    Stands(r, w, p) && OnSchedule(r, w, p, answers)
  }

  lemma ScheduleAtSnoc(w: Wire, init: seq<Answer>, a: Answer, buflen: nat)
    requires Legal(w, buflen) && !a.Broken? && ScheduleAt(w, init, buflen)
    ensures ScheduleAt(w, init + [a], buflen)
  {
    assert (init + [a])[..|init|] == init;
    ScheduleStep(FeedAll(Fresh(Input(w)), init, buflen), w, PlaceAfter(w, init, buflen), init, a, buflen);
  }

  /** Under every schedule the reader stands where the schedule says. */
  lemma {:induction false} ScheduleStands(w: Wire, answers: seq<Answer>, buflen: nat)
    requires Legal(w, buflen) && Unbroken(answers)
    ensures ScheduleAt(w, answers, buflen)
    decreases |answers|
  {
    if answers != [] {
      var init, a := answers[..|answers| - 1], answers[|answers| - 1];
      ScheduleStands(w, init, buflen);
      ScheduleAtSnoc(w, init, a, buflen);
      assert init + [a] == answers;
    }
  }

  lemma AdvanceConsumes(r: Reader, w: Wire, p: Place, a: Answer, attempts: nat)
    requires Stands(r, w, p) && |w.body| > 0 && !p.Finished? && Brings(a)
    ensures var p' := Advance(w, p, a, attempts); p'.GivenUp? || Consumed(w, p') > Consumed(w, p)
  {
  }

  lemma {:induction false} ProductiveConsumes(w: Wire, answers: seq<Answer>, buflen: nat)
    requires Legal(w, buflen) && |w.body| > 0 && Unbroken(answers)
    ensures var p := PlaceAfter(w, answers, buflen);
            p.Finished? || p.GivenUp? || Consumed(w, p) >= Productive(answers)
    decreases |answers|
  {
    if answers != [] {
      var init, a := answers[..|answers| - 1], answers[|answers| - 1];
      var r, p := FeedAll(Fresh(Input(w)), init, buflen), PlaceAfter(w, init, buflen);
      ProductiveConsumes(w, init, buflen);
      ScheduleStands(w, init, buflen);
      if !p.Finished? && Brings(a) {
        AdvanceConsumes(r, w, p, a, r.len);
      }
    }
  }

  /**
   The resumable reader refines the blocking one, exactly. For a packet that fits, with a non-empty body,
   under any schedule of partial reads and stalls: the reader fails, in the call of the last attempt or at
   the start of the next one, if and only if the four answers behind the header's bring fewer bytes than
   the length takes. Whatever it returns is the blocking reader's type, buffer and rest of the input, in
   state 0; and unless it failed it has returned it once as many answers brought a byte as the packet has.
   */
  lemma ReadnbRefinesRead(w: Wire, answers: seq<Answer>, buflen: nat)
    requires Legal(w, buflen) && |w.body| > 0 && Unbroken(answers)
    ensures var r, b := Enter(FeedAll(Fresh(Input(w)), answers, buflen)), ReadBlocking(Input(w), buflen);
            && (r.result == ReadError <==> TooSlow(answers, |Code(w)|))
            && (r.result.Packet? ==> r.result == Packet(b.rc) && r.buf == b.buf && r.input == b.rest && r.state == 0)
            && (Productive(answers) >= |PacketBytes(w)| ==> r.result != CallAgain)
  {
    FifthAttemptFails(w, answers, buflen);
    ScheduleStands(w, answers, buflen);
    ProductiveConsumes(w, answers, buflen);
    BlockingReadsPacket(w, buflen);
  }

  /** Whatever the body: the reader fails exactly when a fifth attempt on the length is needed. */
  lemma FifthAttemptFails(w: Wire, answers: seq<Answer>, buflen: nat)
    requires Legal(w, buflen) && Unbroken(answers)
    ensures Enter(FeedAll(Fresh(Input(w)), answers, buflen)).result == ReadError <==> TooSlow(answers, |Code(w)|)
  {
    ScheduleStands(w, answers, buflen);
  }

  /** A packet of 200 bytes is lost when three stalls come between the header and its length. */
  lemma StallsLosePacket(w: Wire, buflen: nat)
    requires Legal(w, buflen) && |w.body| == 200
    ensures Enter(FeedAll(Fresh(Input(w)), [Bytes(1), Stall, Stall, Stall, Bytes(1)], buflen)).result == ReadError
  {
    var answers := [Bytes(1), Stall, Stall, Stall, Bytes(1)];
    FifthAttemptFails(w, answers, buflen);
    assert HeaderAt(answers) == 0 by {
      assert Brings(answers[0]);
    }
    var win := [Stall, Stall, Stall];
    assert Window(answers) == win + [Bytes(1)];
    ProductiveSnoc(win, Bytes(1));
    NoneProductive(win);
    assert Encode(200) == [200, 1];
  }

  /** An error of getfn ends every read with an error, whatever the state, and starts the next one afresh. */
  lemma BrokenFails(r: Reader, buflen: nat)
    requires r.result == CallAgain
    ensures Feed(r, Broken, buflen).result == ReadError && Feed(r, Broken, buflen).state == 0
    ensures Feed(r, Broken, buflen).input == r.input
  {
  }

  /** A packet without a body is never returned, whatever the schedule; the blocking reader returns it. */
  lemma EmptyBodyNeverReturned(w: Wire, answers: seq<Answer>, buflen: nat)
    requires Legal(w, buflen) && w.body == [] && Unbroken(answers)
    ensures !FeedAll(Fresh(Input(w)), answers, buflen).result.Packet?
    ensures ReadBlocking(Input(w), buflen).rc == w.header / 16
  {
    ScheduleStands(w, answers, buflen);
    BlockingReadsPacket(w, buflen);
  }

  // ---------- the code ----------

  const READ_ERROR: int := -1

  class Transport {
    var multiplier: nat
    var remLen: nat
    var len: nat
    var state: nat
    var buf: seq<Byte>
    var input: seq<Byte>

    constructor (input: seq<Byte>)
      ensures View(CallAgain) == Fresh(input)
    {
      multiplier, remLen, len, state, buf, this.input := 1, 0, 0, 0, [], input;
    }

    ghost function View(result: Result): Reader
      reads this
    {
      Reader(state, multiplier, remLen, len, buf, input, result)
    }

    method GetFn(a: Answer, want: nat) returns (bytes: seq<Byte>, broken: bool)
      modifies this`input
      ensures broken == a.Broken? && bytes == old(input)[..Got(a, want, |old(input)|)]
      ensures input == old(input)[Got(a, want, |old(input)|)..]
    {
      var n := Got(a, want, |input|);
      bytes, input, broken := input[..n], input[n..], a.Broken?;
    }

    /** MQTTPacket_decodenb and the check behind it, from answer `start` of the call on. */
    method ReadLength(answers: seq<Answer>, start: nat, buflen: nat) returns (result: Result, used: nat)
      requires start + 4 < |answers| && state == 1
      modifies this
      ensures start <= used <= start + 4 && (result == CallAgain || result == ReadError)
      ensures result == ReadError ==> state == 0
      ensures result == CallAgain ==> state == 1 || state == 2
      ensures var c := CallFrom(Enter(old(View(CallAgain))), answers, start, buflen);
              c == if state == 2 then CallFrom(View(CallAgain), answers, used, buflen) else Called(View(result), used)
    {
      used, result := start, CallAgain;
      if len == 0 {
        multiplier, remLen := 1, 0;
      }
      ghost var target := CallFrom(Enter(View(CallAgain)), answers, start, buflen);
      var again := true;
      while again
        invariant start <= used <= start + 4 && (result == CallAgain || result == ReadError)
        invariant again ==> state == 1 && used <= start + len && (len == 0 ==> multiplier == 1 && remLen == 0)
        invariant result == ReadError ==> state == 0
        invariant result == CallAgain ==> state == 1 || state == 2
        invariant again ==> result == CallAgain
        invariant target == CallNow(View(result), again, answers, used, buflen)
        decreases again, 5 - len
      {
        result, again, used := LengthRound(answers, used, buflen);
      }
    }

    /** One round of the loop: the attempt is counted first, and a fifth one fails before anything is asked. */
    method LengthRound(answers: seq<Answer>, i: nat, buflen: nat) returns (result: Result, again: bool, used: nat)
      requires i < |answers| && state == 1 && (len == 0 ==> multiplier == 1 && remLen == 0)
      modifies this
      ensures used == i + (if old(len) >= MAX_LENGTH_BYTES then 0 else 1)
      ensures result == CallAgain || result == ReadError
      ensures again ==> state == 1 && len == old(len) + 1 <= MAX_LENGTH_BYTES
      ensures result == ReadError ==> state == 0 && !again
      ensures result == CallAgain ==> state == 1 || state == 2
      ensures Onward(old(View(CallAgain)), View(result), again, answers, i, used, buflen)
    {
      ghost var v := View(CallAgain);
      len, used := len + 1, i;
      if len > MAX_LENGTH_BYTES {
        state := 0;
        return ReadError, false, used;
      }
      result, again := LengthAttempt(answers[i], buflen);
      used := i + 1;
      RoundStep(v, View(result), again, answers, i, buflen);
    }

    /** One byte of the length, asked for and entered; the attempt has been counted. */
    method LengthAttempt(a: Answer, buflen: nat) returns (result: Result, again: bool)
      requires state == 1 && 0 < len <= MAX_LENGTH_BYTES
      modifies this
      ensures Tried(old(View(CallAgain)).(len := old(len) - 1), a, View(result), again, buflen)
    {
      var c, broken := GetFn(a, 1);
      if broken {
        state := 0;
        return ReadError, false;
      }
      if c == [] {
        return CallAgain, false;
      }
      remLen := remLen + (c[0] % 128) * multiplier;
      multiplier := multiplier * 128;
      if c[0] >= 128 {
        return CallAgain, true;
      }
      len := 1 + |Encode(remLen)|;
      buf := buf + Encode(remLen);
      if remLen + len > buflen {
        state := 0;
        return ReadError, false;
      }
      state := 2;
      return CallAgain, false;
    }

    /**
     MQTTPacket_readnb in any state of the transport, given the answers its getfn calls will receive: it
     asks for exactly the `used` first ones, at most six, header, length bytes and body.
     */
    method ReadNb(answers: seq<Answer>, buflen: nat) returns (rc: int, result: Result, used: nat)
      requires |answers| >= 6
      modifies this
      ensures used <= 6 && Called(View(result), used) == Call(old(View(CallAgain)), answers, buflen)
      ensures rc == ReturnCode(result)
    {
      used := 0;
      if state > 2 {
        state := 0;
      }
      if state == 0 {
        HeaderFirst(View(CallAgain), answers, buflen);
        result := ReadHeader(answers[0]);
        used := 1;
        if state == 0 {
          return ReturnCode(result), result, used;
        }
      }
      rc, result, used := ReadOn(answers, used, buflen);
    }

    /** The case 0 of the switch; the state tells whether the header came. */
    method ReadHeader(a: Answer) returns (result: Result)
      requires state == 0
      modifies this
      ensures var r' := FeedHeader(old(View(CallAgain)), a);
              if state == 0 then View(result) == r' && (result != CallAgain || NoAnswer(a, 1, |old(input)|))
              else state == 1 && Enter(View(CallAgain)) == r' && r'.result == CallAgain && !NoAnswer(a, 1, |old(input)|)
    {
      var c, broken := GetFn(a, 1);
      if broken {
        return ReadError;
      }
      if c == [] {
        return CallAgain;
      }
      buf, len, state := c, 0, 1;
      return CallAgain;
    }

    /** The cases 1 and 2 of the switch, one falling through to the other. */
    method ReadOn(answers: seq<Answer>, start: nat, buflen: nat) returns (rc: int, result: Result, used: nat)
      requires start + 4 < |answers| && (state == 1 || state == 2)
      modifies this
      ensures used <= start + 5 && rc == ReturnCode(result)
      ensures Called(View(result), used) == CallFrom(Enter(old(View(CallAgain))), answers, start, buflen)
    {
      used := start;
      if state == 1 {
        result, used := ReadLength(answers, used, buflen);
        if result == ReadError {
          return READ_ERROR, result, used;
        }
        if state == 1 {
          return 0, CallAgain, used;
        }
      }
      CallStep(View(CallAgain), answers, used, buflen);
      rc, result := ReadBody(answers[used], buflen);
      used := used + 1;
    }

    method ReadBody(a: Answer, ghost buflen: nat) returns (rc: int, result: Result)
      requires state == 2
      modifies this
      ensures View(result) == Feed(old(View(CallAgain)), a, buflen)
      ensures rc == ReturnCode(result)
    {
      var bytes, broken := GetFn(a, remLen);
      if broken {
        state := 0;
        return READ_ERROR, ReadError;
      }
      if bytes == [] {
        return 0, CallAgain;
      }
      buf := buf + bytes;
      remLen := remLen - |bytes|;
      len := len + |bytes|;
      if remLen > 0 {
        return 0, CallAgain;
      }
      state := 0;
      rc := if buf == [] then 0 else buf[0] / 16;
      return rc, Packet(rc);
    }
  }

  function ReturnCode(result: Result): int {
    match result
    case CallAgain => 0
    case ReadError => READ_ERROR
    case Packet(ty) => ty
  }

  /** Consecutive calls: their schedules concatenate. */
  lemma {:induction false} FeedAllPlus(r: Reader, a: seq<Answer>, b: seq<Answer>, buflen: nat)
    ensures FeedAll(r, a + b, buflen) == FeedAll(FeedAll(r, a, buflen), b, buflen)
    decreases |b|
  {
    if b == [] {
      assert a + b == a;
    } else {
      FeedAllPlus(r, a, b[..|b| - 1], buflen);
      assert (a + b)[..|a + b| - 1] == a + b[..|b| - 1];
    }
  }
}
