/** Packets that do not fit the buffer: both readers refuse them as soon as the length is known. */
module MqttOversize {
  import opened Bytes
  import opened MqttLength
  import opened MqttReadnb

  predicate TooBig(w: Wire, buflen: nat) {
    |w.body| <= MAX_REMAINING && |PacketBytes(w)| > buflen
  }

  lemma BlockingRefuses(w: Wire, buflen: nat)
    requires TooBig(w, buflen)
    ensures ReadBlocking(Input(w), buflen) == Blocking(-1, [w.header] + Code(w), w.body + w.after)
  {
    var input := Input(w);
    assert input[1..] == Code(w) + (w.body + w.after);
    LengthRoundTrip(|w.body|, w.body + w.after);
    assert input[1 + |Code(w)|..] == w.body + w.after;
  }

  /** Where the resumable reader stands after `n` answers with a byte: before, inside or past the length. */
  ghost predicate BeforeBody(r: Reader, w: Wire, n: nat) {
    if n == 0 then AtHeader(r, w) else Failed(r) || AtLength(r, w, n - 1)
  }

  lemma LastDigitRefuses(r: Reader, w: Wire, k: nat, a: Answer, buflen: nat)
    requires TooBig(w, buflen) && AtLength(r, w, k) && k + 1 == |Code(w)| && r.len < MAX_LENGTH_BYTES
    requires !a.Broken? && !NoAnswer(a, 1, |r.input|) && Code(w)[k] < 128 && r.input[0] == Code(w)[k]
    ensures Failed(Attempt(r, a, buflen))
  {
    var m, v := r.multiplier, r.remaining;
    assert DecodeLoop(Code(w), k, m, v) == Decoded(v + (Code(w)[k] % 128) * m, k + 1, true);
  }

  lemma LengthDigit(r: Reader, w: Wire, k: nat, a: Answer, buflen: nat)
    requires TooBig(w, buflen) && AtLength(r, w, k) && !a.Broken? && Brings(a)
    ensures BeforeBody(Feed(r, a, buflen), w, k + 2)
  {
    CodeDigits(|w.body|, k);
    if r.len < MAX_LENGTH_BYTES {
      var code := Code(w);
      assert Feed(r, a, buflen) == Attempt(r, a, buflen);
      assert r.input[0] == code[k];
      if k + 1 == |code| {
        LastDigitRefuses(r, w, k, a, buflen);
      } else {
        assert r.input[1..] == code[k + 1..] + (w.body + w.after);
        LengthNext(r, w, k, a, buflen);
      }
    }
  }

  lemma LengthStall(r: Reader, w: Wire, k: nat, a: Answer, buflen: nat)
    requires AtLength(r, w, k) && !a.Broken? && !Brings(a)
    ensures BeforeBody(Feed(r, a, buflen), w, k + 1)
  {
  }

  lemma BeforeBodyStep(r: Reader, w: Wire, n: nat, a: Answer, buflen: nat)
    requires TooBig(w, buflen) && BeforeBody(r, w, n) && !a.Broken?
    ensures BeforeBody(Feed(r, a, buflen), w, n + if Brings(a) then 1 else 0)
  {
    if n == 0 {
      HeaderStep(r, w, a, buflen);
    } else if Failed(r) {
    } else if Brings(a) {
      LengthDigit(r, w, n - 1, a, buflen);
    } else {
      LengthStall(r, w, n - 1, a, buflen);
    }
  }

  lemma {:induction false} NeverAtBody(w: Wire, answers: seq<Answer>, buflen: nat)
    requires TooBig(w, buflen) && Unbroken(answers)
    ensures BeforeBody(FeedAll(Fresh(Input(w)), answers, buflen), w, Productive(answers))
    decreases |answers|
  {
    if answers != [] {
      var init, a := answers[..|answers| - 1], answers[|answers| - 1];
      NeverAtBody(w, init, buflen);
      BeforeBodyStep(FeedAll(Fresh(Input(w)), init, buflen), w, Productive(init), a, buflen);
    }
  }

  /**
   A packet larger than the buffer is refused by the blocking reader, and under every schedule by the resumable
   one: never returned, and an error at the latest with the answer that completes its length.
   */
  lemma TooBigRefused(w: Wire, answers: seq<Answer>, buflen: nat)
    requires TooBig(w, buflen) && Unbroken(answers)
    ensures ReadBlocking(Input(w), buflen).rc == -1
    ensures var r := FeedAll(Fresh(Input(w)), answers, buflen);
            !r.result.Packet? && (Productive(answers) > |Code(w)| ==> r.result == ReadError)
  {
    BlockingRefuses(w, buflen);
    NeverAtBody(w, answers, buflen);
  }
}
