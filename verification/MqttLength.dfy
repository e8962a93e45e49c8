/** The variable-length "remaining length" of an MQTT packet (section 2.2.3 of MQTT 3.1.1). */
module MqttLength {
  import opened Bytes

  const MAX_REMAINING: nat := 268435455
  const MAX_LENGTH_BYTES: nat := 4

  function Encode(n: nat): seq<Byte> {
    if n < 128 then [n] else [n % 128 + 128] + Encode(n / 128)
  }

  /** Outcome of decoding: the value built so far, the count the code returns, and whether it ended well. */
  datatype Decoded = Decoded(value: nat, len: nat, ok: bool)

  /** The decoding loop after `i` bytes; it gives up at a fifth byte or when the input ends. */
  function DecodeLoop(s: seq<Byte>, i: nat, multiplier: nat, value: nat): Decoded
    decreases MAX_LENGTH_BYTES - i, |s|
  {
    if i >= MAX_LENGTH_BYTES || i >= |s| then Decoded(value, i + 1, false)
    else
      var v := value + (s[i] % 128) * multiplier;
      if s[i] < 128 then Decoded(v, i + 1, true) else DecodeLoop(s, i + 1, multiplier * 128, v)
  }

  function Decode(s: seq<Byte>): Decoded {
    DecodeLoop(s, 0, 1, 0)
  }

  lemma EncodeSize(n: nat)
    requires n <= MAX_REMAINING
    ensures |Encode(n)| == if n < 128 then 1 else if n < 16384 then 2 else if n < 2097152 then 3 else 4
  {
    if n >= 128 {
      var a := n / 128;
      assert |Encode(n)| == 1 + |Encode(a)|;
      if a >= 128 {
        var b := a / 128;
        assert |Encode(a)| == 1 + |Encode(b)|;
        if b >= 128 {
          assert b / 128 < 128;
          assert |Encode(b)| == 1 + |Encode(b / 128)|;
        }
      }
    }
  }

  lemma DigitWeight(n: nat, m: nat)
    ensures (n % 128) * m + (n / 128) * (m * 128) == n * m
  {
    var q, r := n / 128, n % 128;
    assert n == 128 * q + r;
    assert q * (m * 128) == (128 * q) * m;
    assert r * m + (128 * q) * m == (r + 128 * q) * m;
  }

  lemma {:induction false} DecodeEncoded(s: seq<Byte>, n: nat, i: nat, multiplier: nat, value: nat)
    requires i + |Encode(n)| <= MAX_LENGTH_BYTES && i <= |s| && Encode(n) <= s[i..]
    ensures DecodeLoop(s, i, multiplier, value) == Decoded(value + n * multiplier, i + |Encode(n)|, true)
    decreases n
  {
    var e := Encode(n);
    assert s[i] == s[i..][0] == e[0];
    if n >= 128 {
      assert e[0] % 128 == n % 128;
      assert e[1..] == Encode(n / 128);
      assert s[i + 1..] == s[i..][1..];
      DecodeEncoded(s, n / 128, i + 1, multiplier * 128, value + (n % 128) * multiplier);
      DigitWeight(n, multiplier);
    }
  }

  /** Decoding inverts encoding for every legal length, whatever follows, and consumes exactly the code. */
  lemma LengthRoundTrip(n: nat, rest: seq<Byte>)
    requires n <= MAX_REMAINING
    ensures Decode(Encode(n) + rest) == Decoded(n, |Encode(n)|, true)
  {
    var s := Encode(n) + rest;
    assert s[0..] == s;
    EncodeSize(n);
    DecodeEncoded(s, n, 0, 1, 0);
  }

  /** MQTTPacket_len, branch by branch. */
  function PacketLen(remaining: nat): nat {
    var r := remaining + 1;
    if r < 128 then r + 1
    else if r < 16384 then r + 2
    else if r < 2097151 then r + 3
    else r + 4
  }

  /** The size a packet really has: header byte, length bytes, the rest. */
  function TrueSize(remaining: nat): nat {
    1 + |Encode(remaining)| + remaining
  }

  /** The estimate is exact except at four lengths next to a boundary, where it is one too large. */
  lemma PacketLenExact(n: nat)
    requires n <= MAX_REMAINING
    ensures PacketLen(n) == TrueSize(n) + if n in {127, 16383, 2097150, 2097151} then 1 else 0
  {
    EncodeSize(n);
  }
}
