/**
 Configurations in flash: config_save splits the text into blobs of 1536 bytes under numbered keys, and
 config_parse collects the blobs and reads the lines. The key buffer holds a single digit.
 */
module ConfigStore {
  import opened Bytes
  import opened Decimal
  import opened ConfigText

  const CHUNK: nat := 1536
  const BUFFER: nat := 2048
  const KEY_PREFIX := "bt_cfg_key"

  /** Largest text whose chunk numbers have one digit. */
  const ONE_DIGIT_LIMIT: nat := 15360

  type Flash = map<string, string>

  /** snprintf into a buffer of 12 bytes: 11 characters survive. */
  function KeyName(i: nat): string {
    var full := KEY_PREFIX + Dec(i);
    if |full| <= 11 then full else full[..11]
  }

  lemma KeyNameDigit(i: nat)
    ensures KeyName(i) == KEY_PREFIX + [Dec(i)[0]]
  {
    var full := KEY_PREFIX + Dec(i);
    assert |KEY_PREFIX| == 10;
    assert full[..11] == KEY_PREFIX + Dec(i)[..1];
    assert Dec(i)[..1] == [Dec(i)[0]];
    if |full| <= 11 {
      assert Dec(i) == [Dec(i)[0]];
    }
  }

  /** Below ten, different numbers have different keys; from ten on, every key is that of a single digit. */
  lemma KeyNames(i: nat, j: nat)
    ensures i < 10 && j < 10 && i != j ==> KeyName(i) != KeyName(j)
    ensures i >= 10 ==> exists d: nat :: 1 <= d < 10 && KeyName(i) == KeyName(d)
  {
    KeyNameDigit(i);
    KeyNameDigit(j);
    FirstDigit(i);
    FirstDigit(j);
    if i < 10 && j < 10 && i != j {
      assert KeyName(i)[10] == DigitChar(i) && KeyName(j)[10] == DigitChar(j);
      assert DigitValue(KeyName(i)[10]) == i && DigitValue(KeyName(j)[10]) == j;
    }
    if i >= 10 {
      var d := DigitValue(Dec(i)[0]);
      assert d != 0 && DigitChar(d) == Dec(i)[0];
      KeyNameDigit(d);
      FirstDigit(d);
    }
  }

  // ---------- writing ----------

  function Chunks(text: string): nat {
    |text| / CHUNK
  }

  function ChunkOf(text: string, i: nat): string
    requires i <= Chunks(text)
  {
    if i == Chunks(text) then text[i * CHUNK..] else text[i * CHUNK..(i + 1) * CHUNK]
  }

  /** The blobs written from number `i` on; the last one is short, possibly empty. */
  function WriteFrom(f: Flash, text: string, i: nat): Flash
    requires i <= Chunks(text)
    decreases Chunks(text) - i
  {
    var f' := f[KeyName(i) := ChunkOf(text, i)];
    if i == Chunks(text) then f' else WriteFrom(f', text, i + 1)
  }

  // ---------- reading ----------

  predicate Full(f: Flash, i: nat) {
    KeyName(i) in f && |f[KeyName(i)]| == CHUNK
  }

  /** Some blob from `i` on is missing or not full, so that reading comes to an end. */
  ghost predicate Stops(f: Flash, i: nat) {
    exists j: nat :: i <= j < 10 && !Full(f, j)
  }

  /**
   Exactly when reading ends: the loop runs on as long as blobs are full, and with ten full ones it never
   meets another, because every later key is that of one of them. No save leaves the flash like that
   (`ChunkStoreExact`).
   */
  lemma ReadingEnds(f: Flash)
    ensures Stops(f, 0) <==> exists n: nat :: !Full(f, n)
  {
    if n: nat :| !Full(f, n) {
      KeyNames(n, n);
      if n >= 10 {
        var d: nat :| 1 <= d < 10 && KeyName(n) == KeyName(d);
        assert !Full(f, d);
      }
    }
  }

  /** The text collected from blob `i` on; None when a blob does not fit the read buffer. */
  function ReadFrom(f: Flash, i: nat): Option<string>
    requires i < 10 && Stops(f, i)
    decreases 10 - i
  {
    if KeyName(i) !in f then Some("")
    else
      var blob := f[KeyName(i)];
      if |blob| > BUFFER then None
      else if |blob| != CHUNK then Some(blob)
      else
        var rest := ReadFrom(f, i + 1);
        if rest.None? then None else Some(blob + rest.value)
  }

  // ---------- the chunk store is faithful exactly below the limit ----------

  lemma {:induction false} WriteKeepsOthers(f: Flash, text: string, i: nat, j: nat)
    requires Chunks(text) < 10 && j < i <= Chunks(text)
    ensures KeyName(j) in WriteFrom(f, text, i) <==> KeyName(j) in f
    ensures KeyName(j) in f ==> WriteFrom(f, text, i)[KeyName(j)] == f[KeyName(j)]
    decreases Chunks(text) - i
  {
    KeyNames(i, j);
    if i < Chunks(text) {
      WriteKeepsOthers(f[KeyName(i) := ChunkOf(text, i)], text, i + 1, j);
    }
  }

  lemma {:induction false} WrittenChunk(f: Flash, text: string, i: nat, j: nat)
    requires Chunks(text) < 10 && i <= j <= Chunks(text)
    ensures KeyName(j) in WriteFrom(f, text, i) && WriteFrom(f, text, i)[KeyName(j)] == ChunkOf(text, j)
    decreases Chunks(text) - i
  {
    var f' := f[KeyName(i) := ChunkOf(text, i)];
    if i < Chunks(text) {
      if j == i {
        WriteKeepsOthers(f', text, i + 1, i);
      } else {
        WrittenChunk(f', text, i + 1, j);
      }
    }
  }

  lemma {:induction false} ReadsBack(f: Flash, text: string, i: nat)
    requires Chunks(text) < 10 && i <= Chunks(text)
    ensures Stops(WriteFrom(f, text, 0), i)
    ensures ReadFrom(WriteFrom(f, text, 0), i) == Some(text[i * CHUNK..])
    decreases Chunks(text) - i
  {
    var g := WriteFrom(f, text, 0);
    WrittenChunk(f, text, 0, i);
    WrittenChunk(f, text, 0, Chunks(text));
    assert !Full(g, Chunks(text));
    if i < Chunks(text) {
      ReadsBack(f, text, i + 1);
      assert ChunkOf(text, i) + text[(i + 1) * CHUNK..] == text[i * CHUNK..];
    }
  }

  lemma {:induction false} LastWrite(f: Flash, text: string, i: nat)
    requires i <= Chunks(text)
    ensures var g := WriteFrom(f, text, i);
            KeyName(Chunks(text)) in g && g[KeyName(Chunks(text))] == text[Chunks(text) * CHUNK..]
    decreases Chunks(text) - i
  {
    if i < Chunks(text) {
      LastWrite(f[KeyName(i) := ChunkOf(text, i)], text, i + 1);
    }
  }

  lemma {:induction false} ShortBlobEndsReading(f: Flash, i: nat, d: nat)
    requires i <= d < 10 && KeyName(d) in f && |f[KeyName(d)]| < CHUNK
    ensures Stops(f, i)
    ensures ReadFrom(f, i).Some? ==> |ReadFrom(f, i).value| < BUFFER + 1 || |ReadFrom(f, i).value| < (d - i + 1) * CHUNK
    decreases d - i
  {
    assert !Full(f, d);
    if i < d {
      if Full(f, i) {
        ShortBlobEndsReading(f, i + 1, d);
      }
    }
  }

  /**
   Whatever was in flash before, saving and loading gives the text back if and only if it is shorter
   than 15360 bytes: with more chunks, the key of the last one collides with an earlier key.
   */
  lemma ChunkStoreExact(f: Flash, text: string)
    ensures Stops(WriteFrom(f, text, 0), 0)
    ensures ReadFrom(WriteFrom(f, text, 0), 0) == Some(text) <==> |text| < ONE_DIGIT_LIMIT
  {
    var n, g := Chunks(text), WriteFrom(f, text, 0);
    if |text| < ONE_DIGIT_LIMIT {
      ReadsBack(f, text, 0);
      assert text[0 * CHUNK..] == text;
    } else {
      LastWrite(f, text, 0);
      KeyNames(n, n);
      var d: nat :| 1 <= d < 10 && KeyName(n) == KeyName(d);
      ShortBlobEndsReading(g, 0, d);
    }
  }

  /** Saving and parsing into an empty configuration, over any earlier content of the flash. */
  lemma SaveThenParse(f: Flash, c: Config, junk: string)
    requires ConfigOk(c) && |Text(c)| < ONE_DIGIT_LIMIT
    ensures Behind(Lines(c), junk)
    ensures var g := WriteFrom(f, Written(c, junk), 0);
            Stops(g, 0) && ReadFrom(g, 0).Some? && Parse([], ReadFrom(g, 0).value) == Inhabited(c)
  {
    FitIsWhole(Lines(c), junk);
    ChunkStoreExact(f, Text(c));
    TextRoundTrip(c);
  }

  /** The same without empty sections, for lines of any length: it gives the configuration back iff they fit. */
  lemma SaveThenParseExact(f: Flash, c: Config, junk: string)
    requires ConfigPlain(c) && EachInhabited(c) && Behind(Lines(c), junk) && |Text(c)| < ONE_DIGIT_LIMIT
    ensures var g := WriteFrom(f, Written(c, junk), 0);
            Stops(g, 0) && ReadFrom(g, 0).Some? && (Parse([], ReadFrom(g, 0).value) == c <==> LinesFit(Lines(c)))
  {
    CutLength(Lines(c), junk);
    ChunkStoreExact(f, Written(c, junk));
    WrittenRoundTrip(c, junk);
  }
}
