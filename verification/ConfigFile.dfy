/** osi/config.c as it runs: search loops, buffer-filling loops, chunk loops and the line scanner. */
module ConfigFile {
  import opened Bytes
  import opened ConfigText
  import opened ConfigStore

  lemma LeftStep(s: string, lo: nat)
    requires lo < |s|
    ensures TrimLeft(s[lo..]) == if IsSpace(s[lo]) then TrimLeft(s[lo + 1..]) else s[lo..]
  {
    assert s[lo..][0] == s[lo] && s[lo..][1..] == s[lo + 1..];
  }

  lemma RightStep(s: string, lo: nat, hi: nat)
    requires lo <= hi < |s|
    ensures TrimRight(s[lo..hi + 1]) == if IsSpace(s[hi]) then TrimRight(s[lo..hi]) else s[lo..hi + 1]
  {
    var t := s[lo..hi + 1];
    assert t[|t| - 1] == s[hi] && t[..|t| - 1] == s[lo..hi];
  }

  method TrimInPlace(s: string) returns (r: string)
    ensures r == Trim(s)
  {
    var lo := 0;
    assert s[0..] == s;
    while lo < |s| && IsSpace(s[lo])
      invariant lo <= |s| && TrimLeft(s[lo..]) == TrimLeft(s)
    {
      LeftStep(s, lo);
      lo := lo + 1;
    }
    if lo == |s| {
      return "";
    }
    LeftStep(s, lo);
    r := TrimEnd(s, lo);
  }

  method TrimEnd(s: string, lo: nat) returns (r: string)
    requires lo < |s| && !IsSpace(s[lo])
    ensures r == TrimRight(s[lo..])
  {
    var hi := |s| - 1;
    assert s[lo..] == s[lo..hi + 1];
    while hi > lo && IsSpace(s[hi])
      invariant lo <= hi < |s| && TrimRight(s[lo..hi + 1]) == TrimRight(s[lo..])
    {
      RightStep(s, lo, hi);
      hi := hi - 1;
    }
    RightStep(s, lo, hi);
    r := s[lo..hi + 1];
  }

  /** The text of one section and the separator after it. */
  function Piece(s: Section, isLast: bool): string {
    SectionLine(s) + "\n" + Render(EntryLines(s.entries)) + (if isLast then "" else "\n")
  }

  lemma TextStep(c: Config)
    requires c != []
    ensures Text(c) == Piece(c[0], |c| == 1) + Text(c[1..])
  {
    var s, sep, more := c[0], if |c| == 1 then [] else [""], Lines(c[1..]);
    RenderPlus(SectionLines(s) + sep, more);
    RenderPlus(SectionLines(s), sep);
    assert SectionLines(s)[1..] == EntryLines(s.entries);
    if |c| > 1 {
      assert [""][1..] == [];
      assert Render([""]) == "" + "\n" + Render([]);
    }
  }

  /** What is written for one section and the separator after it. */
  function PieceCut(s: Section, isLast: bool, junk: string): string
    requires Behind(SectionLines(s), junk)
  {
    BehindPlus([SectionLine(s)], EntryLines(s.entries), junk);
    assert [SectionLine(s)][0] == SectionLine(s);
    Copied(SectionLine(s), junk) + RenderCut(EntryLines(s.entries), junk) + (if isLast then "" else "\n")
  }

  lemma PieceIs(s: Section, junk: string)
    requires Behind(SectionLines(s), junk)
    ensures RenderCut(SectionLines(s), junk) == PieceCut(s, true, junk)
    ensures PieceCut(s, false, junk) == PieceCut(s, true, junk) + "\n"
  {
    BehindPlus([SectionLine(s)], EntryLines(s.entries), junk);
    assert SectionLines(s)[0] == SectionLine(s) && SectionLines(s)[1..] == EntryLines(s.entries);
  }

  lemma BlankIs(junk: string)
    ensures RenderCut([""], junk) == "\n"
  {
    assert [""][1..] == [];
    assert Copied("", junk) == "\n" && RenderCut([], junk) == "";
  }

  lemma WrittenStep(c: Config, junk: string)
    requires c != [] && Behind(Lines(c), junk)
    ensures Behind(SectionLines(c[0]), junk) && Behind(Lines(c[1..]), junk)
    ensures Written(c, junk) == PieceCut(c[0], |c| == 1, junk) + Written(c[1..], junk)
  {
    var lines, sep, more := SectionLines(c[0]), if |c| == 1 then [] else [""], Lines(c[1..]);
    assert Lines(c) == (lines + sep) + more;
    RenderCutPlus(lines + sep, more, junk);
    RenderCutPlus(lines, sep, junk);
    PieceIs(c[0], junk);
    BlankIs(junk);
    assert RenderCut([], junk) == "";
  }

  class Store {
    var sections: Config
    var flash: Flash

    constructor (flash: Flash)
      ensures sections == [] && this.flash == flash
    {
      sections, this.flash := [], flash;
    }

    method SectionIndex(name: string) returns (i: nat)
      ensures i == FindSection(sections, name)
    {
      i := 0;
      while i < |sections| && sections[i].name != name
        invariant i <= |sections| && forall j :: 0 <= j < i ==> sections[j].name != name
      {
        i := i + 1;
      }
    }

    /** A string set under a section and key; sections and keys are created where they are missing. */
    method SetString(name: string, key: string, value: string, back: bool)
      modifies this`sections
      ensures sections == ConfigText.SetString(old(sections), name, key, value, back)
    {
      var i := SectionIndex(name);
      if i == |sections| {
        var created := Section(name, []);
        if back {
          sections := sections + [created];
        } else {
          sections := [created] + sections;
          i := 0;
        }
      }
      var es := sections[i].entries;
      var j := 0;
      while j < |es|
        invariant j <= |es| && forall k :: 0 <= k < j ==> es[k].key != key
      {
        if es[j].key == key {
          FindKeyAt(es, key, j);
          sections := sections[i := Section(sections[i].name, es[j := Entry(key, value)])];
          return;
        }
        j := j + 1;
      }
      FindKeyAt(es, key, |es|);
      sections := sections[i := Section(sections[i].name, es + [Entry(key, value)])];
      if FindSection(old(sections), name) == |old(sections)| {
        assert es == [] && es + [Entry(key, value)] == [Entry(key, value)];
        var one := [Section(name, [Entry(key, value)])];
        assert sections == if back then old(sections) + one else one + old(sections);
      }
    }

    /** get_config_size: the bytes config_save will write, plus the terminator. */
    method GetConfigSize() returns (total: nat)
      ensures total == |Text(sections)| + 1
    {
      total := 0;
      var i := 0;
      while i < |sections|
        invariant i <= |sections| && total + |Text(sections[i..])| == |Text(sections)|
      {
        var s := sections[i];
        TextStep(sections[i..]);
        assert sections[i..][1..] == sections[i + 1..];
        total := total + |s.name| + 3;
        ghost var before := total;
        var j := 0;
        while j < |s.entries|
          invariant j <= |s.entries|
          invariant total + |Render(EntryLines(s.entries[j..]))| == before + |Render(EntryLines(s.entries))|
        {
          assert EntryLines(s.entries[j..])[1..] == EntryLines(s.entries[j + 1..]);
          total := total + |s.entries[j].key| + |s.entries[j].value| + 4;
          j := j + 1;
        }
        if i + 1 != |sections| {
          total := total + 1;
        }
        i := i + 1;
      }
      total := total + 1;
    }

    /** `junk` is the memory behind the line buffer. */
    method FillBuffer(junk: string) returns (buf: string)
      requires Behind(Lines(sections), junk)
      ensures buf == Written(sections, junk)
    {
      buf := "";
      var i := 0;
      assert sections[0..] == sections;
      while i < |sections|
        invariant i <= |sections| && Behind(Lines(sections[i..]), junk)
        invariant buf + Written(sections[i..], junk) == Written(sections, junk)
      {
        WrittenStep(sections[i..], junk);
        assert sections[i..][1..] == sections[i + 1..];
        var piece := FillSection(sections[i], i + 1 == |sections|, junk);
        PlusAssoc(buf, piece, Written(sections[i + 1..], junk));
        buf := buf + piece;
        i := i + 1;
      }
    }

    /** snprintf into the line buffer, then memcpy of the count it returned. */
    method PrintLine(line: string, junk: string) returns (copied: string)
      requires |line| < LINE_BUFFER + |junk|
      ensures copied == Copied(line, junk)
    {
      var full := line + "\n";
      var buffer := full;
      if |full| >= LINE_BUFFER {
        buffer := full[..LINE_BUFFER - 1] + "\0";
      }
      copied := (buffer + junk)[..|full|];
    }

    method FillSection(s: Section, isLast: bool, junk: string) returns (piece: string)
      requires Behind(SectionLines(s), junk)
      ensures piece == PieceCut(s, isLast, junk)
    {
      BehindPlus([SectionLine(s)], EntryLines(s.entries), junk);
      assert [SectionLine(s)][0] == SectionLine(s);
      var head := PrintLine("[" + s.name + "]", junk);
      var lines := FillEntries(s.entries, junk);
      piece := head + lines;
      if !isLast {
        piece := piece + "\n";
      }
    }

    method FillEntries(es: seq<Entry>, junk: string) returns (buf: string)
      requires Behind(EntryLines(es), junk)
      ensures buf == RenderCut(EntryLines(es), junk)
    {
      buf := "";
      var j := 0;
      assert es[0..] == es;
      while j < |es|
        invariant j <= |es| && Behind(EntryLines(es[j..]), junk)
        invariant buf + RenderCut(EntryLines(es[j..]), junk) == RenderCut(EntryLines(es), junk)
      {
        assert EntryLines(es[j..])[0] == EntryLine(es[j]) && EntryLines(es[j..])[1..] == EntryLines(es[j + 1..]);
        BehindPlus([EntryLine(es[j])], EntryLines(es[j + 1..]), junk);
        assert EntryLines(es[j..]) == [EntryLine(es[j])] + EntryLines(es[j + 1..]);
        var line := PrintLine(es[j].key + " = " + es[j].value, junk);
        PlusAssoc(buf, line, RenderCut(EntryLines(es[j + 1..]), junk));
        buf := buf + line;
        j := j + 1;
      }
    }

    /** Save: what was written into the buffer, in chunks, over whatever the flash held. */
    method Save(junk: string)
      requires Behind(Lines(sections), junk)
      modifies this`flash
      ensures flash == WriteFrom(old(flash), Written(sections, junk), 0)
    {
      var buf := FillBuffer(junk);
      if |buf| < CHUNK {
        flash := flash[KeyName(0) := buf];
        assert buf[0..] == buf;
      } else {
        var count := |buf| / CHUNK;
        var i := 0;
        while i <= count
          invariant i <= count + 1
          invariant i <= count ==> WriteFrom(flash, buf, i) == WriteFrom(old(flash), buf, 0)
          invariant i == count + 1 ==> flash == WriteFrom(old(flash), buf, 0)
        {
          if i == count {
            flash := flash[KeyName(i) := buf[i * CHUNK..]];
          } else {
            flash := flash[KeyName(i) := buf[i * CHUNK..(i + 1) * CHUNK]];
          }
          i := i + 1;
        }
      }
    }

    method LoadText() returns (r: Option<string>)
      requires Stops(flash, 0)
      ensures r == ReadFrom(flash, 0)
    {
      if KeyName(0) !in flash {
        return Some("");
      }
      var blob := flash[KeyName(0)];
      if |blob| > BUFFER {
        return None;
      }
      var text, i := blob, 0;
      assert text[..|text| - |blob|] == "" && forall t: string :: "" + t == t;
      while |blob| == CHUNK
        invariant 0 <= i < 10 && Stops(flash, i)
        invariant KeyName(i) in flash && blob == flash[KeyName(i)] && |blob| <= BUFFER
        invariant |blob| <= |text|
        invariant ReadFrom(flash, 0) == Prepend(text[..|text| - |blob|], ReadFrom(flash, i))
        invariant text[|text| - |blob|..] == blob
        decreases 10 - i
      {
        ghost var head := text[..|text| - |blob|];
        assert Full(flash, i);
        assert text == head + blob;
        i := i + 1;
        if KeyName(i) !in flash {
          assert head + (blob + "") == text;
          return Some(text);
        }
        blob := flash[KeyName(i)];
        if |blob| > BUFFER {
          return None;
        }
        assert forall rest: string :: head + (flash[KeyName(i - 1)] + rest) == text + rest;
        text := text + blob;
        assert text[..|text| - |blob|] == head + flash[KeyName(i - 1)];
      }
      assert text == text[..|text| - |blob|] + blob;
      return Some(text);
    }

    /** Parse: read the flash and feed its lines to the configuration; an unreadable blob changes nothing. */
    method ParseFlash()
      requires Stops(flash, 0)
      modifies this`sections
      ensures sections == match ReadFrom(flash, 0)
                          case None => old(sections)
                          case Some(text) => Parse(old(sections), text)
    {
      var loaded := LoadText();
      if loaded.None? {
        return;
      }
      ReadLines(loaded.value);
    }

    /** The scanning loop over the text. */
    method ReadLines(text: string)
      modifies this`sections
      ensures sections == Parse(old(sections), text)
    {
      var rest, section, more := text, "Global", true;
      ghost var end := ReadText(Reader(sections, "Global"), text);
      while more
        invariant if more then ReadText(Reader(sections, section), rest) == end else sections == end.config
        decreases more, |rest|
      {
        more, section, rest := NextLine(rest, section);
      }
    }

    /** One round: reading ends at the last byte, at an unterminated line and at a line that is too long. */
    method NextLine(text: string, section: string) returns (more: bool, section': string, rest: string)
      modifies this`sections
      ensures more ==> |rest| < |text|
      ensures var end := ReadText(Reader(old(sections), section), text);
              if more then ReadText(Reader(sections, section'), rest) == end else sections == end.config
    {
      more, section', rest := false, section, text;
      if |text| > 1 {
        var k := FindNewline(text);
        if k < |text| && k <= MAX_LINE {
          section' := ScanLine(section, text[..k]);
          more, rest := true, text[k + 1..];
        }
      }
    }

    method ScanLine(section: string, line: string) returns (section': string)
      modifies this`sections
      ensures Reader(sections, section') == ReadLine(Reader(old(sections), section), line)
    {
      section' := section;
      var l := TrimInPlace(line);
      if l == "" || l[0] == '#' {
        return;
      }
      if l[0] == '[' {
        if l[|l| - 1] == ']' {
          section' := l[1..|l| - 1];
        }
      } else {
        var i := Find(l, '=');
        if i < |l| {
          var key := TrimInPlace(l[..i]);
          var value := TrimInPlace(l[i + 1..]);
          SetString(section, key, value, true);
        }
      }
    }
  }

  function Prepend(a: string, r: Option<string>): Option<string> {
    if r.None? then None else Some(a + r.value)
  }
}
