/**
 The text form of a configuration: sections of key/value entries, one line each, and the line-by-line
 reader. Reading back what was written gives the configuration again.
 */
module ConfigText {
  import opened Bytes

  datatype Entry = Entry(key: string, value: string)
  datatype Section = Section(name: string, entries: seq<Entry>)
  type Config = seq<Section>

  const MAX_LINE: nat := 1023

  // ---------- trimming ----------

  function TrimLeft(s: string): string {
    if s != "" && IsSpace(s[0]) then TrimLeft(s[1..]) else s
  }

  function TrimRight(s: string): string {
    if s != "" && IsSpace(s[|s| - 1]) then TrimRight(s[..|s| - 1]) else s
  }

  function Trim(s: string): string {
    TrimRight(TrimLeft(s))
  }

  predicate Trimmed(s: string) {
    s != "" ==> !IsSpace(s[0]) && !IsSpace(s[|s| - 1])
  }

  lemma TrimTrimmed(s: string)
    requires Trimmed(s)
    ensures Trim(s) == s
  {
  }

  lemma TrimLeading(s: string)
    requires Trimmed(s)
    ensures Trim(" " + s) == s
  {
    assert (" " + s)[0] == ' ' && (" " + s)[1..] == s;
    assert TrimLeft(" " + s) == TrimLeft(s) == s;
  }

  lemma TrimTrailing(s: string)
    requires Trimmed(s) && s != ""
    ensures Trim(s + " ") == s
  {
    assert (s + " ")[0] == s[0] && (s + " ")[|s|] == ' ' && (s + " ")[..|s|] == s;
    assert TrimRight(s + " ") == TrimRight(s) == s;
  }

  // ---------- looking things up ----------

  function Find(s: string, c: char): (i: nat)
    ensures i <= |s| && (i < |s| ==> s[i] == c) && forall j :: 0 <= j < i ==> s[j] != c
  {
    if s == "" then 0 else if s[0] == c then 0 else 1 + Find(s[1..], c)
  }

  /** strchr: the first newline, unless a terminator comes before it. */
  function FindNewline(s: string): (i: nat)
    ensures i <= |s| && (i < |s| ==> s[i] == '\n')
    ensures i < |s| ==> forall j :: 0 <= j < i ==> s[j] != '\n' && s[j] != '\0'
  {
    if s == "" then 0
    else if s[0] == '\n' then 0
    else if s[0] == '\0' then |s|
    else 1 + FindNewline(s[1..])
  }

  function FindSection(c: Config, name: string): (i: nat)
    ensures i <= |c| && (i < |c| ==> c[i].name == name) && forall j :: 0 <= j < i ==> c[j].name != name
  {
    if c == [] then 0 else if c[0].name == name then 0 else 1 + FindSection(c[1..], name)
  }

  function FindKey(es: seq<Entry>, key: string): (i: nat)
    ensures i <= |es| && (i < |es| ==> es[i].key == key) && forall j :: 0 <= j < i ==> es[j].key != key
  {
    if es == [] then 0 else if es[0].key == key then 0 else 1 + FindKey(es[1..], key)
  }

  function SetEntry(es: seq<Entry>, key: string, value: string): seq<Entry> {
    var i := FindKey(es, key);
    if i < |es| then es[i := Entry(key, value)] else es + [Entry(key, value)]
  }

  /** config_set_string: a new section goes to the back or to the front, a new key to the back. */
  function SetString(c: Config, name: string, key: string, value: string, back: bool): Config {
    var i := FindSection(c, name);
    if i < |c| then c[i := Section(c[i].name, SetEntry(c[i].entries, key, value))]
    else if back then c + [Section(name, [Entry(key, value)])]
    else [Section(name, [Entry(key, value)])] + c
  }

  /** entry_find and the value it yields. */
  function Lookup(c: Config, name: string, key: string): Option<string> {
    var i := FindSection(c, name);
    if i == |c| then None
    else
      var j := FindKey(c[i].entries, key);
      if j == |c[i].entries| then None else Some(c[i].entries[j].value)
  }

  lemma FindSectionAt(c: Config, name: string, i: nat)
    requires i <= |c| && (i < |c| ==> c[i].name == name) && forall j :: 0 <= j < i ==> c[j].name != name
    ensures FindSection(c, name) == i
  {
  }

  lemma FindKeyAt(es: seq<Entry>, key: string, i: nat)
    requires i <= |es| && (i < |es| ==> es[i].key == key) && forall j :: 0 <= j < i ==> es[j].key != key
    ensures FindKey(es, key) == i
  {
  }

  /** Setting a key is a map update: it reads back, and every other section and key is as before. */
  lemma SetThenLookup(c: Config, name: string, key: string, value: string, back: bool, name': string, key': string)
    ensures Lookup(SetString(c, name, key, value, back), name', key')
            == if name' == name && key' == key then Some(value) else Lookup(c, name', key')
  {
    var d, i := SetString(c, name, key, value, back), FindSection(c, name);
    var k := FindSection(c, name');
    if i < |c| {
      FindSectionAt(d, name', k);
      if name' == name {
        var es := c[i].entries;
        var j, j' := FindKey(es, key), FindKey(es, key');
        var at := if key' == key then j else if j' == |es| && j == |es| then |es| + 1 else j';
        FindKeyAt(SetEntry(es, key, value), key', at);
      }
    } else if back {
      FindSectionAt(d, name', if name' == name then |c| else if k == |c| then |c| + 1 else k);
      OneEntry(key, value, key');
    } else {
      FindSectionAt(d, name', if name' == name then 0 else k + 1);
      OneEntry(key, value, key');
    }
  }

  lemma OneEntry(key: string, value: string, key': string)
    ensures FindKey([Entry(key, value)], key') == if key' == key then 0 else 1
  {
    FindKeyAt([Entry(key, value)], key', if key' == key then 0 else 1);
  }

  // ---------- writing ----------

  function SectionLine(s: Section): string {
    "[" + s.name + "]"
  }

  function EntryLine(e: Entry): string {
    e.key + " = " + e.value
  }

  function EntryLines(es: seq<Entry>): seq<string> {
    if es == [] then [] else [EntryLine(es[0])] + EntryLines(es[1..])
  }

  function SectionLines(s: Section): seq<string> {
    [SectionLine(s)] + EntryLines(s.entries)
  }

  /** The lines of a file: sections in order, a blank line between two of them. */
  function Lines(c: Config): seq<string> {
    if c == [] then []
    else SectionLines(c[0]) + (if |c| == 1 then [] else [""]) + Lines(c[1..])
  }

  function Render(lines: seq<string>): string {
    if lines == [] then "" else lines[0] + "\n" + Render(lines[1..])
  }

  lemma {:induction false} RenderPlus(a: seq<string>, b: seq<string>)
    ensures Render(a + b) == Render(a) + Render(b)
  {
    if a == [] {
      assert a + b == b;
    } else {
      assert (a + b)[1..] == a[1..] + b;
      RenderPlus(a[1..], b);
      assert a[0] + "\n" + (Render(a[1..]) + Render(b)) == (a[0] + "\n" + Render(a[1..])) + Render(b);
    }
  }

  /** The text of a configuration. */
  function Text(c: Config): string {
    Render(Lines(c))
  }

  const LINE_BUFFER: nat := 1024

  /** Memory behind the line buffer, as far as a long line makes the copy reach. */
  predicate Behind(lines: seq<string>, junk: string) {
    forall i :: 0 <= i < |lines| ==> |lines[i]| < LINE_BUFFER + |junk|
  }

  /**
   A line printed into the line buffer and copied from there: the buffer keeps what fits before its
   terminator, but the copy takes as many bytes as the line would have had.
   */
  function Copied(line: string, junk: string): (r: string)
    requires |line| < LINE_BUFFER + |junk|
    ensures |r| == |line| + 1
  {
    var full := line + "\n";
    if |full| < LINE_BUFFER then full else full[..LINE_BUFFER - 1] + "\0" + junk[..|full| - LINE_BUFFER]
  }

  function RenderCut(lines: seq<string>, junk: string): string
    requires Behind(lines, junk)
  {
    if lines == [] then "" else Copied(lines[0], junk) + RenderCut(lines[1..], junk)
  }

  /** What config_save puts in its buffer. */
  function Written(c: Config, junk: string): string
    requires Behind(Lines(c), junk)
  {
    RenderCut(Lines(c), junk)
  }

  // ---------- reading ----------

  /** The reader's state: what it has built and the section it is in. */
  datatype Reader = Reader(config: Config, section: string)

  function ReadLine(r: Reader, line: string): Reader {
    var l := Trim(line);
    if l == "" || l[0] == '#' then r
    else if l[0] == '[' then
      if l[|l| - 1] != ']' then r else r.(section := l[1..|l| - 1])
    else
      var i := Find(l, '=');
      if i == |l| then r
      else r.(config := SetString(r.config, r.section, Trim(l[..i]), Trim(l[i + 1..]), true))
  }

  /** The scanning loop: it stops at the last byte, at an unterminated line and at a line that is too long. */
  function ReadText(r: Reader, text: string): Reader
    decreases |text|
  {
    if |text| <= 1 then r
    else
      var k := FindNewline(text);
      if k == |text| || k > MAX_LINE then r
      else ReadText(ReadLine(r, text[..k]), text[k + 1..])
  }

  function Parse(c: Config, text: string): Config {
    ReadText(Reader(c, "Global"), text).config
  }

  // ---------- lines survive the text form ----------

  function Feed(r: Reader, lines: seq<string>): Reader
    decreases |lines|
  {
    if lines == [] then r else Feed(ReadLine(r, lines[0]), lines[1..])
  }

  lemma {:induction false} NewlineAfter(l: string, rest: string)
    requires Plain(l)
    ensures FindNewline(l + "\n" + rest) == |l|
    decreases |l|
  {
    if l != "" {
      assert (l + "\n" + rest)[1..] == l[1..] + "\n" + rest;
      NewlineAfter(l[1..], rest);
    }
  }

  lemma {:induction false} RenderLong(lines: seq<string>)
    requires lines != [] && lines[|lines| - 1] != ""
    ensures |Render(lines)| >= 2
    decreases |lines|
  {
    if |lines| > 1 {
      RenderLong(lines[1..]);
    }
  }

  lemma {:induction false} ReadRendered(r: Reader, lines: seq<string>)
    requires Presentable(lines) && LinesFit(lines)
    ensures ReadText(r, Render(lines)) == Feed(r, lines)
    decreases |lines|
  {
    if lines == [] {
    } else {
      var l, rest := lines[0], Render(lines[1..]);
      var text := Render(lines);
      RenderLong(lines);
      NewlineAfter(l, rest);
      assert Plain(l);
      assert text == l + "\n" + rest;
      assert text[..|l|] == l && text[|l| + 1..] == rest;
      ReadRendered(ReadLine(r, l), lines[1..]);
    }
  }

  // ---------- lines carry the configuration ----------

  predicate Plain(s: string) {
    forall i :: 0 <= i < |s| ==> s[i] != '\n' && s[i] != '\0'
  }

  predicate EntryPlain(e: Entry) {
    && Plain(e.key) && Plain(e.value) && Trimmed(e.key) && Trimmed(e.value)
    && (forall i :: 0 <= i < |e.key| ==> e.key[i] != '=')
    && (e.key != "" ==> e.key[0] != '[' && e.key[0] != '#')
  }

  predicate EntriesPlain(es: seq<Entry>) {
    && (forall i :: 0 <= i < |es| ==> EntryPlain(es[i]))
    && (forall i, j :: 0 <= i < j < |es| ==> es[i].key != es[j].key)
  }

  predicate SectionPlain(s: Section) {
    Plain(s.name) && EntriesPlain(s.entries)
  }

  /** Sections that may be empty, with distinct names, distinct keys and printable text. */
  predicate ConfigPlain(c: Config) {
    && (forall i :: 0 <= i < |c| ==> SectionPlain(c[i]))
    && (forall i, j :: 0 <= i < j < |c| ==> c[i].name != c[j].name)
  }

  /** Every line fits the buffer it is printed into, with its newline and the terminator. */
  predicate LinesFit(lines: seq<string>) {
    forall i :: 0 <= i < |lines| ==> |lines[i]| + 2 <= LINE_BUFFER
  }

  predicate ConfigOk(c: Config) {
    ConfigPlain(c) && LinesFit(Lines(c))
  }

  lemma SectionLineReads(r: Reader, s: Section)
    ensures ReadLine(r, SectionLine(s)) == r.(section := s.name)
  {
    var l := SectionLine(s);
    TrimTrimmed(l);
    assert l[1..|l| - 1] == s.name;
  }

  /** A line that begins with a blank and then with a character that is none, trimmed on the left. */
  lemma TrimEmptyKey(value: string)
    requires Trimmed(value)
    ensures Trim("" + " = " + value) == "=" + if value == "" then "" else " " + value
  {
    var l, t := "" + " = " + value, "= " + value;
    assert l[0] == ' ' && l[1..] == t && TrimLeft(t) == t;
    if value == "" {
      assert t[1] == ' ' && t[..1] == "=";
      assert TrimRight("=") == "=";
    } else {
      assert t[|t| - 1] == value[|value| - 1];
      assert t == "=" + (" " + value);
    }
  }

  lemma TrimFullKey(key: string, value: string)
    requires Trimmed(key) && Trimmed(value) && key != ""
    ensures Trim(key + " = " + value) == key + " " + "=" + if value == "" then "" else " " + value
  {
    var l := key + " = " + value;
    assert l[0] == key[0] && TrimLeft(l) == l;
    if value == "" {
      var t := key + " " + "=";
      assert l[|l| - 1] == ' ' && l[..|l| - 1] == t;
      assert t[|t| - 1] == '=' && TrimRight(t) == t;
    } else {
      assert l[|l| - 1] == value[|value| - 1];
      assert l == key + " " + "=" + (" " + value);
    }
  }

  lemma TrimEntryLine(e: Entry)
    requires EntryPlain(e)
    ensures Trim(EntryLine(e))
            == (if e.key == "" then "" else e.key + " ") + "=" + (if e.value == "" then "" else " " + e.value)
  {
    if e.key == "" {
      TrimEmptyKey(e.value);
      assert "" + "=" == "=";
    } else {
      TrimFullKey(e.key, e.value);
    }
  }

  lemma {:induction false} FindAfter(a: string, rest: string)
    requires forall i :: 0 <= i < |a| ==> a[i] != '='
    ensures Find(a + "=" + rest, '=') == |a|
    decreases |a|
  {
    if a != "" {
      assert (a + "=" + rest)[1..] == a[1..] + "=" + rest;
      FindAfter(a[1..], rest);
    }
  }

  /** The line in two halves around its separator, which trim to key and value. */
  lemma EntryHalves(e: Entry)
    requires EntryPlain(e)
    ensures var a, b := if e.key == "" then "" else e.key + " ", if e.value == "" then "" else " " + e.value;
            Trim(EntryLine(e)) == a + "=" + b && Find(a + "=" + b, '=') == |a| && Trim(a) == e.key && Trim(b) == e.value
  {
    TrimEntryLine(e);
    FindAfter(if e.key == "" then "" else e.key + " ", if e.value == "" then "" else " " + e.value);
    if e.key != "" {
      TrimTrailing(e.key);
    }
    if e.value != "" {
      TrimLeading(e.value);
    }
  }

  lemma EntryLineReads(r: Reader, e: Entry)
    requires EntryPlain(e)
    ensures ReadLine(r, EntryLine(e)) == r.(config := SetString(r.config, r.section, e.key, e.value, true))
  {
    var a := if e.key == "" then "" else e.key + " ";
    var b := if e.value == "" then "" else " " + e.value;
    EntryHalves(e);
    var l := a + "=" + b;
    assert l[..|a|] == a && l[|a| + 1..] == b;
  }

  function Opened(done: Config, name: string, es: seq<Entry>): Config {
    if es == [] then done else done + [Section(name, es)]
  }

  lemma SetInOpened(done: Config, name: string, es: seq<Entry>, e: Entry)
    requires forall i :: 0 <= i < |done| ==> done[i].name != name
    requires forall i :: 0 <= i < |es| ==> es[i].key != e.key
    ensures SetString(Opened(done, name, es), name, e.key, e.value, true) == Opened(done, name, es + [e])
  {
    FindSectionAt(Opened(done, name, es), name, |done|);
    if es != [] {
      FindKeyAt(es, e.key, |es|);
      assert Opened(done, name, es)[|done| := Section(name, es + [e])] == done + [Section(name, es + [e])];
    } else {
      assert es + [e] == [e];
    }
  }

  lemma FeedFirst(r: Reader, line: string, rest: seq<string>, r': Reader)
    requires ReadLine(r, line) == r'
    ensures Feed(r, [line] + rest) == Feed(r', rest)
  {
    assert ([line] + rest)[1..] == rest;
  }

  /** Reader states that the lines lead through one by one. */
  ghost predicate Path(states: seq<Reader>, lines: seq<string>) {
    |states| == |lines| + 1 && forall n :: 0 <= n < |lines| ==> ReadLine(states[n], lines[n]) == states[n + 1]
  }

  lemma {:induction false} FeedPath(states: seq<Reader>, lines: seq<string>, rest: seq<string>)
    requires Path(states, lines)
    ensures Feed(states[0], lines + rest) == Feed(states[|lines|], rest)
    decreases |lines|
  {
    if lines == [] {
      assert lines + rest == rest;
    } else {
      FeedFirst(states[0], lines[0], lines[1..] + rest, states[1]);
      assert lines + rest == [lines[0]] + (lines[1..] + rest);
      FeedPath(states[1..], lines[1..], rest);
    }
  }

  lemma {:induction false} EntryLinesAt(es: seq<Entry>)
    ensures |EntryLines(es)| == |es| && forall n :: 0 <= n < |es| ==> EntryLines(es)[n] == EntryLine(es[n])
  {
    if es != [] {
      EntryLinesAt(es[1..]);
    }
  }

  lemma EntryStep(done: Config, name: string, es: seq<Entry>, n: nat)
    requires forall i :: 0 <= i < |done| ==> done[i].name != name
    requires EntriesPlain(es) && n < |es|
    ensures ReadLine(Reader(Opened(done, name, es[..n]), name), EntryLine(es[n]))
            == Reader(Opened(done, name, es[..n + 1]), name)
  {
    EntryLineReads(Reader(Opened(done, name, es[..n]), name), es[n]);
    SetInOpened(done, name, es[..n], es[n]);
    assert es[..n] + [es[n]] == es[..n + 1];
  }

  lemma SectionReads(done: Config, section: string, s: Section, rest: seq<string>)
    requires SectionPlain(s) && forall i :: 0 <= i < |done| ==> done[i].name != s.name
    ensures Feed(Reader(done, section), SectionLines(s) + rest)
            == Feed(Reader(Opened(done, s.name, s.entries), s.name), rest)
  {
    var es, lines := s.entries, EntryLines(s.entries);
    SectionLineReads(Reader(done, section), s);
    FeedFirst(Reader(done, section), SectionLine(s), lines + rest, Reader(done, s.name));
    assert SectionLines(s) + rest == [SectionLine(s)] + (lines + rest);
    var states := seq(|es| + 1, n requires 0 <= n <= |es| => Reader(Opened(done, s.name, es[..n]), s.name));
    EntryLinesAt(es);
    forall n | 0 <= n < |lines| ensures ReadLine(states[n], lines[n]) == states[n + 1] {
      EntryStep(done, s.name, es, n);
    }
    FeedPath(states, lines, rest);
    assert es[..|es|] == es;
  }

  lemma BlankReads(r: Reader, rest: seq<string>)
    ensures Feed(r, [""] + rest) == Feed(r, rest)
  {
    FeedFirst(r, "", rest, r);
  }

  /** The sections that have at least one entry. */
  function Inhabited(c: Config): Config {
    if c == [] then [] else (if c[0].entries == [] then [] else [c[0]]) + Inhabited(c[1..])
  }

  lemma LinesStep(done: Config, section: string, c: Config)
    requires c != [] && SectionPlain(c[0]) && forall i :: 0 <= i < |done| ==> done[i].name != c[0].name
    ensures Feed(Reader(done, section), Lines(c))
            == Feed(Reader(Opened(done, c[0].name, c[0].entries), c[0].name), Lines(c[1..]))
  {
    var s, more := c[0], Lines(c[1..]);
    if |c| == 1 {
      assert Lines(c) == SectionLines(s) + more;
      SectionReads(done, section, s, more);
    } else {
      assert Lines(c) == SectionLines(s) + ([""] + more);
      SectionReads(done, section, s, [""] + more);
      BlankReads(Reader(Opened(done, s.name, s.entries), s.name), more);
    }
  }

  predicate NamesApart(done: Config, c: Config) {
    forall i, j :: 0 <= i < |done| && 0 <= j < |c| ==> done[i].name != c[j].name
  }

  lemma NamesStep(done: Config, c: Config)
    requires c != [] && ConfigPlain(c) && NamesApart(done, c)
    ensures ConfigPlain(c[1..]) && NamesApart(Opened(done, c[0].name, c[0].entries), c[1..])
    ensures SectionPlain(c[0]) && forall i :: 0 <= i < |done| ==> done[i].name != c[0].name
  {
  }

  lemma InhabitedStep(done: Config, c: Config)
    requires c != []
    ensures Opened(done, c[0].name, c[0].entries) + Inhabited(c[1..]) == done + Inhabited(c)
  {
    if c[0].entries != [] {
      assert (done + [c[0]]) + Inhabited(c[1..]) == done + ([c[0]] + Inhabited(c[1..]));
    }
  }

  lemma {:induction false} LinesRead(done: Config, section: string, c: Config)
    requires ConfigPlain(c) && NamesApart(done, c)
    ensures Feed(Reader(done, section), Lines(c)).config == done + Inhabited(c)
    decreases |c|
  {
    if c == [] {
      assert done + [] == done;
    } else {
      NamesStep(done, c);
      LinesStep(done, section, c);
      InhabitedStep(done, c);
      LinesRead(Opened(done, c[0].name, c[0].entries), c[0].name, c[1..]);
    }
  }

  lemma {:induction false} EntryLinesPlain(es: seq<Entry>)
    requires forall i :: 0 <= i < |es| ==> EntryPlain(es[i])
    ensures forall i :: 0 <= i < |EntryLines(es)| ==> Plain(EntryLines(es)[i]) && EntryLines(es)[i] != ""
  {
    if es != [] {
      assert EntryPlain(es[0]);
      EntryLinesPlain(es[1..]);
    }
  }

  /** Lines without control characters, the last one not blank. */
  ghost predicate Presentable(lines: seq<string>) {
    && (forall i :: 0 <= i < |lines| ==> Plain(lines[i]))
    && (lines != [] ==> lines[|lines| - 1] != "")
  }

  lemma PresentablePlus(a: seq<string>, b: seq<string>)
    requires Presentable(a) && Presentable(b)
    ensures Presentable(a + b)
    ensures b != [] ==> Presentable(a + [""] + b)
  {
  }

  lemma {:induction false} LinesPresentable(c: Config)
    requires forall i :: 0 <= i < |c| ==> SectionPlain(c[i])
    ensures Presentable(Lines(c))
    ensures c != [] ==> Lines(c) != []
  {
    if c != [] {
      assert SectionPlain(c[0]);
      EntryLinesPlain(c[0].entries);
      LinesPresentable(c[1..]);
      PresentablePlus(SectionLines(c[0]), Lines(c[1..]));
    }
  }

  /**
   Writing a configuration and reading the text into an empty one gives back its sections and entries,
   in order, except that sections without entries are gone.
   */
  lemma TextRoundTrip(c: Config)
    requires ConfigOk(c)
    ensures Parse([], Text(c)) == Inhabited(c)
  {
    LinesPresentable(c);
    ReadRendered(Reader([], "Global"), Lines(c));
    LinesRead([], "Global", c);
    assert [] + Inhabited(c) == Inhabited(c);
  }

  lemma {:induction false} InhabitedIsAll(c: Config)
    ensures |Inhabited(c)| <= |c|
    ensures Inhabited(c) == c <==> EachInhabited(c)
  {
    if c != [] {
      InhabitedIsAll(c[1..]);
      if c[0].entries == [] {
        assert |Inhabited(c)| < |c|;
      } else {
        assert Inhabited(c)[1..] == Inhabited(c[1..]);
        assert Inhabited(c) == c <==> Inhabited(c[1..]) == c[1..];
      }
    }
  }

  /** Exactly: the text form is faithful if and only if every section has an entry. */
  lemma RoundTripIffInhabited(c: Config)
    requires ConfigOk(c)
    ensures Parse([], Text(c)) == c <==> EachInhabited(c)
  {
    TextRoundTrip(c);
    InhabitedIsAll(c);
  }

  predicate EachInhabited(c: Config) {
    forall i :: 0 <= i < |c| ==> c[i].entries != []
  }

  // ---------- lines that do not fit ----------

  /** All the entries of a configuration. */
  function EntryCount(c: Config): nat {
    if c == [] then 0 else |c[0].entries| + EntryCount(c[1..])
  }

  /** Lines that the reader may turn into an entry. */
  predicate Adds(line: string) {
    var l := Trim(line);
    l != "" && l[0] != '#' && l[0] != '['
  }

  function Adders(lines: seq<string>): nat {
    if lines == [] then 0 else Adders(lines[..|lines| - 1]) + if Adds(lines[|lines| - 1]) then 1 else 0
  }

  lemma {:induction false} AddersPlus(a: seq<string>, b: seq<string>)
    ensures Adders(a + b) == Adders(a) + Adders(b)
    decreases |b|
  {
    if b == [] {
      assert a + b == a;
    } else {
      assert (a + b)[..|a + b| - 1] == a + b[..|b| - 1];
      AddersPlus(a, b[..|b| - 1]);
    }
  }

  lemma {:induction false} EntryCountAt(c: Config, i: nat, s: Section)
    requires i < |c|
    ensures EntryCount(c[i := s]) == EntryCount(c) - |c[i].entries| + |s.entries|
  {
    if i > 0 {
      assert c[i := s][1..] == c[1..][i - 1 := s];
      EntryCountAt(c[1..], i - 1, s);
    } else {
      assert c[0 := s][1..] == c[1..];
    }
  }

  lemma {:induction false} EntryCountSnoc(c: Config, s: Section)
    ensures EntryCount(c + [s]) == EntryCount(c) + |s.entries|
  {
    if c == [] {
      assert (c + [s])[1..] == [];
    } else {
      assert (c + [s])[1..] == c[1..] + [s];
      EntryCountSnoc(c[1..], s);
    }
  }

  /** Reading a line adds at most one entry, and none unless the line is of that kind. */
  lemma ReadLineAdds(r: Reader, line: string)
    ensures EntryCount(ReadLine(r, line).config) <= EntryCount(r.config) + if Adds(line) then 1 else 0
  {
    var l := Trim(line);
    if Adds(line) && Find(l, '=') < |l| {
      var i := Find(l, '=');
      SetAddsOne(r.config, r.section, Trim(l[..i]), Trim(l[i + 1..]));
    }
  }

  lemma SetAddsOne(c: Config, name: string, key: string, value: string)
    ensures EntryCount(SetString(c, name, key, value, true)) <= EntryCount(c) + 1
  {
    var i := FindSection(c, name);
    if i < |c| {
      EntryCountAt(c, i, Section(name, SetEntry(c[i].entries, key, value)));
    } else {
      EntryCountSnoc(c, Section(name, [Entry(key, value)]));
    }
  }

  lemma {:induction false} FeedAdds(r: Reader, lines: seq<string>)
    ensures EntryCount(Feed(r, lines).config) <= EntryCount(r.config) + Adders(lines)
    decreases |lines|
  {
    if lines != [] {
      ReadLineAdds(r, lines[0]);
      FeedAdds(ReadLine(r, lines[0]), lines[1..]);
      AddersPlus([lines[0]], lines[1..]);
      assert lines == [lines[0]] + lines[1..];
      assert [lines[0]][..0] == [];
    }
  }

  lemma EntryLineAdds(e: Entry)
    requires EntryPlain(e)
    ensures Adds(EntryLine(e))
  {
    EntryHalves(e);
  }

  lemma {:induction false} EntryLinesAdd(es: seq<Entry>)
    requires forall i :: 0 <= i < |es| ==> EntryPlain(es[i])
    ensures Adders(EntryLines(es)) == |es|
  {
    if es != [] {
      EntryLineAdds(es[0]);
      EntryLinesAdd(es[1..]);
      AddersPlus([EntryLine(es[0])], EntryLines(es[1..]));
      assert [EntryLine(es[0])][..0] == [];
    }
  }

  lemma SectionLineAddsNothing(s: Section)
    ensures !Adds(SectionLine(s)) && Adders([SectionLine(s)]) == 0 && Adders([""]) == 0
  {
    TrimTrimmed(SectionLine(s));
    assert [SectionLine(s)][..0] == [] && [""][..0] == [];
  }

  /** The lines carry exactly one adder per entry. */
  lemma {:induction false} LinesAdd(c: Config)
    requires ConfigPlain(c)
    ensures Adders(Lines(c)) == EntryCount(c)
  {
    if c != [] {
      var s, sep := c[0], if |c| == 1 then [] else [""];
      LinesAdd(c[1..]);
      SectionLineAddsNothing(s);
      EntryLinesAdd(s.entries);
      AddersPlus([SectionLine(s)], EntryLines(s.entries));
      AddersPlus(SectionLines(s), sep);
      AddersPlus(SectionLines(s) + sep, Lines(c[1..]));
    }
  }

  /** When every section has an entry, the last line is one. */
  lemma {:induction false} LastLineAdds(c: Config)
    requires ConfigPlain(c) && EachInhabited(c) && c != []
    ensures Lines(c) != [] && Adds(Lines(c)[|Lines(c)| - 1])
  {
    if |c| == 1 {
      var es := c[0].entries;
      EntryLinesAt(es);
      EntryLineAdds(es[|es| - 1]);
      assert Lines(c) == SectionLines(c[0]) + [] + [];
    } else {
      LastLineAdds(c[1..]);
      assert Lines(c) == SectionLines(c[0]) + [""] + Lines(c[1..]);
    }
  }

  lemma {:induction false} RenderCutPlus(a: seq<string>, b: seq<string>, junk: string)
    requires Behind(a + b, junk)
    ensures Behind(a, junk) && Behind(b, junk) && RenderCut(a + b, junk) == RenderCut(a, junk) + RenderCut(b, junk)
  {
    BehindPlus(a, b, junk);
    if a == [] {
      assert a + b == b;
    } else {
      assert (a + b)[1..] == a[1..] + b;
      RenderCutPlus(a[1..], b, junk);
      PlusAssoc(Copied(a[0], junk), RenderCut(a[1..], junk), RenderCut(b, junk));
    }
  }

  lemma BehindPlus(a: seq<string>, b: seq<string>, junk: string)
    ensures Behind(a + b, junk) <==> Behind(a, junk) && Behind(b, junk)
  {
    if Behind(a + b, junk) {
      forall i | 0 <= i < |a| ensures |a[i]| < LINE_BUFFER + |junk| {
        assert (a + b)[i] == a[i];
      }
      forall i | 0 <= i < |b| ensures |b[i]| < LINE_BUFFER + |junk| {
        assert (a + b)[|a| + i] == b[i];
      }
    }
  }

  /** Cut or not, as many bytes are written as the text has. */
  lemma {:induction false} CutLength(lines: seq<string>, junk: string)
    requires Behind(lines, junk)
    ensures |RenderCut(lines, junk)| == |Render(lines)|
  {
    if lines != [] {
      CutLength(lines[1..], junk);
    }
  }

  /** Lines that fit are written as they are. */
  lemma {:induction false} FitIsWhole(lines: seq<string>, junk: string)
    requires LinesFit(lines)
    ensures Behind(lines, junk) && RenderCut(lines, junk) == Render(lines)
  {
    if lines != [] {
      FitIsWhole(lines[1..], junk);
    }
  }

  /** A line that does not fit ends in a terminator instead of a newline, and there the reader stops. */
  lemma CutStops(r: Reader, line: string, junk: string, rest: string)
    requires Plain(line) && LINE_BUFFER <= |line| + 1 && |line| < LINE_BUFFER + |junk|
    ensures ReadText(r, Copied(line, junk) + rest) == r
  {
    var text, front := Copied(line, junk) + rest, (line + "\n")[..LINE_BUFFER - 1];
    assert front == line[..LINE_BUFFER - 1];
    var more := junk[..|line| + 1 - LINE_BUFFER] + rest;
    assert text == front + "\0" + more;
    NulAfter(front, more);
  }

  lemma {:induction false} NulAfter(l: string, rest: string)
    requires Plain(l)
    ensures FindNewline(l + "\0" + rest) == |l + "\0" + rest|
    decreases |l|
  {
    if l != "" {
      assert (l + "\0" + rest)[1..] == l[1..] + "\0" + rest;
      NulAfter(l[1..], rest);
    }
  }

  lemma {:induction false} ReadUpTo(r: Reader, lines: seq<string>, tail: string)
    requires (forall i :: 0 <= i < |lines| ==> Plain(lines[i])) && LinesFit(lines) && |tail| >= 2
    ensures ReadText(r, Render(lines) + tail) == ReadText(Feed(r, lines), tail)
    decreases |lines|
  {
    if lines == [] {
      assert Render(lines) + tail == tail;
    } else {
      var l, rest := lines[0], Render(lines[1..]) + tail;
      var text := Render(lines) + tail;
      NewlineAfter(l, rest);
      assert text == l + "\n" + rest;
      assert text[..|l|] == l && text[|l| + 1..] == rest;
      ReadUpTo(ReadLine(r, l), lines[1..], tail);
    }
  }

  function FirstLong(lines: seq<string>): (i: nat)
    ensures i <= |lines| && LinesFit(lines[..i]) && (i < |lines| ==> |lines[i]| + 2 > LINE_BUFFER)
    ensures i == |lines| <==> LinesFit(lines)
  {
    if lines == [] then 0
    else if |lines[0]| + 2 > LINE_BUFFER then 0
    else
      var i := FirstLong(lines[1..]);
      assert lines[..i + 1] == [lines[0]] + lines[1..][..i];
      assert i < |lines[1..]| ==> lines[i + 1] == lines[1..][i];
      i + 1
  }

  lemma StopsAtLong(r: Reader, before: seq<string>, line: string, after: seq<string>, junk: string)
    requires (forall i :: 0 <= i < |before| ==> Plain(before[i])) && LinesFit(before)
    requires Plain(line) && LINE_BUFFER <= |line| + 1
    requires Behind(before + ([line] + after), junk)
    ensures ReadText(r, RenderCut(before + ([line] + after), junk)) == Feed(r, before)
  {
    RenderCutPlus(before, [line] + after, junk);
    FitIsWhole(before, junk);
    BehindPlus([line], after, junk);
    assert ([line] + after)[0] == line && ([line] + after)[1..] == after;
    var rest := RenderCut(after, junk);
    ReadUpTo(r, before, Copied(line, junk) + rest);
    CutStops(Feed(r, before), line, junk, rest);
  }

  /** With a line that does not fit, the reader sees only what comes before it. */
  lemma LongLineLoses(c: Config, junk: string)
    requires ConfigPlain(c) && Behind(Lines(c), junk) && !LinesFit(Lines(c))
    ensures Parse([], Written(c, junk)) == Feed(Reader([], "Global"), Lines(c)[..FirstLong(Lines(c))]).config
  {
    LinesPresentable(c);
    LongLineStops(Reader([], "Global"), Lines(c), junk);
  }

  lemma LongLineStops(r: Reader, lines: seq<string>, junk: string)
    requires Presentable(lines) && Behind(lines, junk) && !LinesFit(lines)
    ensures ReadText(r, RenderCut(lines, junk)) == Feed(r, lines[..FirstLong(lines)])
  {
    var i := FirstLong(lines);
    var before, line, after := lines[..i], lines[i], lines[i + 1..];
    assert lines == before + ([line] + after);
    StopsAtLong(r, before, line, after, junk);
  }

  /** Cut short anywhere, the lines of a configuration without empty sections have lost an entry. */
  lemma CutLosesEntry(c: Config, i: nat)
    requires ConfigPlain(c) && EachInhabited(c) && i < |Lines(c)|
    ensures EntryCount(Feed(Reader([], "Global"), Lines(c)[..i]).config) < EntryCount(c)
  {
    var lines := Lines(c);
    FeedAdds(Reader([], "Global"), lines[..i]);
    LinesAdd(c);
    LastLineAdds(c);
    LastCounts(lines, i);
  }

  lemma LastCounts(lines: seq<string>, i: nat)
    requires i < |lines| && Adds(lines[|lines| - 1])
    ensures Adders(lines[..i]) < Adders(lines)
  {
    assert lines == lines[..i] + lines[i..];
    AddersPlus(lines[..i], lines[i..]);
  }

  /**
   Exactly: what config_save writes for a configuration without empty sections is read back as it was if
   and only if every line fits the 1024-byte line buffer, which leaves it 1022 characters.
   */
  lemma WrittenRoundTrip(c: Config, junk: string)
    requires ConfigPlain(c) && EachInhabited(c) && Behind(Lines(c), junk)
    ensures Parse([], Written(c, junk)) == c <==> LinesFit(Lines(c))
  {
    var lines := Lines(c);
    if LinesFit(lines) {
      FitIsWhole(lines, junk);
      RoundTripIffInhabited(c);
    } else {
      LongLineLoses(c, junk);
      CutLosesEntry(c, FirstLong(lines));
    }
  }
}
