/**
 Single lines of a configuration text, however they are padded: what a section line, an entry line and every
 other line does to the reader, and where a new section or key goes.
 */
module ConfigLines {
  import opened Bytes
  import opened ConfigText

  // ---------- padding ----------

  predicate Blank(s: string) {
    forall i :: 0 <= i < |s| ==> IsSpace(s[i])
  }

  lemma {:induction false} LeftPadded(a: string, s: string)
    requires Blank(a) && (s != "" ==> !IsSpace(s[0]))
    ensures TrimLeft(a + s) == s
    decreases |a|
  {
    if a == "" {
      assert a + s == s;
    } else {
      assert (a + s)[1..] == a[1..] + s;
      LeftPadded(a[1..], s);
    }
  }

  lemma {:induction false} RightPadded(s: string, b: string)
    requires Blank(b) && (s != "" ==> !IsSpace(s[|s| - 1]))
    ensures TrimRight(s + b) == s
    decreases |b|
  {
    if b == "" {
      assert s + b == s;
    } else {
      assert (s + b)[..|s + b| - 1] == s + b[..|b| - 1];
      RightPadded(s, b[..|b| - 1]);
    }
  }

  /** Trimming takes off exactly the white space around a text that has none at its ends. */
  lemma Padded(a: string, s: string, b: string)
    requires Blank(a) && Blank(b) && Trimmed(s)
    ensures Trim(a + s + b) == s
  {
    if s == "" {
      assert a + s + b == (a + b) + "";
      LeftPadded(a + b, "");
    } else {
      PlusAssoc(a, s, b);
      LeftPadded(a, s + b);
      RightPadded(s, b);
    }
  }

  /** Every line is of that form. */
  lemma EveryLinePadded(line: string)
    ensures exists a, b :: Blank(a) && Blank(b) && line == a + Trim(line) + b && Trimmed(Trim(line))
  {
    var a := LeftPart(line);
    var l := TrimLeft(line);
    var b := RightPart(l);
    assert line == a + Trim(line) + b;
  }

  function LeftPart(s: string): (a: string)
    ensures Blank(a) && s == a + TrimLeft(s) && (TrimLeft(s) != "" ==> !IsSpace(TrimLeft(s)[0]))
  {
    if s != "" && IsSpace(s[0]) then [s[0]] + LeftPart(s[1..]) else ""
  }

  function RightPart(s: string): (b: string)
    ensures Blank(b) && s == TrimRight(s) + b && (TrimRight(s) != "" ==> !IsSpace(TrimRight(s)[|TrimRight(s)| - 1]))
  {
    if s != "" && IsSpace(s[|s| - 1]) then RightPart(s[..|s| - 1]) + [s[|s| - 1]] else ""
  }

  // ---------- what a line does ----------

  /** A name in brackets sets the section, padded or not; the name is not trimmed and may hold anything. */
  lemma SectionSets(r: Reader, a: string, name: string, b: string)
    requires Blank(a) && Blank(b)
    ensures ReadLine(r, a + ("[" + name + "]") + b) == r.(section := name)
  {
    var l := "[" + name + "]";
    Padded(a, l, b);
    assert l[1..|l| - 1] == name;
  }

  predicate NoEquals(s: string) {
    forall i :: 0 <= i < |s| ==> s[i] != '='
  }

  function Left(key: string, b: string): string {
    if key == "" then "" else key + b
  }

  function Right(c: string, value: string): string {
    if value == "" then "" else c + value
  }

  /** Padding next to an empty key or value belongs to the padding of the line. */
  lemma EntryTrims(a: string, key: string, b: string, c: string, value: string, d: string)
    requires Blank(a) && Blank(b) && Blank(c) && Blank(d) && Trimmed(key) && Trimmed(value)
    ensures Trim(a + (key + b + "=" + c + value) + d) == Left(key, b) + "=" + Right(c, value)
  {
    var front, back := if key == "" then a + b else a, if value == "" then c + d else d;
    var left, right := Left(key, b), Right(c, value);
    assert key == "" ==> key + b == b && (a + b) + "" == a + b;
    assert value == "" ==> c + value == c && "" + (c + d) == c + d;
    PlusAssoc(a, key, b);
    PlusAssoc(c, value, d);
    FrontAndBack(a, key + b, c + value, d, front, left, right, back);
    PlusAssoc(key + b + "=", c, value);
    EntryTrimmed(key, b, c, value);
    Padded(front, left + "=" + right, back);
  }

  lemma FrontAndBack(a: string, x: string, y: string, d: string,
                     front: string, left: string, right: string, back: string)
    requires a + x == front + left && y + d == right + back
    ensures a + (x + "=" + y) + d == front + (left + "=" + right) + back
  {
    calc {
      a + (x + "=" + y) + d;
      (a + x) + "=" + (y + d);
      (front + left) + "=" + (right + back);
      front + (left + "=" + right) + back;
    }
  }

  lemma EntryTrimmed(key: string, b: string, c: string, value: string)
    requires Trimmed(key) && Trimmed(value)
    ensures Trimmed(Left(key, b) + "=" + Right(c, value))
  {
  }

  /** The key ends at the first '='; both sides are trimmed, and the value may hold more of them. */
  lemma EntrySets(r: Reader, a: string, key: string, b: string, c: string, value: string, d: string)
    requires Blank(a) && Blank(b) && Blank(c) && Blank(d) && Trimmed(key) && Trimmed(value) && NoEquals(key)
    requires key != "" ==> key[0] != '#' && key[0] != '['
    ensures ReadLine(r, a + (key + b + "=" + c + value) + d)
            == r.(config := SetString(r.config, r.section, key, value, true))
  {
    var line, left, right := a + (key + b + "=" + c + value) + d, Left(key, b), Right(c, value);
    EntryTrims(a, key, b, c, value, d);
    HalvesTrim(key, b, c, value);
    SplitSets(r, line, left, right);
  }

  lemma HalvesTrim(key: string, b: string, c: string, value: string)
    requires Blank(b) && Blank(c) && Trimmed(key) && Trimmed(value)
    ensures Trim(Left(key, b)) == key && Trim(Right(c, value)) == value
  {
    Padded("", key, b);
    Padded(c, value, "");
    assert "" + key + b == key + b && c + value + "" == c + value;
  }

  lemma SplitSets(r: Reader, line: string, left: string, right: string)
    requires Trim(line) == left + "=" + right && NoEquals(left) && (left != "" ==> left[0] != '#' && left[0] != '[')
    ensures ReadLine(r, line) == r.(config := SetString(r.config, r.section, Trim(left), Trim(right), true))
  {
    var l := left + "=" + right;
    FindAfter(left, right);
    assert l[..|left|] == left && l[|left| + 1..] == right;
  }

  /** Empty, a comment, a section name that is not closed, or no '=' at all. */
  predicate Ignored(l: string) {
    || l == "" || l[0] == '#'
    || (l[0] == '[' && l[|l| - 1] != ']')
    || (l[0] != '[' && NoEquals(l))
  }

  /** A line changes no reader exactly when it is one of those. */
  lemma IgnoredExact(a: string, l: string, b: string)
    requires Blank(a) && Blank(b) && Trimmed(l)
    ensures Ignored(l) <==> forall r :: ReadLine(r, a + l + b) == r
  {
    Padded(a, l, b);
    var line := a + l + b;
    if !Ignored(l) {
      var r := Reader([], if l[0] == '[' then l else "");
      if l[0] == '[' {
        assert ReadLine(r, line).section == l[1..|l| - 1];
      } else {
        assert ReadLine(r, line).config != [];
      }
      assert ReadLine(r, line) != r;
    }
  }

  // ---------- where things go ----------

  function Names(c: Config): seq<string> {
    seq(|c|, i requires 0 <= i < |c| => c[i].name)
  }

  function Keys(es: seq<Entry>): seq<string> {
    seq(|es|, i requires 0 <= i < |es| => es[i].key)
  }

  /** Sections keep their order; a new one goes to the end asked for. */
  lemma NamesAfterSet(c: Config, name: string, key: string, value: string, back: bool)
    ensures Names(SetString(c, name, key, value, back))
            == if name in Names(c) then Names(c) else if back then Names(c) + [name] else [name] + Names(c)
  {
    var i := FindSection(c, name);
    if i < |c| {
      assert Names(c)[i] == name;
    } else {
      assert forall j :: 0 <= j < |c| ==> Names(c)[j] != name;
    }
  }

  /** Keys keep their order; a new one goes to the end. */
  lemma KeysAfterSet(es: seq<Entry>, key: string, value: string)
    ensures Keys(SetEntry(es, key, value)) == if key in Keys(es) then Keys(es) else Keys(es) + [key]
  {
    var i := FindKey(es, key);
    if i < |es| {
      assert Keys(es)[i] == key;
    } else {
      assert forall j :: 0 <= j < |es| ==> Keys(es)[j] != key;
    }
  }
}
