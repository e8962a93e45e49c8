/**
 Topic names: the pointer-walking matcher (the same in CayenneUtils.c and MQTTClient.c) against matching
 level by level (section 4.7 of MQTT 3.1.1), and the Cayenne topic builder against its parser; both are
 functions of strings, with the loops and the writes into the caller's buffer proved against them below.
 */
module Topics {
  import opened Bytes
  import opened Decimal

  // ---------- the matcher ----------

  /** First '/' at or after `i`, or the end. */
  function LevelEnd(n: string, i: nat): (j: nat)
    requires i <= |n|
    ensures i <= j <= |n| && (j < |n| ==> n[j] == '/') && forall k :: i <= k < j ==> n[k] != '/'
    decreases |n| - i
  {
    if i == |n| || n[i] == '/' then i else LevelEnd(n, i + 1)
  }

  /** The matching loop on what is left of the filter and of the name. */
  function MatchRest(f: string, n: string): bool
    decreases |f|, |n|
  {
    if f == "" || n == "" then f == "" && n == ""
    else if n[0] == '/' && f[0] != '/' then false
    else if f[0] != '+' && f[0] != '#' && f[0] != n[0] then false
    else if f[0] == '+' then MatchRest(f[1..], n[LevelEnd(n, 1)..])
    else if f[0] == '#' then MatchRest(f[1..], "")
    else MatchRest(f[1..], n[1..])
  }

  method TopicMatches(filter: string, name: string) returns (r: bool)
    ensures r == MatchRest(filter, name)
  {
    var curf, curn := 0, 0;
    while curf < |filter| && curn < |name|
      invariant 0 <= curf <= |filter| && 0 <= curn <= |name|
      invariant MatchRest(filter[curf..], name[curn..]) == MatchRest(filter, name)
      decreases |filter| - curf
    {
      ghost var f, n := filter[curf..], name[curn..];
      ghost var curn0 := curn;
      if name[curn] == '/' && filter[curf] != '/' {
        return false;
      }
      if filter[curf] != '+' && filter[curf] != '#' && filter[curf] != name[curn] {
        return false;
      }
      if filter[curf] == '+' {
        var nextpos := curn + 1;
        while nextpos < |name| && name[nextpos] != '/'
          invariant nextpos == curn + 1 <= |name| && curn0 <= curn
          invariant forall k :: curn0 < k < nextpos ==> name[k] != '/'
          decreases |name| - nextpos
        {
          curn := curn + 1;
          nextpos := curn + 1;
        }
        LevelEndAt(n, 1, nextpos - curn0);
        assert n[nextpos - curn0..] == name[nextpos..];
      } else if filter[curf] == '#' {
        curn := |name| - 1;
      }
      curf := curf + 1;
      curn := curn + 1;
      assert f[1..] == filter[curf..];
    }
    return curn == |name| && curf == |filter|;
  }

  lemma LevelEndAt(n: string, i: nat, j: nat)
    requires i <= j <= |n| && (j < |n| ==> n[j] == '/') && forall k :: i <= k < j ==> n[k] != '/'
    ensures LevelEnd(n, i) == j
  {
  }

  // ---------- level by level ----------

  predicate NoSlash(l: string) {
    forall i :: 0 <= i < |l| ==> l[i] != '/'
  }

  predicate Literal(l: string) {
    forall i :: 0 <= i < |l| ==> l[i] != '/' && l[i] != '+' && l[i] != '#'
  }

  /** A filter's levels: wildcards stand alone, '#' only at the end. */
  predicate FilterOk(fl: seq<string>) {
    && fl != []
    && (forall i :: 0 <= i < |fl| ==> fl[i] == "+" || fl[i] == "#" || Literal(fl[i]))
    && (forall i :: 0 <= i < |fl| - 1 ==> fl[i] != "#")
  }

  predicate NameOk(nl: seq<string>) {
    nl != [] && forall i :: 0 <= i < |nl| ==> nl[i] != "" && NoSlash(nl[i])
  }

  /** '+' takes exactly one level, a final '#' one or more. */
  function LevelsMatch(fl: seq<string>, nl: seq<string>): bool {
    if fl == [] then nl == []
    else if nl == [] then false
    else if fl[0] == "#" then true
    else (fl[0] == "+" || fl[0] == nl[0]) && LevelsMatch(fl[1..], nl[1..])
  }

  function Join(ls: seq<string>): string
    requires ls != []
    decreases |ls|, 0
  {
    ls[0] + Tail(ls[1..])
  }

  function Tail(ls: seq<string>): string
    decreases |ls|, 1
  {
    if ls == [] then "" else "/" + Join(ls)
  }

  predicate AtSeparator(t: string) {
    t == "" || t[0] == '/'
  }

  lemma {:induction false} LiteralLevel(x: string, t: string, y: string, u: string)
    requires Literal(x) && NoSlash(y) && AtSeparator(t) && AtSeparator(u)
    ensures MatchRest(x + t, y + u) == (x == y && MatchRest(t, u))
    decreases |x|
  {
    var f, n := x + t, y + u;
    if x == "" {
      assert f == t;
      if y != "" {
        assert n[0] == y[0];
      } else {
        assert n == u;
      }
    } else if y == "" {
      assert n == u && f[0] == x[0];
    } else {
      assert f[0] == x[0] && n[0] == y[0];
      if x[0] == y[0] {
        assert f[1..] == x[1..] + t && n[1..] == y[1..] + u;
        LiteralLevel(x[1..], t, y[1..], u);
        assert x == [x[0]] + x[1..] && y == [y[0]] + y[1..];
      }
    }
  }

  lemma PlusLevel(t: string, y: string, u: string)
    requires NoSlash(y) && y != "" && AtSeparator(u)
    ensures MatchRest("+" + t, y + u) == MatchRest(t, u)
  {
    var f, n := "+" + t, y + u;
    assert f[0] == '+' && f[1..] == t && n[0] == y[0];
    LevelEndAt(n, 1, |y|);
    assert n[|y|..] == u;
  }

  lemma {:induction false} JoinedMatch(fl: seq<string>, nl: seq<string>)
    requires FilterOk(fl) && NameOk(nl)
    ensures MatchRest(Join(fl), Join(nl)) == LevelsMatch(fl, nl)
    decreases |fl|, 1
  {
    var t, u := Tail(fl[1..]), Tail(nl[1..]);
    if fl[0] == "#" {
      assert fl[1..] == [] && Join(fl) == "#" && Join(nl)[0] == nl[0][0];
      assert Join(fl)[1..] == "";
    } else {
      TailMatch(fl[1..], nl[1..]);
      if fl[0] == "+" {
        PlusLevel(t, nl[0], u);
      } else {
        LiteralLevel(fl[0], t, nl[0], u);
      }
    }
  }

  lemma {:induction false} TailMatch(fl: seq<string>, nl: seq<string>)
    requires fl != [] ==> FilterOk(fl)
    requires nl != [] ==> NameOk(nl)
    ensures MatchRest(Tail(fl), Tail(nl)) == LevelsMatch(fl, nl)
    decreases |fl|, 2
  {
    if fl != [] && nl != [] {
      assert Tail(fl)[0] == '/' && Tail(nl)[0] == '/';
      assert Tail(fl)[1..] == Join(fl) && Tail(nl)[1..] == Join(nl);
      JoinedMatch(fl, nl);
    }
  }

  /** The levels of any string. */
  function Split(s: string): (ls: seq<string>)
    ensures ls != []
  {
    if s == "" then [""]
    else
      var rest := Split(s[1..]);
      if s[0] == '/' then [""] + rest else [[s[0]] + rest[0]] + rest[1..]
  }

  lemma {:induction false} SplitJoins(s: string)
    ensures Join(Split(s)) == s
    ensures forall i :: 0 <= i < |Split(s)| ==> NoSlash(Split(s)[i])
  {
    if s != "" {
      var rest := Split(s[1..]);
      SplitJoins(s[1..]);
      if s[0] == '/' {
        JoinSlash(rest);
        assert "/" + s[1..] == s;
      } else {
        JoinFirst(s[0], rest);
        assert [s[0]] + s[1..] == s;
      }
    }
  }

  lemma JoinSlash(rest: seq<string>)
    requires rest != []
    ensures Join([""] + rest) == "/" + Join(rest)
  {
    assert ([""] + rest)[1..] == rest;
  }

  lemma JoinFirst(c: char, rest: seq<string>)
    requires rest != []
    ensures Join([[c] + rest[0]] + rest[1..]) == [c] + Join(rest)
  {
    var ls := [[c] + rest[0]] + rest[1..];
    assert ls[1..] == rest[1..];
    PlusAssoc([c], rest[0], Tail(rest[1..]));
  }

  /**
   For every well-formed filter and every name without empty levels, the pointer-walking loop decides
   exactly level-by-level matching.
   */
  lemma MatcherIsLevelwise(filter: string, name: string)
    requires FilterOk(Split(filter))
    requires forall i :: 0 <= i < |Split(name)| ==> Split(name)[i] != ""
    ensures MatchRest(filter, name) == LevelsMatch(Split(filter), Split(name))
  {
    SplitJoins(filter);
    SplitJoins(name);
    JoinedMatch(Split(filter), Split(name));
  }

  // ---------- building ----------

  datatype Topic = Undefined | Data | Command | Config | Response | SysModel | SysVersion | SysCpuModel | SysCpuSpeed

  const ALL_CHANNELS: nat := 0xFFFF
  const NO_CHANNEL: nat := 0xFFFE
  const MAX_MESSAGE: nat := 134
  const UINT_LIMIT: nat := 0x1_0000_0000

  function TopicString(t: Topic): Option<string> {
    match t
    case Undefined => None
    case Data => Some("data")
    case Command => Some("cmd")
    case Config => Some("conf")
    case Response => Some("response")
    case SysModel => Some("sys/model")
    case SysVersion => Some("sys/version")
    case SysCpuModel => Some("sys/cpu/model")
    case SysCpuSpeed => Some("sys/cpu/speed")
  }

  datatype Built = Built(s: string) | BuildFailure | BuildOverflow

  /** snprintf keeps what fits before the terminator. */
  function Clip(s: string, room: int): string {
    if room <= 1 then "" else if |s| <= room - 1 then s else s[..room - 1]
  }

  function BuildSuffix(t: Topic, channel: nat, size: nat): Built {
    var ts := TopicString(t);
    if ts.None? then BuildFailure
    else if |ts.value| >= size then BuildOverflow
    else if channel == NO_CHANNEL then Built(ts.value)
    else if channel == ALL_CHANNELS then Built(ts.value + "/" + "+")
    else
      var s := ts.value + "/";
      Built(s + Clip(Dec(channel), size - |s|))
  }

  function FullName(user: string, client: string, suffix: string): string {
    "v1" + "/" + user + "/things/" + client + "/" + suffix
  }

  /** CayenneBuildTopic; the size check counts two bytes fewer than name and terminator take. */
  function BuildTopic(length: nat, user: string, client: string, t: Topic, channel: nat): Built {
    var suffix := BuildSuffix(t, channel, 20);
    if !suffix.Built? then suffix
    else if |user| + |client| + |suffix.s| + 11 > length then BuildOverflow
    else Built(FullName(user, client, suffix.s))
  }

  // ---------- parsing ----------

  predicate StartsWith(s: string, prefix: string) {
    |prefix| <= |s| && s[..|prefix|] == prefix
  }

  function SkipSpace(s: string): (i: nat)
    ensures i <= |s|
  {
    if s != "" && IsSpace(s[0]) then 1 + SkipSpace(s[1..]) else 0
  }

  function DigitRun(s: string): (i: nat)
    ensures i <= |s| && (forall j :: 0 <= j < i ==> IsDigit(s[j])) && (i < |s| ==> !IsDigit(s[i]))
  {
    if s != "" && IsDigit(s[0]) then 1 + DigitRun(s[1..]) else 0
  }

  /** strtoul in base 10 with a 32-bit unsigned long: the value and the characters it took. */
  function StrToUl(s: string): (r: (nat, nat))
    ensures r.1 <= |s|
  {
    var a := SkipSpace(s);
    var signed := a < |s| && (s[a] == '+' || s[a] == '-');
    var b := if signed then a + 1 else a;
    var n := DigitRun(s[b..]);
    if n == 0 then (0, 0)
    else
      var v := Value(s[b..][..n]);
      var clipped := if v >= UINT_LIMIT then UINT_LIMIT - 1 else v;
      var value := if signed && s[a] == '-' && v < UINT_LIMIT then (UINT_LIMIT - v) % UINT_LIMIT else clipped;
      (value, b + n)
  }

  /** Position behind the last '/', or 0. */
  function AfterLastSlash(s: string): (i: nat)
    ensures i <= |s| && (i > 0 ==> s[i - 1] == '/') && forall j :: i <= j < |s| ==> s[j] != '/'
  {
    if s == "" then 0 else if s[|s| - 1] == '/' then |s| else AfterLastSlash(s[..|s| - 1])
  }

  /** The channel a suffix names: what strtoul takes to the end, unless it has a leading zero. */
  function ChannelOf(suffix: string): nat {
    var i := AfterLastSlash(suffix);
    if i == 0 then NO_CHANNEL
    else
      var c := suffix[i..];
      var (v, used) := StrToUl(c);
      if used == |c| && c != "" && ((v != 0 && c[0] != '0') || (v == 0 && c[0] == '0' && used == 1)) then v
      else NO_CHANNEL
  }

  datatype Parsed = Parsed(topic: Topic, channel: nat, client: string) | ParseFailure | ParseOverflow

  function ParseSuffix(client: string, suffix: string): (p: Parsed)
    ensures p.Parsed? ==> p.client == client
  {
    var t := SuffixTopic(suffix);
    if t == Undefined || suffix == "" || |suffix| > 31 then ParseFailure
    else Parsed(t, ChannelOf(suffix), client)
  }

  function SuffixTopic(suffix: string): Topic {
    if MatchRest("cmd/+", suffix) then Command else if MatchRest("conf/+", suffix) then Config else Undefined
  }

  /** Where the client id ends: everything before it has been checked. */
  function ClientStart(user: string, name: string): Option<nat> {
    if !StartsWith(name, "v1") || |name| < 3 then None
    else if !StartsWith(name[3..], user) then None
    else if !StartsWith(name[3 + |user|..], "/things/") then None
    else Some(3 + |user| + 8)
  }

  /** CayenneParseTopic. */
  function ParseTopic(user: string, name: string): Parsed {
    if |name| > MAX_MESSAGE then ParseOverflow
    else
      var start := ClientStart(user, name);
      if start.None? then ParseFailure
      else
        var rest := name[start.value..];
        var i := LevelEnd(rest, 0);
        if i == |rest| then ParseFailure else ParseSuffix(rest[..i], rest[i + 1..])
  }

  // ---------- the round trip ----------

  lemma {:induction false} DecLength(n: nat, k: nat)
    requires k >= 1 && n < Power(k)
    ensures |Dec(n)| <= k
    decreases k
  {
    if n >= 10 {
      DecLength(n / 10, k - 1);
    }
  }

  function Power(k: nat): nat {
    if k == 0 then 1 else 10 * Power(k - 1)
  }

  lemma {:induction false} AllDigits(s: string)
    requires forall i :: 0 <= i < |s| ==> IsDigit(s[i])
    ensures DigitRun(s) == |s|
  {
    if s != "" {
      AllDigits(s[1..]);
    }
  }

  lemma StrToUlOfDec(n: nat)
    requires n < UINT_LIMIT
    ensures StrToUl(Dec(n)) == (n, |Dec(n)|)
  {
    var s := Dec(n);
    AllDigits(s);
    ValueOfDec(n);
    assert SkipSpace(s) == 0;
    assert s[0..] == s && s[..|s|] == s;
  }

  lemma {:induction false} LastSlashAt(a: string, c: string)
    requires NoSlash(c)
    ensures AfterLastSlash(a + "/" + c) == |a| + 1
    decreases |c|
  {
    var s := a + "/" + c;
    if c != "" {
      assert s[..|s| - 1] == a + "/" + c[..|c| - 1];
      LastSlashAt(a, c[..|c| - 1]);
    }
  }

  lemma ChannelComesBack(ts: string, n: nat)
    requires n < UINT_LIMIT
    ensures ChannelOf(ts + "/" + Dec(n)) == n
  {
    var c := Dec(n);
    LastSlashAt(ts, c);
    assert (ts + "/" + c)[|ts| + 1..] == c;
    StrToUlOfDec(n);
    FirstDigit(n);
  }

  lemma SuffixMatches(ts: string, d: string, wanted: string)
    requires Literal(ts) && Literal(wanted) && d != "" && NoSlash(d) && ts != ""
    ensures MatchRest(wanted + "/" + "+", ts + "/" + d) <==> ts == wanted
  {
    var fl, nl := [wanted, "+"], [ts, d];
    assert fl[1..] == ["+"] && nl[1..] == [d];
    assert Join(fl[1..]) == "+" + Tail(["+"][1..]) == "+" && Join(nl[1..]) == d + Tail([d][1..]) == d;
    assert Join(fl) == wanted + ("/" + "+") == wanted + "/" + "+";
    assert Join(nl) == ts + ("/" + d) == ts + "/" + d;
    assert "#"[0] == '#' && fl[0] != "#" && fl[1] == "+";
    JoinedMatch(fl, nl);
    assert LevelsMatch(["+"], [d]) by {
      assert LevelsMatch(["+"][1..], [d][1..]);
    }
  }

  lemma SuffixParses(t: Topic, channel: nat, client: string)
    requires t == Command || t == Config
    requires channel < UINT_LIMIT
    ensures ParseSuffix(client, TopicString(t).value + "/" + Dec(channel)) == Parsed(t, channel, client)
  {
    var ts, d := TopicString(t).value, Dec(channel);
    SuffixTopicIs(t, d);
    ChannelComesBack(ts, channel);
    ShortChannel(channel);
  }

  lemma SuffixTopicIs(t: Topic, d: string)
    requires (t == Command || t == Config) && d != "" && NoSlash(d)
    ensures SuffixTopic(TopicString(t).value + "/" + d) == t
  {
    var ts := TopicString(t).value;
    SuffixMatches(ts, d, "cmd");
    SuffixMatches(ts, d, "conf");
    assert "cmd" + "/" + "+" == "cmd/+" && "conf" + "/" + "+" == "conf/+";
  }

  lemma ShortChannel(channel: nat)
    requires channel < UINT_LIMIT
    ensures |Dec(channel)| <= 10
  {
    assert Power(10) == 10000000000;
    DecLength(channel, 10);
  }

  lemma NameSplits(user: string, client: string, suffix: string)
    requires NoSlash(client)
    ensures ClientStart(user, FullName(user, client, suffix)) == Some(11 + |user|)
    ensures var rest := FullName(user, client, suffix)[11 + |user|..];
            && rest == client + "/" + suffix && LevelEnd(rest, 0) == |client|
            && rest[..|client|] == client && rest[|client| + 1..] == suffix
  {
    var name := FullName(user, client, suffix);
    var tail := client + "/" + suffix;
    assert name[..2] == "v1";
    assert name[3..] == user + ("/things/" + tail);
    assert name[3..][..|user|] == user;
    assert name[3 + |user|..] == "/things/" + tail;
    assert ("/things/" + tail)[..8] == "/things/";
    assert name[11 + |user|..] == tail;
    LevelEndAt(tail, 0, |client|);
  }

  lemma SuffixFits(t: Topic, channel: nat)
    requires t == Command || t == Config
    requires channel < UINT_LIMIT && channel != NO_CHANNEL && channel != ALL_CHANNELS
    ensures BuildSuffix(t, channel, 20) == Built(TopicString(t).value + "/" + Dec(channel))
  {
    ShortChannel(channel);
  }

  lemma NameParses(user: string, client: string, suffix: string)
    requires NoSlash(client) && |FullName(user, client, suffix)| <= MAX_MESSAGE
    ensures ParseTopic(user, FullName(user, client, suffix)) == ParseSuffix(client, suffix)
  {
    NameSplits(user, client, suffix);
  }

  /**
   Parsing what was built gives back topic, channel and client id, for command and configuration topics,
   any client id without a separator, and any channel number that is not one of the two reserved values.
   */
  lemma TopicRoundTrip(length: nat, user: string, client: string, t: Topic, channel: nat)
    requires t == Command || t == Config
    requires NoSlash(client) && channel < UINT_LIMIT && channel != NO_CHANNEL && channel != ALL_CHANNELS
    requires BuildTopic(length, user, client, t, channel).Built?
    requires |BuildTopic(length, user, client, t, channel).s| <= MAX_MESSAGE
    ensures ParseTopic(user, BuildTopic(length, user, client, t, channel).s) == Parsed(t, channel, client)
  {
    SuffixFits(t, channel);
    NameParses(user, client, TopicString(t).value + "/" + Dec(channel));
    SuffixParses(t, channel, client);
  }

  // ---------- in place on C strings ----------

  predicate NoNul(s: string) {
    forall i :: 0 <= i < |s| ==> s[i] != '\0'
  }

  /** The buffer holds the C string `s`. */
  ghost predicate Holds(a: array<char>, s: string)
    reads a
  {
    |s| < a.Length && a[..|s|] == s && a[|s|] == '\0' && NoNul(s)
  }

  method StrCat(a: array<char>, ghost cur: string, s: string)
    requires Holds(a, cur) && NoNul(s) && |cur| + |s| < a.Length
    modifies a
    ensures Holds(a, cur + s)
  {
    var i := 0;
    while a[i] != '\0'
      invariant 0 <= i <= |cur|
      decreases |cur| - i
    {
      assert a[|cur|] == '\0';
      i := i + 1;
    }
    assert forall k :: 0 <= k < |cur| ==> a[k] == cur[k];
    forall j | 0 <= j < |s| {
      a[i + j] := s[j];
    }
    a[i + |s|] := '\0';
    assert a[..|cur + s|] == cur + s;
  }

  /** The size check passes a name that overruns a buffer of that size exactly when the size is 11 or 12 more. */
  lemma SizeCheckOverruns(length: nat, user: string, client: string, suffix: string)
    ensures var parts := |user| + |client| + |suffix|;
            parts + 11 <= length && |FullName(user, client, suffix)| >= length <==> length - parts in {11, 12}
  {
  }

  /** buildTopic into a buffer with room for the name and its terminator. */
  method BuildTopicInto(a: array<char>, length: nat, user: string, client: string, suffix: string) returns (ok: bool)
    requires NoNul(user) && NoNul(client) && NoNul(suffix) && |FullName(user, client, suffix)| < a.Length
    modifies a
    ensures ok <==> |user| + |client| + |suffix| + 11 <= length
    ensures ok ==> Holds(a, FullName(user, client, suffix))
    ensures !ok ==> a[..] == old(a[..])
  {
    if |user| + |client| + |suffix| + 11 > length {
      return false;
    }
    a[0] := '\0';
    assert a[..0] == "";
    StrCat(a, "", "v1");
    StrCat(a, "" + "v1", "/");
    StrCat(a, "" + "v1" + "/", user);
    ghost var head := "" + "v1" + "/" + user;
    assert head == "v1" + "/" + user;
    StrCat(a, head, "/things/");
    StrCat(a, head + "/things/", client);
    StrCat(a, head + "/things/" + client, "/");
    StrCat(a, head + "/things/" + client + "/", suffix);
    return true;
  }

  /**
   CayenneParseTopic on the caller's string: the result is that of `ParseTopic`, and the string is cut
   behind the client id exactly when the search got that far.
   */
  method ParseInPlace(user: string, a: array<char>, length: nat) returns (p: Parsed, cut: Option<nat>)
    requires length < a.Length && Holds(a, a[..length])
    modifies a
    ensures p == ParseTopic(user, old(a[..length]))
    ensures cut.None? ==> a[..] == old(a[..])
    ensures cut.Some? ==> cut.value < length && old(a[cut.value]) == '/' && a[..] == old(a[..])[cut.value := '\0']
    ensures p.Parsed? ==> cut.Some? && 11 + |user| <= cut.value < length && p.client == old(a[11 + |user|..cut.value])
  {
    cut := None;
    var name := a[..length];
    if length > MAX_MESSAGE {
      return ParseOverflow, None;
    }
    var start := ClientStart(user, name);
    if start.None? {
      return ParseFailure, None;
    }
    var index := start.value;
    var rest := name[index..];
    var end := LevelEnd(rest, 0);
    if end == |rest| {
      return ParseFailure, None;
    }
    cut := Some(index + end);
    assert rest[end] == name[index + end] && rest[..end] == name[index..index + end];
    a[index + end] := '\0';
    p := ParseSuffix(rest[..end], rest[end + 1..]);
  }
}
