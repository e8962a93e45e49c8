/**
 What topic names tell apart: the topic for all channels takes exactly the names of one channel, the kinds never
 share a name, channels share one only when the suffix buffer cuts their digits, and a name is accepted by
 the parser exactly when it is built of the right parts. Matching is on the characters, as the code does it.
 */
module TopicNames {
  import opened Bytes
  import opened Decimal
  import opened Topics

  // ---------- the topic for all channels ----------

  predicate NoWildcard(s: string) {
    forall i :: 0 <= i < |s| ==> s[i] != '+' && s[i] != '#'
  }

  /** `n` is `p` and one more level, not empty, without a separator. */
  predicate OneLevelMore(p: string, n: string) {
    p <= n && n[|p|..] != "" && NoSlash(n[|p|..])
  }

  lemma LoneLevel(n: string)
    ensures MatchRest("+", n) <==> n != "" && NoSlash(n)
  {
    if n != "" {
      assert "+"[1..] == "";
      var j := LevelEnd(n, 1);
      assert j == |n| <==> n[j..] == "";
    }
  }

  /** A plain prefix and a final '+', separators in the prefix or not, any name. */
  lemma {:induction false} PlusAtEnd(p: string, n: string)
    requires NoWildcard(p)
    ensures MatchRest(p + "+", n) <==> OneLevelMore(p, n)
  {
    if p == "" {
      assert p + "+" == "+" && n[0..] == n;
      LoneLevel(n);
    } else {
      assert (p + "+")[0] == p[0] && (p + "+")[1..] == p[1..] + "+";
      if n != "" && n[0] == p[0] {
        PlusAtEnd(p[1..], n[1..]);
        assert p <= n <==> p[1..] <= n[1..];
        assert p <= n ==> n[|p|..] == n[1..][|p[1..]|..];
      }
    }
  }

  lemma FullNameIs(user: string, client: string, a: string, b: string)
    ensures FullName(user, client, a + b) == FullName(user, client, a) + b
  {
  }

  lemma PlainPlus(a: string, b: string)
    requires NoWildcard(a) && NoWildcard(b)
    ensures NoWildcard(a + b)
  {
  }

  lemma PlainPrefix(user: string, client: string, t: Topic)
    requires NoWildcard(user) && NoWildcard(client) && t != Undefined
    ensures NoWildcard(FullName(user, client, TopicString(t).value + "/"))
  {
    PlainPlus("v1" + "/", user);
    PlainPlus("v1" + "/" + user, "/things/");
    PlainPlus("v1" + "/" + user + "/things/", client);
    PlainPlus("v1" + "/" + user + "/things/" + client, "/");
    PlainKind(t);
    PlainPlus("v1" + "/" + user + "/things/" + client + "/", TopicString(t).value + "/");
  }

  lemma PlainKind(t: Topic)
    requires t != Undefined
    ensures NoWildcard(TopicString(t).value + "/")
  {
  }

  /** The topic subscribed to for all channels takes the names with one more level, and no others. */
  lemma AllChannelsExact(length: nat, user: string, client: string, t: Topic, name: string)
    requires NoWildcard(user) && NoWildcard(client) && BuildTopic(length, user, client, t, ALL_CHANNELS).Built?
    ensures MatchRest(BuildTopic(length, user, client, t, ALL_CHANNELS).s, name)
            <==> OneLevelMore(FullName(user, client, TopicString(t).value + "/"), name)
  {
    var ts := TopicString(t).value;
    FullNameIs(user, client, ts + "/", "+");
    PlainPrefix(user, client, t);
    PlusAtEnd(FullName(user, client, ts + "/"), name);
  }

  // ---------- kinds ----------

  /** The kind a suffix shows by single characters. */
  function KindOf(s: string): Topic {
    if |s| < 3 then Undefined
    else if s[0] == 'd' then Data
    else if s[0] == 'r' then Response
    else if s[0] == 'c' then (if s[1] == 'm' then Command else Config)
    else if |s| < 9 then Undefined
    else if s[4] == 'm' then SysModel
    else if s[4] == 'v' then SysVersion
    else if s[8] == 'm' then SysCpuModel
    else SysCpuSpeed
  }

  lemma KindShows(t: Topic, u: string)
    requires t != Undefined
    ensures KindOf(TopicString(t).value + u) == t
  {
  }

  /** What stands behind the topic string: nothing, a wildcard, or the digits that fit. */
  function ChannelText(t: Topic, channel: nat): string
    requires t != Undefined
  {
    if channel == NO_CHANNEL then ""
    else if channel == ALL_CHANNELS then "/+"
    else "/" + Clip(Dec(channel), Keep(t) + 1)
  }

  /** The number of digits a suffix of this kind has room for. */
  function Keep(t: Topic): (k: nat)
    requires t != Undefined
    ensures k >= 5 && k == 18 - |TopicString(t).value|
  {
    18 - |TopicString(t).value|
  }

  lemma SuffixIs(t: Topic, channel: nat)
    requires t != Undefined
    ensures BuildSuffix(t, channel, 20) == Built(TopicString(t).value + ChannelText(t, channel))
  {
    var ts := TopicString(t).value;
    PlusAssoc(ts, "/", Clip(Dec(channel), Keep(t) + 1));
    PlusAssoc(ts, "/", "+");
    assert "/" + "+" == "/+" && ts + "" == ts;
  }

  lemma NameIs(length: nat, user: string, client: string, t: Topic, channel: nat)
    requires BuildTopic(length, user, client, t, channel).Built?
    ensures t != Undefined
    ensures BuildTopic(length, user, client, t, channel).s
            == FullName(user, client, TopicString(t).value + ChannelText(t, channel))
  {
    if t != Undefined {
      SuffixIs(t, channel);
    }
  }

  lemma OneLevelText(t: Topic, channel: nat)
    requires t != Undefined && channel != NO_CHANNEL
    ensures var x := ChannelText(t, channel);
            x != "" && x[0] == '/' && x[1..] != "" && NoSlash(x[1..])
  {
  }

  lemma OneLevelOfKind(t: Topic, t': Topic, channel: nat)
    requires t != Undefined && t' != Undefined
    ensures OneLevelMore(TopicString(t).value + "/", TopicString(t').value + ChannelText(t', channel))
            <==> t == t' && channel != NO_CHANNEL
  {
    if OneLevelMore(TopicString(t).value + "/", TopicString(t').value + ChannelText(t', channel)) {
      SameKind(t, t', ChannelText(t', channel));
    }
    if t == t' {
      OwnLevel(TopicString(t).value, t, channel);
    }
  }

  lemma SameKind(t: Topic, t': Topic, x: string)
    requires t != Undefined && t' != Undefined && TopicString(t).value + "/" <= TopicString(t').value + x
    ensures t == t'
  {
    var ts, s := TopicString(t).value, TopicString(t').value + x;
    var rest := s[|ts + "/"|..];
    assert s == (ts + "/") + rest;
    PlusAssoc(ts, "/", rest);
    KindShows(t', x);
    KindShows(t, "/" + rest);
  }

  lemma OwnLevel(ts: string, t: Topic, channel: nat)
    requires t != Undefined
    ensures OneLevelMore(ts + "/", ts + ChannelText(t, channel)) <==> channel != NO_CHANNEL
  {
    var x := ChannelText(t, channel);
    if channel != NO_CHANNEL {
      OneLevelText(t, channel);
      assert x == "/" + x[1..];
      PlusAssoc(ts, "/", x[1..]);
      assert ((ts + "/") + x[1..])[|ts + "/"|..] == x[1..];
    }
  }

  /** Among the names built for one client, it takes those of its own kind that carry a channel, and no others. */
  lemma AllChannelsTakesBuilt(length: nat, length': nat, user: string, client: string, t: Topic, t': Topic,
                              channel: nat)
    requires NoWildcard(user) && NoWildcard(client) && BuildTopic(length, user, client, t, ALL_CHANNELS).Built?
    requires BuildTopic(length', user, client, t', channel).Built?
    ensures MatchRest(BuildTopic(length, user, client, t, ALL_CHANNELS).s,
                      BuildTopic(length', user, client, t', channel).s)
            <==> t == t' && channel != NO_CHANNEL
  {
    NameIs(length, user, client, t, ALL_CHANNELS);
    NameIs(length', user, client, t', channel);
    var s := TopicString(t').value + ChannelText(t', channel);
    AllChannelsExact(length, user, client, t, FullName(user, client, s));
    LevelsUnder(user, client, TopicString(t).value + "/", s);
    OneLevelOfKind(t, t', channel);
  }

  lemma LevelsUnder(user: string, client: string, p: string, s: string)
    ensures OneLevelMore(FullName(user, client, p), FullName(user, client, s)) <==> OneLevelMore(p, s)
  {
    var head := FullName(user, client, "");
    assert FullName(user, client, p) == head + p && FullName(user, client, s) == head + s;
    if p <= s {
      assert s == p + s[|p|..];
      assert head + s == (head + p) + s[|p|..];
    }
    if head + p <= head + s {
      assert (head + s)[..|head + p|] == head + p;
      assert s == (head + s)[|head|..] && p == (head + p)[|head|..];
      assert s[..|p|] == p;
      assert (head + s)[|head + p|..] == s[|p|..];
    }
  }

  // ---------- different parts, different names ----------

  lemma SplitAtSlash(a: string, x: string, b: string, y: string)
    requires NoSlash(a) && NoSlash(b) && a + "/" + x == b + "/" + y
    ensures a == b && x == y
  {
    var s, r := a + "/" + x, b + "/" + y;
    LevelEndAt(s, 0, |a|);
    LevelEndAt(r, 0, |b|);
    assert s[..|a|] == a && r[..|b|] == b && s[|a| + 1..] == x && r[|b| + 1..] == y;
  }

  lemma NameParts(user: string, client: string, suffix: string)
    ensures FullName(user, client, suffix) == "v1/" + (user + "/" + ("things/" + (client + "/" + suffix)))
  {
  }

  lemma SameFront(f: string, x: string, y: string)
    requires f + x == f + y
    ensures x == y
  {
    assert (f + x)[|f|..] == x && (f + y)[|f|..] == y;
  }

  lemma SameParts(user: string, client: string, suffix: string, user': string, client': string, suffix': string)
    requires NoSlash(user) && NoSlash(user') && NoSlash(client) && NoSlash(client')
    requires FullName(user, client, suffix) == FullName(user', client', suffix')
    ensures user == user' && client == client' && suffix == suffix'
  {
    var x, y := client + "/" + suffix, client' + "/" + suffix';
    NameParts(user, client, suffix);
    NameParts(user', client', suffix');
    SameFront("v1/", user + "/" + ("things/" + x), user' + "/" + ("things/" + y));
    SplitAtSlash(user, "things/" + x, user', "things/" + y);
    SameFront("things/", x, y);
    SplitAtSlash(client, suffix, client', suffix');
  }

  /** Two built names are the same exactly when user, client, kind and the written channel are. */
  lemma SameNames(length: nat, user: string, client: string, t: Topic, channel: nat,
                  length': nat, user': string, client': string, t': Topic, channel': nat)
    requires NoSlash(user) && NoSlash(user') && NoSlash(client) && NoSlash(client')
    requires BuildTopic(length, user, client, t, channel).Built?
    requires BuildTopic(length', user', client', t', channel').Built?
    ensures BuildTopic(length, user, client, t, channel).s == BuildTopic(length', user', client', t', channel').s
            <==> user == user' && client == client' && t == t' && ChannelText(t, channel) == ChannelText(t', channel')
  {
    NameIs(length, user, client, t, channel);
    NameIs(length', user', client', t', channel');
    var ts, ts' := TopicString(t).value, TopicString(t').value;
    var x, x' := ChannelText(t, channel), ChannelText(t', channel');
    if FullName(user, client, ts + x) == FullName(user', client', ts' + x') {
      SameParts(user, client, ts + x, user', client', ts' + x');
      KindShows(t, x);
      KindShows(t', x');
      SameFront(ts, x, x');
    }
  }

  // ---------- channels ----------

  predicate Single(channel: nat) {
    channel < UINT_LIMIT && channel != NO_CHANNEL && channel != ALL_CHANNELS
  }

  /** The number the first `k` digits of `n` show. */
  function Front(n: nat, k: nat): (q: nat)
    requires 1 <= k < |Dec(n)|
    ensures Dec(n)[..k] == Dec(q) && 10 * q <= n
  {
    assert n >= 10 && Dec(n) == Dec(n / 10) + [DigitChar(n % 10)];
    if |Dec(n)| == k + 1 then assert Dec(n)[..k] == Dec(n / 10); n / 10
    else assert Dec(n)[..k] == Dec(n / 10)[..k]; Front(n / 10, k)
  }

  lemma SameDigits(a: nat, b: nat)
    requires Dec(a) == Dec(b)
    ensures a == b
  {
    ValueOfDec(a);
    ValueOfDec(b);
  }

  /** Fewer digits than there is room for, or just as many and no longer number begins with them. */
  predicate OwnText(t: Topic, channel: nat)
    requires t != Undefined
  {
    |Dec(channel)| < Keep(t) || (|Dec(channel)| == Keep(t) && 10 * channel >= UINT_LIMIT)
  }

  lemma OwnTextIsUnique(t: Topic, channel: nat, other: nat)
    requires t != Undefined && Single(channel) && Single(other) && OwnText(t, channel)
    requires ChannelText(t, channel) == ChannelText(t, other)
    ensures channel == other
  {
    var k := Keep(t);
    SameFront("/", Dec(channel), Clip(Dec(other), k + 1));
    if |Dec(other)| <= k {
      SameDigits(channel, other);
    } else {
      SameDigits(channel, Front(other, k));
    }
  }

  /** A number with one more digit, or with another last digit, shares what is written. */
  lemma Longer(n: nat, k: nat)
    requires n > 0 && |Dec(n)| == k
    ensures |Dec(10 * n)| == k + 1 && Clip(Dec(10 * n), k + 1) == Clip(Dec(n), k + 1)
  {
    assert Dec(10 * n) == Dec(n) + [DigitChar(0)];
    assert (Dec(n) + [DigitChar(0)])[..k] == Dec(n);
  }

  lemma Neighbour(n: nat, other: nat, k: nat)
    requires 1 <= k < |Dec(n)| && n / 10 == other / 10
    ensures Clip(Dec(other), k + 1) == Clip(Dec(n), k + 1)
  {
    var d := Dec(n / 10);
    assert n >= 10 && Dec(n) == d + [DigitChar(n % 10)] && Dec(other) == d + [DigitChar(other % 10)];
    assert (d + [DigitChar(n % 10)])[..k] == d[..k] == (d + [DigitChar(other % 10)])[..k];
  }

  /** A channel that shares its written digits with another one. */
  lemma SharedText(t: Topic, channel: nat) returns (other: nat)
    requires t != Undefined && Single(channel) && !OwnText(t, channel)
    ensures Single(other) && other != channel && ChannelText(t, other) == ChannelText(t, channel)
  {
    var k := Keep(t);
    if |Dec(channel)| == k {
      other := 10 * channel;
      ManyDigits(channel, k);
      Longer(channel, k);
      SixDigits(other);
    } else {
      other := if channel % 10 == 0 then channel + 1 else channel - 1;
      SixDigits(channel);
      Neighbour(channel, other, k);
    }
  }

  lemma SixDigits(n: nat)
    requires |Dec(n)| >= 6
    ensures n >= 100000
  {
    ManyDigits(n, 6);
    assert Power(5) == 100000;
  }

  lemma ManyDigits(n: nat, k: nat)
    requires |Dec(n)| >= k >= 2
    ensures n >= Power(k - 1) && n > 0
  {
    if n < Power(k - 1) {
      DecLength(n, k - 1);
    }
  }

  /** A channel has a name of its own exactly when its digits fit and are not the beginning of a longer number's. */
  lemma OwnNameExact(t: Topic, channel: nat)
    requires t != Undefined && Single(channel)
    ensures OwnText(t, channel)
            <==> forall other :: Single(other) && other != channel ==> ChannelText(t, other) != ChannelText(t, channel)
  {
    if OwnText(t, channel) {
      forall other | Single(other) && other != channel
        ensures ChannelText(t, other) != ChannelText(t, channel)
      {
        if ChannelText(t, other) == ChannelText(t, channel) {
          OwnTextIsUnique(t, channel, other);
        }
      }
    } else {
      var other := SharedText(t, channel);
    }
  }

  // ---------- what the parser accepts ----------

  /** Any character may stand where the first separator belongs. */
  function Headed(sep: char, user: string, rest: string): string {
    "v1" + [sep] + user + "/things/" + rest
  }

  lemma HeadedStarts(sep: char, user: string, rest: string)
    ensures ClientStart(user, Headed(sep, user, rest)) == Some(11 + |user|)
    ensures Headed(sep, user, rest)[11 + |user|..] == rest
  {
    var name := Headed(sep, user, rest);
    assert name[..2] == "v1";
    assert name[3..] == user + ("/things/" + rest);
    assert name[3..][..|user|] == user;
    assert name[3 + |user|..] == "/things/" + rest;
    assert ("/things/" + rest)[..8] == "/things/";
    assert name[11 + |user|..] == rest;
  }

  lemma StartsHeaded(user: string, name: string)
    requires ClientStart(user, name).Some?
    ensures 11 + |user| <= |name| && name == Headed(name[2], user, name[11 + |user|..])
  {
    var a, b := name[3..], name[3 + |user|..];
    assert a[|user|..] == b && b[8..] == name[11 + |user|..];
    assert b == b[..8] + b[8..] && a == a[..|user|] + b;
    assert name == name[..2] + [name[2]] + a;
  }

  /** The name of a kind, a client and the text of a channel, with any character behind the version. */
  predicate NameOf(name: string, sep: char, user: string, client: string, t: Topic, d: string) {
    && (t == Command || t == Config)
    && name == Headed(sep, user, client + "/" + (TopicString(t).value + "/" + d))
    && NoSlash(client) && NoSlash(d) && d != ""
    && |TopicString(t).value + "/" + d| <= 31 && |name| <= MAX_MESSAGE
  }

  lemma KindOfSuffix(suffix: string, t: Topic)
    requires t == Command || t == Config
    ensures SuffixTopic(suffix) == t <==> OneLevelMore(TopicString(t).value + "/", suffix)
  {
    assert "cmd/+" == "cmd/" + "+" && "conf/+" == "conf/" + "+";
    assert "cmd" + "/" == "cmd/" && "conf" + "/" == "conf/";
    PlusAtEnd("cmd/", suffix);
    PlusAtEnd("conf/", suffix);
  }

  lemma RestParses(user: string, name: string, client: string, suffix: string)
    requires ClientStart(user, name) == Some(11 + |user|) && |name| <= MAX_MESSAGE && NoSlash(client)
    requires 11 + |user| <= |name| && name[11 + |user|..] == client + "/" + suffix
    ensures ParseTopic(user, name) == ParseSuffix(client, suffix)
  {
    var rest := client + "/" + suffix;
    LevelEndAt(rest, 0, |client|);
    assert rest[..|client|] == client && rest[|client| + 1..] == suffix;
  }

  lemma KindParses(client: string, t: Topic, d: string)
    requires (t == Command || t == Config) && NoSlash(d) && d != "" && |TopicString(t).value + "/" + d| <= 31
    ensures ParseSuffix(client, TopicString(t).value + "/" + d)
            == Parsed(t, ChannelOf(TopicString(t).value + "/" + d), client)
  {
    SuffixKind(t, d);
  }

  lemma NameIsParsed(name: string, sep: char, user: string, client: string, t: Topic, d: string)
    requires NameOf(name, sep, user, client, t, d)
    ensures ParseTopic(user, name) == Parsed(t, ChannelOf(TopicString(t).value + "/" + d), client)
  {
    var suffix := TopicString(t).value + "/" + d;
    PlusAssoc(client, "/", suffix);
    HeadedStarts(sep, user, client + "/" + suffix);
    RestParses(user, name, client, suffix);
    KindParses(client, t, d);
  }

  lemma SuffixKind(t: Topic, d: string)
    requires (t == Command || t == Config) && NoSlash(d) && d != ""
    ensures SuffixTopic(TopicString(t).value + "/" + d) == t
  {
    var p := TopicString(t).value + "/";
    assert (p + d)[|p|..] == d;
    KindOfSuffix(p + d, t);
  }

  lemma ParsedRest(user: string, name: string) returns (client: string, suffix: string)
    requires ParseTopic(user, name).Parsed?
    ensures ClientStart(user, name).Some? && 11 + |user| <= |name| <= MAX_MESSAGE && NoSlash(client)
    ensures name[11 + |user|..] == client + "/" + suffix && ParseTopic(user, name) == ParseSuffix(client, suffix)
  {
    StartIs(user, name);
    var rest := name[11 + |user|..];
    var i := LevelEnd(rest, 0);
    client, suffix := rest[..i], rest[i + 1..];
    AtLevelEnd(rest, i);
  }

  lemma StartIs(user: string, name: string)
    requires ClientStart(user, name).Some?
    ensures ClientStart(user, name) == Some(11 + |user|) && 11 + |user| <= |name|
  {
  }

  lemma AtLevelEnd(rest: string, i: nat)
    requires i < |rest| && rest[i] == '/'
    ensures rest == rest[..i] + "/" + rest[i + 1..]
  {
  }

  lemma ParsedKind(client: string, suffix: string) returns (d: string)
    requires ParseSuffix(client, suffix).Parsed?
    ensures var t := ParseSuffix(client, suffix).topic;
            && (t == Command || t == Config) && suffix == TopicString(t).value + "/" + d && NoSlash(d) && d != ""
            && |suffix| <= 31 && ParseSuffix(client, suffix).channel == ChannelOf(suffix)
  {
    var t := SuffixTopic(suffix);
    KindOfSuffix(suffix, t);
    d := suffix[|TopicString(t).value + "/"|..];
  }

  lemma ParsedIsName(user: string, name: string)
    requires ParseTopic(user, name).Parsed?
    ensures var p := ParseTopic(user, name);
            exists sep, d :: NameOf(name, sep, user, p.client, p.topic, d)
                             && p.channel == ChannelOf(TopicString(p.topic).value + "/" + d)
  {
    var client, suffix := ParsedRest(user, name);
    var d := ParsedKind(client, suffix);
    StartsHeaded(user, name);
    PlusAssoc(client, "/", suffix);
    assert NameOf(name, name[2], user, client, SuffixTopic(suffix), d);
  }

  /** The parser accepts exactly the names made of these parts, and reads the channel from the last one. */
  lemma ParseExact(user: string, name: string, t: Topic, channel: nat, client: string)
    ensures ParseTopic(user, name) == Parsed(t, channel, client)
            <==> exists sep, d :: NameOf(name, sep, user, client, t, d)
                                  && channel == ChannelOf(TopicString(t).value + "/" + d)
  {
    if ParseTopic(user, name) == Parsed(t, channel, client) {
      ParsedIsName(user, name);
    }
    if sep, d :| NameOf(name, sep, user, client, t, d) && channel == ChannelOf(TopicString(t).value + "/" + d) {
      NameIsParsed(name, sep, user, client, t, d);
    }
  }

  /** A text of digits is its number, cut at 32 bits, unless it has a leading zero. */
  lemma ChannelOfDigits(ts: string, d: string)
    requires d != "" && forall i :: 0 <= i < |d| ==> IsDigit(d[i])
    ensures ChannelOf(ts + "/" + d)
            == if |d| > 1 && d[0] == '0' then NO_CHANNEL
               else if Value(d) >= UINT_LIMIT then UINT_LIMIT - 1 else Value(d)
  {
    LastSlashAt(ts, d);
    assert (ts + "/" + d)[|ts| + 1..] == d;
    TakesAll(d);
    ZeroValue(d);
  }

  lemma TakesAll(d: string)
    requires d != "" && forall i :: 0 <= i < |d| ==> IsDigit(d[i])
    ensures StrToUl(d) == (if Value(d) >= UINT_LIMIT then UINT_LIMIT - 1 else Value(d), |d|)
  {
    AllDigits(d);
    assert SkipSpace(d) == 0 && d[0..] == d && d[..|d|] == d;
  }

  /** Without a leading zero only "0" denotes zero. */
  lemma {:induction false} ZeroValue(d: string)
    requires d != "" && forall i :: 0 <= i < |d| ==> IsDigit(d[i])
    ensures d[0] != '0' ==> Value(d) > 0
    ensures d == "0" ==> Value(d) == 0
  {
    if |d| == 1 {
      assert d[..0] == "" && Value(d[..0]) == 0;
    } else {
      ZeroValue(d[..|d| - 1]);
    }
  }
}
