/** What crosses the wire between a page and the change stream: topics,
    `topic@version` tokens, the URL's watch list, change events and their IDs
    (live/stream.go, live/live.go). */
module LiveWire {
  import opened Digits
  import opened Text

  // ---------- Topics and tokens ----------

  predicate NameRune(c: char) {
    'a' <= c <= 'z' || '0' <= c <= '9' || c == '-'
  }

  predicate KeyRune(c: char) {
    'a' <= c <= 'z' || 'A' <= c <= 'Z' || '0' <= c <= '9' || c == '_' || c == '-'
  }

  /** ^[a-z][a-z0-9-]{0,31}$ */
  predicate ValidName(s: string) {
    0 < |s| <= 32 && 'a' <= s[0] <= 'z' && forall i | 1 <= i < |s| :: NameRune(s[i])
  }

  /** ^[A-Za-z0-9_-]{1,64}$ */
  predicate ValidKey(s: string) {
    0 < |s| <= 64 && forall i | 0 <= i < |s| :: KeyRune(s[i])
  }

  /** The part of a topic before its first slash. */
  function NameOf(topic: string): string {
    topic[..IndexOf(topic, '/')]
  }

  /** parseTopic accepts "name" and "name/key". */
  predicate ValidTopic(topic: string) {
    var i := IndexOf(topic, '/');
    ValidName(topic[..i]) && (i < |topic| ==> ValidKey(topic[i + 1..]))
  }

  method CheckName(s: string) returns (ok: bool)
    ensures ok == ValidName(s)
    ensures ok <==> 1 <= |s| <= 32 && 'a' <= s[0] <= 'z'
                    && forall i | 1 <= i < |s| :: 'a' <= s[i] <= 'z' || '0' <= s[i] <= '9' || s[i] == '-'
  {
    if |s| == 0 || |s| > 32 || s[0] < 'a' || s[0] > 'z' {
      return false;
    }
    for i := 1 to |s|
      invariant forall j | 1 <= j < i :: NameRune(s[j])
    {
      var c := s[i];
      if !('a' <= c <= 'z' || '0' <= c <= '9' || c == '-') {
        return false;
      }
    }
    return true;
  }

  method CheckKey(s: string) returns (ok: bool)
    ensures ok == ValidKey(s)
    ensures ok <==> 1 <= |s| <= 64 && forall i | 0 <= i < |s| ::
                      'a' <= s[i] <= 'z' || 'A' <= s[i] <= 'Z' || '0' <= s[i] <= '9' || s[i] == '_' || s[i] == '-'
  {
    if |s| == 0 || |s| > 64 {
      return false;
    }
    for i := 0 to |s|
      invariant forall j | 0 <= j < i :: KeyRune(s[j])
    {
      var c := s[i];
      if !('a' <= c <= 'z' || 'A' <= c <= 'Z' || '0' <= c <= '9' || c == '_' || c == '-') {
        return false;
      }
    }
    return true;
  }

  function Token(topic: string, v: nat): string {
    topic + "@" + Format(v)
  }

  /** parseToken: the topic and version of "topic@version". */
  function ParseToken(s: string): Option<(string, nat)> {
    var i := LastIndexOf(s, '@');
    if i < 0 || !ValidTopic(s[..i]) then None
    else
      var num := s[i + 1..];
      if num == "" || !AllDigits(num) || Value(num) > MAX_U64 then None
      else Some((s[..i], Value(num)))
  }

  /** A topic is a name, or a name, a slash and a key. */
  lemma TopicsExactlyWhen(topic: string)
    ensures ValidTopic(topic) <==>
              || ValidName(topic)
              || exists name, key :: topic == name + "/" + key && ValidName(name) && ValidKey(key)
  {
    var i := IndexOf(topic, '/');
    if ValidTopic(topic) {
      if i < |topic| {
        assert topic == topic[..i] + "/" + topic[i + 1..];
      } else {
        assert topic[..i] == topic;
      }
    }
    if ValidName(topic) {
      NameHasNoSlash(topic);
      assert topic[..i] == topic;
    } else if name, key :| topic == name + "/" + key && ValidName(name) && ValidKey(key) {
      NameHasNoSlash(name);
      SlashAfter(name, key);
    }
  }

  lemma NameHasNoSlash(name: string)
    requires ValidName(name)
    ensures forall i | 0 <= i < |name| :: name[i] != '/'
    ensures IndexOf(name, '/') == |name|
  {
    forall i | 0 <= i < |name|
      ensures name[i] != '/'
    {
      assert i == 0 || NameRune(name[i]);
    }
  }

  lemma SlashAfter(name: string, key: string)
    requires forall i | 0 <= i < |name| :: name[i] != '/'
    ensures var topic := name + "/" + key;
            IndexOf(topic, '/') == |name| && topic[..|name|] == name && topic[|name| + 1..] == key
  {
    var topic := name + "/" + key;
    assert topic[|name|] == '/';
    assert forall i | 0 <= i < |name| :: topic[i] == name[i];
  }

  lemma ValidTopicRunes(topic: string)
    requires ValidTopic(topic)
    ensures topic != "" && Spaceless(topic)
    ensures forall i | 0 <= i < |topic| :: topic[i] != '@'
  {
    var k := IndexOf(topic, '/');
    forall i | 0 <= i < |topic|
      ensures !IsSpace(topic[i]) && topic[i] != '@'
    {
      if i < k {
        assert topic[i] == topic[..k][i];
        assert i == 0 || NameRune(topic[i]);
      } else if i > k {
        assert topic[i] == topic[k + 1..][i - k - 1];
      }
    }
  }

  /** parseToken undoes token, for every topic the hub can hold. */
  lemma TokenRoundTrip(topic: string, v: nat)
    requires ValidTopic(topic) && v <= MAX_U64
    ensures ParseToken(Token(topic, v)) == Some((topic, v))
  {
    ValidTopicRunes(topic);
    FormatRoundTrip(v);
    var s := Token(topic, v);
    assert s[|topic|] == '@' && s[..|topic|] == topic && s[|topic| + 1..] == Format(v);
    forall j | |topic| < j < |s|
      ensures s[j] != '@'
    {
      assert s[j] == Format(v)[j - |topic| - 1];
    }
    assert LastIndexOf(s, '@') == |topic|;
  }

  /** A token is read exactly when it is a topic, an at sign and digits that
      write a uint64; and then as that topic and that number. */
  lemma TokensExactlyWhen(s: string, topic: string, v: nat)
    ensures ParseToken(s) == Some((topic, v)) <==>
              exists num :: s == topic + "@" + num && ValidTopic(topic) && num != "" && AllDigits(num) && v == Value(num)
                            && v <= MAX_U64
  {
    if ParseToken(s) == Some((topic, v)) {
      var i := LastIndexOf(s, '@');
      assert s == s[..i] + "@" + s[i + 1..];
    }
    if num :| s == topic + "@" + num && ValidTopic(topic) && num != "" && AllDigits(num) && v == Value(num) && v <= MAX_U64 {
      ValidTopicRunes(topic);
      assert s[|topic|] == '@' && s[..|topic|] == topic && s[|topic| + 1..] == num;
      forall j | |topic| < j < |s|
        ensures s[j] != '@'
      {
        assert s[j] == num[j - |topic| - 1];
      }
      assert LastIndexOf(s, '@') == |topic|;
    }
  }

  lemma TokenSpaceless(topic: string, v: nat)
    requires ValidTopic(topic)
    ensures Token(topic, v) != "" && Spaceless(Token(topic, v))
  {
    ValidTopicRunes(topic);
    FormatRoundTrip(v);
    var s := Token(topic, v);
    forall j | 0 <= j < |s|
      ensures !IsSpace(s[j])
    {
      if j < |topic| {
        assert s[j] == topic[j];
      } else if j > |topic| {
        assert s[j] == Format(v)[j - |topic| - 1];
        assert IsDigit(s[j]);
      }
    }
  }

  // ---------- Watches ----------

  /** One topic a stream follows, the version its client has, and whether
      that version is another boot's. */
  datatype Watch = Watch(topic: string, known: U64, stale: bool)

  const MAX_TOPICS := 64

  predicate Distinct(ws: seq<Watch>) {
    forall i, j | 0 <= i < j < |ws| :: ws[i].topic != ws[j].topic
  }

  predicate ValidTopics(ws: seq<Watch>) {
    forall i | 0 <= i < |ws| :: ValidTopic(ws[i].topic)
  }

  predicate WellFormed(ws: seq<Watch>) {
    Distinct(ws) && ValidTopics(ws)
  }

  /** The position of topic in ws, or |ws|. */
  function Find(ws: seq<Watch>, topic: string): (i: nat)
    ensures i <= |ws|
    ensures forall j | 0 <= j < i :: ws[j].topic != topic
    ensures i < |ws| ==> ws[i].topic == topic
  {
    if ws == [] || ws[0].topic == topic then 0 else 1 + Find(ws[1..], topic)
  }

  function Min(a: U64, b: U64): U64 {
    if a <= b then a else b
  }

  /** One t parameter added to the watches read so far; a topic named twice
      keeps the lower version. */
  function AddWatch(ws: seq<Watch>, topic: string, v: U64, stale: bool): seq<Watch> {
    var i := Find(ws, topic);
    if i < |ws| then ws[i := ws[i].(known := Min(ws[i].known, v))]
    else ws + [Watch(topic, v, stale)]
  }

  function ParseFrom(raw: seq<string>, ws: seq<Watch>, stale: bool): Option<seq<Watch>> {
    if raw == [] then Some(ws)
    else match ParseToken(raw[0])
      case None => None
      case Some((topic, v)) => ParseFrom(raw[1..], AddWatch(ws, topic, v, stale), stale)
  }

  function ParseWatches(raw: seq<string>, stale: bool): Option<seq<Watch>> {
    if |raw| == 0 || |raw| > MAX_TOPICS then None else ParseFrom(raw, [], stale)
  }

  ghost predicate AllStale(ws: seq<Watch>, stale: bool) {
    forall i | 0 <= i < |ws| :: ws[i].stale == stale
  }

  /** Every entry of ws is still in r, no newer than it was. */
  ghost predicate Kept(ws: seq<Watch>, r: seq<Watch>) {
    |ws| <= |r| && forall i | 0 <= i < |ws| :: r[i].topic == ws[i].topic && r[i].known <= ws[i].known
  }

  ghost predicate Owes(r: seq<Watch>, topic: string, v: U64) {
    exists i :: 0 <= i < |r| && r[i].topic == topic && r[i].known <= v
  }

  lemma AddWatchSound(ws: seq<Watch>, topic: string, v: U64, stale: bool)
    requires WellFormed(ws) && AllStale(ws, stale) && ValidTopic(topic)
    ensures var r := AddWatch(ws, topic, v, stale);
            WellFormed(r) && AllStale(r, stale) && Kept(ws, r) && Owes(r, topic, v)
  {
    var r := AddWatch(ws, topic, v, stale);
    assert r[Find(ws, topic)].topic == topic;
  }

  /** What parseWatches keeps of its list: well formed, every entry as stale
      as asked, nothing already read made newer. */
  lemma {:induction false} ParseFromSound(raw: seq<string>, ws: seq<Watch>, stale: bool)
    requires WellFormed(ws) && AllStale(ws, stale)
    requires ParseFrom(raw, ws, stale).Some?
    ensures var r := ParseFrom(raw, ws, stale).value;
            WellFormed(r) && AllStale(r, stale) && Kept(ws, r)
  {
    if raw != [] {
      var (topic, v) := ParseToken(raw[0]).value;
      AddWatchSound(ws, topic, v, stale);
      ParseFromSound(raw[1..], AddWatch(ws, topic, v, stale), stale);
    }
  }

  lemma KeptOwes(ws: seq<Watch>, r: seq<Watch>, topic: string, v: U64)
    requires Kept(ws, r) && Owes(ws, topic, v)
    ensures Owes(r, topic, v)
  {
    var i :| 0 <= i < |ws| && ws[i].topic == topic && ws[i].known <= v;
    assert r[i].topic == topic;
  }

  /** A topic the URL names is watched from no newer a version than the URL
      gave it: of two regions' versions, the lower is the one still owed. */
  lemma {:induction false} ParseFromOwes(raw: seq<string>, ws: seq<Watch>, stale: bool, topic: string, v: U64)
    requires WellFormed(ws) && AllStale(ws, stale)
    requires ParseFrom(raw, ws, stale).Some?
    requires ValidTopic(topic) && Token(topic, v) in raw
    ensures Owes(ParseFrom(raw, ws, stale).value, topic, v)
  {
    var (t, u) := ParseToken(raw[0]).value;
    var next := AddWatch(ws, t, u, stale);
    AddWatchSound(ws, t, u, stale);
    if raw[0] == Token(topic, v) {
      TokenRoundTrip(topic, v);
      ParseFromSound(raw[1..], next, stale);
      KeptOwes(next, ParseFrom(raw, ws, stale).value, topic, v);
    } else {
      ParseFromOwes(raw[1..], next, stale, topic, v);
    }
  }

  /** Each watch is some token's own, of those read so far or those there
      were. */
  ghost predicate FromTokens(r: seq<Watch>, raw: seq<string>, ws: seq<Watch>) {
    forall w | w in r :: NamedBy(raw, w.topic, w.known) || exists i :: 0 <= i < |ws| && ws[i].topic == w.topic && ws[i].known == w.known
  }

  ghost predicate NamedBy(raw: seq<string>, topic: string, v: U64) {
    exists k :: 0 <= k < |raw| && ParseToken(raw[k]) == Some((topic, v))
  }

  lemma AddWatchFrom(ws: seq<Watch>, topic: string, v: U64, stale: bool)
    ensures forall w | w in AddWatch(ws, topic, v, stale) ::
              || (w.topic == topic && w.known == v)
              || exists i :: 0 <= i < |ws| && ws[i].topic == w.topic && ws[i].known == w.known
  {
    var r := AddWatch(ws, topic, v, stale);
    forall w | w in r
      ensures (w.topic == topic && w.known == v) || exists i :: 0 <= i < |ws| && ws[i].topic == w.topic && ws[i].known == w.known
    {
      var j :| 0 <= j < |r| && r[j] == w;
      assert j < |ws| ==> ws[j].topic == w.topic;
    }
  }

  lemma NamedLater(raw: seq<string>, topic: string, v: U64)
    requires raw != [] && NamedBy(raw[1..], topic, v)
    ensures NamedBy(raw, topic, v)
  {
    var k :| 0 <= k < |raw[1..]| && ParseToken(raw[1..][k]) == Some((topic, v));
    assert raw[k + 1] == raw[1..][k];
  }

  lemma {:induction false} ParseFromNamed(raw: seq<string>, ws: seq<Watch>, stale: bool)
    ensures ParseFrom(raw, ws, stale).Some? <==> forall k | 0 <= k < |raw| :: ParseToken(raw[k]).Some?
    ensures ParseFrom(raw, ws, stale).Some? ==> FromTokens(ParseFrom(raw, ws, stale).value, raw, ws)
  {
    if raw != [] && ParseToken(raw[0]).Some? {
      var (topic, v) := ParseToken(raw[0]).value;
      var next := AddWatch(ws, topic, v, stale);
      ParseFromNamed(raw[1..], next, stale);
      AddWatchFrom(ws, topic, v, stale);
      assert forall k | 1 <= k < |raw| :: raw[k] == raw[1..][k - 1];
      if ParseFrom(raw, ws, stale).Some? {
        forall w | w in ParseFrom(raw, ws, stale).value
          ensures NamedBy(raw, w.topic, w.known) || exists i :: 0 <= i < |ws| && ws[i].topic == w.topic && ws[i].known == w.known
        {
          if NamedBy(raw[1..], w.topic, w.known) {
            NamedLater(raw, w.topic, w.known);
          } else {
            var i :| 0 <= i < |next| && next[i].topic == w.topic && next[i].known == w.known;
            assert next[i] in next;
            assert ParseToken(raw[0]) == Some((topic, v));
          }
        }
      }
    }
  }

  lemma {:induction false} ParsedOwes(raw: seq<string>, ws: seq<Watch>, stale: bool, topic: string, v: U64)
    requires WellFormed(ws) && AllStale(ws, stale) && ParseFrom(raw, ws, stale).Some? && NamedBy(raw, topic, v)
    ensures Owes(ParseFrom(raw, ws, stale).value, topic, v)
  {
    var k :| 0 <= k < |raw| && ParseToken(raw[k]) == Some((topic, v));
    var (t, u) := ParseToken(raw[0]).value;
    var next := AddWatch(ws, t, u, stale);
    AddWatchSound(ws, t, u, stale);
    if k == 0 {
      ParseFromSound(raw[1..], next, stale);
      KeptOwes(next, ParseFrom(raw, ws, stale).value, topic, v);
    } else {
      assert raw[1..][k - 1] == raw[k];
      ParsedOwes(raw[1..], next, stale, topic, v);
    }
  }

  /** A list is taken exactly when it has 1 to 64 entries and every one is a
      token; and then each topic named is watched once, from the lowest version
      it is named with, and nothing else is. */
  lemma WatchesExactlyWhen(raw: seq<string>, stale: bool)
    ensures ParseWatches(raw, stale).Some? <==> 1 <= |raw| <= 64 && forall k | 0 <= k < |raw| :: ParseToken(raw[k]).Some?
    ensures ParseWatches(raw, stale).Some? ==>
              var ws := ParseWatches(raw, stale).value;
              && Distinct(ws) && (forall w | w in ws :: w.stale == stale && NamedBy(raw, w.topic, w.known))
              && forall topic: string, v: U64 | NamedBy(raw, topic, v) :: Owes(ws, topic, v)
  {
    ParseFromNamed(raw, [], stale);
    if ParseWatches(raw, stale).Some? {
      ParseFromSound(raw, [], stale);
      forall topic: string, v: U64 | NamedBy(raw, topic, v)
        ensures Owes(ParseWatches(raw, stale).value, topic, v)
      {
        ParsedOwes(raw, [], stale, topic, v);
      }
    }
  }

  // ---------- Resuming from an event ID ----------

  /** The versions an ID's tokens name, the last of a repeated topic winning;
      None when any token is malformed. */
  function Versions(tokens: seq<string>): Option<map<string, nat>> {
    if tokens == [] then Some(map[])
    else match (ParseToken(tokens[0]), Versions(tokens[1..]))
      case (Some((topic, v)), Some(rest)) => Some(map[topic := v] + rest)
      case _ => None
  }

  function Advance(ws: seq<Watch>, versions: map<string, nat>): (r: seq<Watch>)
    requires forall t | t in versions :: versions[t] <= MAX_U64
    ensures |r| == |ws|
  {
    seq(|ws|, i requires 0 <= i < |ws| =>
      if ws[i].topic in versions then Watch(ws[i].topic, versions[ws[i].topic], false) else ws[i])
  }

  lemma {:induction false} VersionsBounded(tokens: seq<string>)
    requires Versions(tokens).Some?
    ensures forall t | t in Versions(tokens).value :: Versions(tokens).value[t] <= MAX_U64
  {
    if tokens != [] {
      VersionsBounded(tokens[1..]);
    }
  }

  /** resume: the watches after a Last-Event-ID, which counts only when its
      boot is this process's and all of it parses. */
  function Resume(ws: seq<Watch>, id: string, boot: string): (r: seq<Watch>)
    ensures |r| == |ws|
  {
    var fields := Fields(id);
    if fields == [] || fields[0] != boot || Versions(fields[1..]).None? then ws
    else
      VersionsBounded(fields[1..]);
      Advance(ws, Versions(fields[1..]).value)
  }

  // ---------- Change events ----------

  datatype Event = Event(boot: string, topic: string, version: U64, id: string)

  /** The tokens of an event ID: every watch that is not stale. */
  function Tokens(ws: seq<Watch>): seq<string> {
    if ws == [] then []
    else (if ws[0].stale then [] else [Token(ws[0].topic, ws[0].known)]) + Tokens(ws[1..])
  }

  function IdTail(ws: seq<Watch>): string {
    if ws == [] then ""
    else (if ws[0].stale then "" else " " + Token(ws[0].topic, ws[0].known)) + IdTail(ws[1..])
  }

  function Id(boot: string, ws: seq<Watch>): string {
    boot + IdTail(ws)
  }

  /** The hub counter for a topic moved past what the client has. */
  predicate Moved(w: Watch, current: U64) {
    w.stale || current > w.known
  }

  function Caught(ws: seq<Watch>, i: nat, current: U64): seq<Watch>
    requires i < |ws|
  {
    ws[i := Watch(ws[i].topic, current, false)]
  }

  /** changes from watch i on, against one reading of the counters: the
      watches it leaves and the events it writes. */
  function Changes(boot: string, ws: seq<Watch>, cur: seq<U64>, i: nat): (seq<Watch>, seq<Event>)
    requires i <= |ws| == |cur|
    decreases |ws| - i
  {
    if i == |ws| then (ws, [])
    else if !Moved(ws[i], cur[i]) then Changes(boot, ws, cur, i + 1)
    else
      var after := Caught(ws, i, cur[i]);
      var (last, events) := Changes(boot, after, cur, i + 1);
      (last, [Event(boot, ws[i].topic, cur[i], Id(boot, after))] + events)
  }

  /** The watches once the first n are told: each of them that was stale or
      behind its counter is level with it, and every other is as it was. */
  function Told(ws: seq<Watch>, cur: seq<U64>, n: nat): (r: seq<Watch>)
    requires n <= |ws| == |cur|
    ensures |r| == |ws|
  {
    seq(|ws|, j requires 0 <= j < |ws| =>
      if j < n && (ws[j].stale || cur[j] > ws[j].known) then Watch(ws[j].topic, cur[j], false) else ws[j])
  }

  /** The positions from i on of the watches a pass owes an event, in order. */
  ghost predicate Picks(ws: seq<Watch>, cur: seq<U64>, i: nat, picks: seq<nat>)
    requires |ws| == |cur|
  {
    && (forall k, m | 0 <= k < m < |picks| :: picks[k] < picks[m])
    && forall j: nat :: j in picks <==> i <= j < |ws| && (ws[j].stale || cur[j] > ws[j].known)
  }

  /** The events for those positions: each of its own topic at its counter,
      under the ID of the watches told up to it. */
  ghost predicate EventsFor(boot: string, ws: seq<Watch>, cur: seq<U64>, picks: seq<nat>, events: seq<Event>)
    requires |ws| == |cur|
  {
    && |events| == |picks|
    && forall k | 0 <= k < |picks| ::
         picks[k] < |ws|
         && events[k] == Event(boot, ws[picks[k]].topic, cur[picks[k]], Id(boot, Told(ws, cur, picks[k] + 1)))
  }

  lemma ToldStep(ws: seq<Watch>, cur: seq<U64>, i: nat)
    requires i < |ws| == |cur|
    ensures Told(ws, cur, i + 1)
         == if ws[i].stale || cur[i] > ws[i].known then Caught(Told(ws, cur, i), i, cur[i]) else Told(ws, cur, i)
  {
  }

  lemma PicksStep(ws: seq<Watch>, cur: seq<U64>, i: nat, rest: seq<nat>)
    requires i < |ws| == |cur| && Picks(ws, cur, i + 1, rest)
    ensures Picks(ws, cur, i, if ws[i].stale || cur[i] > ws[i].known then [i] + rest else rest)
  {
    var picks := [i] + rest;
    assert forall j: nat :: j in picks <==> j == i || j in rest;
    assert forall k | 0 <= k < |rest| :: rest[k] in rest;
  }

  lemma EventsStep(boot: string, ws: seq<Watch>, cur: seq<U64>, i: nat, rest: seq<nat>, events: seq<Event>)
    requires i < |ws| == |cur| && EventsFor(boot, ws, cur, rest, events)
    ensures EventsFor(boot, ws, cur, [i] + rest,
                      [Event(boot, ws[i].topic, cur[i], Id(boot, Told(ws, cur, i + 1)))] + events)
  {
  }

  lemma {:induction false} PassFrom(boot: string, ws: seq<Watch>, cur: seq<U64>, i: nat) returns (picks: seq<nat>)
    requires i <= |ws| == |cur|
    ensures Picks(ws, cur, i, picks)
    ensures var (last, events) := Changes(boot, Told(ws, cur, i), cur, i);
            last == Told(ws, cur, |ws|) && EventsFor(boot, ws, cur, picks, events)
    decreases |ws| - i
  {
    if i == |ws| {
      picks := [];
    } else {
      var rest := PassFrom(boot, ws, cur, i + 1);
      ToldStep(ws, cur, i);
      PicksStep(ws, cur, i, rest);
      picks := if ws[i].stale || cur[i] > ws[i].known then [i] + rest else rest;
      EventsStep(boot, ws, cur, i, rest, Changes(boot, Told(ws, cur, i + 1), cur, i + 1).1);
    }
  }

  /** A pass writes one event for each watch that is stale or behind its
      counter, in the watches' order, and none for any other; those watches
      end level and every other is left as it was. */
  lemma PassIsExact(boot: string, ws: seq<Watch>, cur: seq<U64>) returns (picks: seq<nat>)
    requires |ws| == |cur|
    ensures Picks(ws, cur, 0, picks)
    ensures var (last, events) := Changes(boot, ws, cur, 0);
            last == Told(ws, cur, |ws|) && EventsFor(boot, ws, cur, picks, events)
  {
    assert Told(ws, cur, 0) == ws;
    picks := PassFrom(boot, ws, cur, 0);
  }

  lemma FirstPick(picks: seq<nat>)
    ensures picks == [] || exists j: nat :: j in picks
  {
    if picks != [] {
      assert picks[0] in picks;
    }
  }

  /** So a pass over watches that are level writes nothing at all. */
  lemma LevelIsSilent(boot: string, ws: seq<Watch>, cur: seq<U64>)
    requires |ws| == |cur| && forall j | 0 <= j < |ws| :: !ws[j].stale && cur[j] <= ws[j].known
    ensures Changes(boot, ws, cur, 0) == (ws, [])
  {
    var picks := PassIsExact(boot, ws, cur);
    assert Told(ws, cur, |ws|) == ws;
    FirstPick(picks);
  }

  /** The bytes of one event on the stream. */
  function EventText(e: Event): string {
    "event: change\ndata: " + Token(e.topic, e.version) + "\nid: " + e.id + "\n\n"
  }

  function Render(events: seq<Event>): string {
    if events == [] then "" else EventText(events[0]) + Render(events[1..])
  }

  lemma {:induction false} RenderAppend(events: seq<Event>, e: Event)
    ensures Render(events + [e]) == Render(events) + EventText(e)
  {
    if events == [] {
      assert events + [e] == [e];
      assert Render([e]) == EventText(e) + "";
    } else {
      assert (events + [e])[1..] == events[1..] + [e];
      RenderAppend(events[1..], e);
      assert EventText(events[0]) + (Render(events[1..]) + EventText(e))
        == (EventText(events[0]) + Render(events[1..])) + EventText(e);
    }
  }

  // ---------- An ID holds the stream's whole state ----------

  /** ws differs from what the URL alone gives only by topics this boot has
      told the client about. */
  predicate Derived(base: seq<Watch>, ws: seq<Watch>) {
    && |ws| == |base|
    && forall i | 0 <= i < |ws| ::
         ws[i].topic == base[i].topic && (ws[i].stale ==> ws[i] == base[i])
  }

  ghost predicate ValidBoot(boot: string) {
    boot != "" && Spaceless(boot)
  }

  lemma {:induction false} IdFields(word: string, ws: seq<Watch>)
    requires word != "" && Spaceless(word) && ValidTopics(ws)
    ensures Fields(word + IdTail(ws)) == [word] + Tokens(ws)
    decreases |ws|
  {
    if ws == [] {
      assert word + "" == word;
      FieldsFirst(word, "");
    } else {
      var tail := ws[1..];
      assert ValidTopics(tail);
      if ws[0].stale {
        assert IdTail(ws) == IdTail(tail) && Tokens(ws) == Tokens(tail);
        IdFields(word, tail);
      } else {
        var token := Token(ws[0].topic, ws[0].known);
        TokenSpaceless(ws[0].topic, ws[0].known);
        IdFields(token, tail);
        IdTailStep(word, token, IdTail(tail));
      }
    }
  }

  lemma SpaceFirst(token: string, tail: string)
    ensures var rest := (" " + token) + tail; rest[0] == ' ' && rest[1..] == token + tail
  {
  }

  lemma SkipsSpace(rest: string)
    requires rest != "" && rest[0] == ' '
    ensures Fields(rest) == Fields(rest[1..])
  {
  }

  lemma IdTailStep(word: string, token: string, tail: string)
    requires word != "" && Spaceless(word)
    ensures Fields(word + ((" " + token) + tail)) == [word] + Fields(token + tail)
  {
    var rest := (" " + token) + tail;
    SpaceFirst(token, tail);
    SkipsSpace(rest);
    FieldsFirst(word, rest);
  }

  ghost predicate Names(ws: seq<Watch>, versions: map<string, nat>) {
    forall i | 0 <= i < |ws| && !ws[i].stale :: ws[i].topic in versions && versions[ws[i].topic] == ws[i].known
  }

  ghost predicate OnlyNames(ws: seq<Watch>, versions: map<string, nat>) {
    forall t | t in versions :: exists i :: 0 <= i < |ws| && !ws[i].stale && ws[i].topic == t
  }

  lemma {:induction false} TokenVersions(ws: seq<Watch>)
    requires WellFormed(ws)
    ensures Versions(Tokens(ws)).Some?
    ensures Names(ws, Versions(Tokens(ws)).value) && OnlyNames(ws, Versions(Tokens(ws)).value)
  {
    if ws == [] {
    } else {
      TokenVersions(ws[1..]);
      var rest := Versions(Tokens(ws[1..])).value;
      if ws[0].stale {
        assert Tokens(ws) == Tokens(ws[1..]);
        NamesStale(ws, rest);
      } else {
        TokenRoundTrip(ws[0].topic, ws[0].known);
        assert Tokens(ws)[1..] == Tokens(ws[1..]);
        NamesFresh(ws, rest);
      }
    }
  }

  lemma NamesStale(ws: seq<Watch>, rest: map<string, nat>)
    requires ws != [] && ws[0].stale
    requires Names(ws[1..], rest) && OnlyNames(ws[1..], rest)
    ensures Names(ws, rest) && OnlyNames(ws, rest)
  {
    assert forall i | 1 <= i < |ws| :: ws[i] == ws[1..][i - 1];
    forall t | t in rest
      ensures exists i :: 0 <= i < |ws| && !ws[i].stale && ws[i].topic == t
    {
      var k :| 0 <= k < |ws| - 1 && !ws[1..][k].stale && ws[1..][k].topic == t;
      assert ws[k + 1].topic == t;
    }
  }

  lemma NamesFresh(ws: seq<Watch>, rest: map<string, nat>)
    requires ws != [] && !ws[0].stale && Distinct(ws)
    requires Names(ws[1..], rest) && OnlyNames(ws[1..], rest)
    ensures Names(ws, map[ws[0].topic := ws[0].known] + rest)
    ensures OnlyNames(ws, map[ws[0].topic := ws[0].known] + rest)
  {
    var all := map[ws[0].topic := ws[0].known] + rest;
    assert forall i | 1 <= i < |ws| :: ws[i] == ws[1..][i - 1];
    forall t | t in rest
      ensures t != ws[0].topic && exists i :: 0 <= i < |ws| && !ws[i].stale && ws[i].topic == t
    {
      var k :| 0 <= k < |ws| - 1 && !ws[1..][k].stale && ws[1..][k].topic == t;
      assert ws[k + 1].topic == t;
    }
    assert ws[0].topic !in rest;
    assert all[ws[0].topic] == ws[0].known;
  }

  lemma ResumedAt(base: seq<Watch>, ws: seq<Watch>, versions: map<string, nat>, i: nat)
    requires WellFormed(base) && Derived(base, ws) && Names(ws, versions) && OnlyNames(ws, versions) && i < |base|
    ensures base[i].topic in versions <==> !ws[i].stale
    ensures !ws[i].stale ==> versions[base[i].topic] == ws[i].known
  {
    if base[i].topic in versions {
      var k :| 0 <= k < |ws| && !ws[k].stale && ws[k].topic == base[i].topic;
      assert k == i;
    }
  }

  lemma AdvanceRecovers(base: seq<Watch>, ws: seq<Watch>, versions: map<string, nat>)
    requires WellFormed(base) && Derived(base, ws) && Names(ws, versions) && OnlyNames(ws, versions)
    requires forall t | t in versions :: versions[t] <= MAX_U64
    ensures Advance(base, versions) == ws
  {
    forall i | 0 <= i < |base|
      ensures Advance(base, versions)[i] == ws[i]
    {
      ResumedAt(base, ws, versions, i);
    }
  }

  /** The state just after any event is recovered exactly from the URL and
      that event's ID, stale topics included. */
  lemma ResumeRecovers(boot: string, base: seq<Watch>, ws: seq<Watch>)
    requires ValidBoot(boot) && WellFormed(base) && Derived(base, ws)
    ensures Resume(base, Id(boot, ws), boot) == ws
    ensures Fields(Id(boot, ws)) != [] && Fields(Id(boot, ws))[0] == boot
  {
    assert WellFormed(ws);
    IdFields(boot, ws);
    TokenVersions(ws);
    VersionsBounded(Tokens(ws));
    assert Fields(Id(boot, ws))[1..] == Tokens(ws);
    AdvanceRecovers(base, ws, Versions(Tokens(ws)).value);
  }

  /** An ID of another boot, or none at all, leaves the URL's own watches. */
  lemma ResumeIgnores(base: seq<Watch>, id: string, boot: string)
    requires Fields(id) == [] || Fields(id)[0] != boot
    ensures Resume(base, id, boot) == base
  {
  }
}
