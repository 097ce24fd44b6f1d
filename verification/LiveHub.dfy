/** The hub (live/live.go, live/stream.go): per-topic counters ordered by one
    hidden sequence, and a wake flag of capacity 1 per open stream. Each method
    is one critical section under the lock, and is proved against what it does
    to a HubState, which LiveProtocol interleaves. */
module LiveHub {
  import opened Digits
  import opened Text
  import opened LiveWire

  // ---------- The hub as a value ----------

  datatype TopicState = TopicState(counter: U64, changedAt: U64)

  /** subs maps each open stream to whether a wake is pending for it. */
  datatype HubState = HubState(
    boot: string, now: U64, topics: map<string, TopicState>, subs: map<nat, bool>, closed: bool)

  datatype Config = Config(names: set<string>, maxStreams: int)

  /** uint64 increment and decrement, wrapping as Go's do. */
  function Inc(x: U64): (r: U64)
    ensures r == (x + 1) % (MAX_U64 + 1)
  {
    if x == MAX_U64 then 0 else x + 1
  }

  function Dec(x: U64): (r: U64)
    ensures r == (x + MAX_U64) % (MAX_U64 + 1)
  {
    if x == 0 then MAX_U64 else x - 1
  }

  predicate Declared(cfg: Config, topic: string) {
    ValidTopic(topic) && NameOf(topic) in cfg.names
  }

  /** validTopics: malformed and undeclared topics skipped, repeats once. */
  function Accepted(cfg: Config, topics: seq<string>): seq<string> {
    if topics == [] then []
    else
      var before, t := Accepted(cfg, topics[..|topics| - 1]), topics[|topics| - 1];
      if Declared(cfg, t) && t !in before then before + [t] else before
  }

  function Bump(topics: map<string, TopicState>, t: string, at: U64): map<string, TopicState> {
    topics[t := TopicState(Inc(if t in topics then topics[t].counter else 0), at)]
  }

  function BumpAll(topics: map<string, TopicState>, valid: seq<string>, at: U64): map<string, TopicState> {
    if valid == [] then topics
    else Bump(BumpAll(topics, valid[..|valid| - 1], at), valid[|valid| - 1], at)
  }

  function WakeAll(subs: map<nat, bool>): map<nat, bool> {
    map s | s in subs :: true
  }

  /** raiseLocked: one change to all of valid at one sequence number. */
  function Raise(h: HubState, valid: seq<string>): HubState {
    var at := Inc(h.now);
    h.(now := at, topics := BumpAll(h.topics, valid, at), subs := WakeAll(h.subs))
  }

  function Notified(cfg: Config, h: HubState, topics: seq<string>): HubState {
    var valid := Accepted(cfg, topics);
    if valid == [] then h else Raise(h, valid)
  }

  function Counter(h: HubState, topic: string): U64 {
    if topic in h.topics then h.topics[topic].counter else 0
  }

  function Version(h: HubState, topic: string, start: U64): U64 {
    if topic !in h.topics then 0
    else if h.topics[topic].changedAt <= start then h.topics[topic].counter
    else Dec(h.topics[topic].counter)
  }

  function Counters(h: HubState, ws: seq<Watch>): (cur: seq<U64>)
    ensures |cur| == |ws|
  {
    seq(|ws|, i requires 0 <= i < |ws| => Counter(h, ws[i].topic))
  }

  predicate HasRoom(cfg: Config, h: HubState) {
    !h.closed && |h.subs| < cfg.maxStreams
  }

  function Admitted(h: HubState, sub: nat): HubState {
    h.(subs := h.subs[sub := false])
  }

  function Unregistered(h: HubState, sub: nat): HubState {
    h.(subs := h.subs - {sub})
  }

  /** Every topic changed at least once, no later than the sequence says. */
  ghost predicate Ordered(h: HubState) {
    forall t | t in h.topics :: 1 <= h.topics[t].counter <= h.topics[t].changedAt <= h.now
  }

  // ---------- What one change does ----------

  lemma {:induction false} AcceptedMeans(cfg: Config, topics: seq<string>)
    ensures forall t :: t in Accepted(cfg, topics) <==> t in topics && ValidTopic(t) && NameOf(t) in cfg.names
    ensures forall i, j | 0 <= i < j < |Accepted(cfg, topics)| :: Accepted(cfg, topics)[i] != Accepted(cfg, topics)[j]
  {
    if topics != [] {
      var n := |topics| - 1;
      AcceptedMeans(cfg, topics[..n]);
      assert topics == topics[..n] + [topics[n]];
    }
  }

  /** They stand in the order they were first asked for. */
  lemma {:induction false} AcceptedInOrder(cfg: Config, topics: seq<string>, n: nat)
    requires n <= |topics|
    ensures Accepted(cfg, topics[..n]) <= Accepted(cfg, topics)
  {
    if n < |topics| {
      assert topics[..|topics| - 1][..n] == topics[..n];
      AcceptedInOrder(cfg, topics[..|topics| - 1], n);
    } else {
      assert topics[..n] == topics;
    }
  }

  lemma SomeAccepted(valid: seq<string>)
    ensures valid == [] <==> forall t :: t !in valid
  {
    if valid != [] {
      assert valid[0] in valid;
    }
  }

  ghost predicate NoRepeats(valid: seq<string>) {
    forall i, j | 0 <= i < j < |valid| :: valid[i] != valid[j]
  }

  lemma {:induction false} BumpAllMeans(topics: map<string, TopicState>, valid: seq<string>, at: U64)
    requires NoRepeats(valid)
    ensures var r := BumpAll(topics, valid, at);
            && (forall t :: t in r <==> t in topics || t in valid)
            && (forall t | t in valid ::
                  r[t] == TopicState(Inc(if t in topics then topics[t].counter else 0), at))
            && (forall t | t in topics && t !in valid :: r[t] == topics[t])
  {
    if valid != [] {
      var n := |valid| - 1;
      BumpAllMeans(topics, valid[..n], at);
      assert valid == valid[..n] + [valid[n]];
    }
  }

  /** A change raises each of its topics past every version there was,
      stamps them after every request already started, moves no other topic
      and leaves a wake pending for every open stream. */
  lemma RaiseMeans(h: HubState, valid: seq<string>)
    requires Ordered(h) && h.now < MAX_U64 && NoRepeats(valid)
    ensures var r := Raise(h, valid);
            && Ordered(r) && r.now == h.now + 1
            && (forall t | t in valid ::
                  t in r.topics && r.topics[t] == TopicState(Counter(h, t) + 1, h.now + 1))
            && (forall t | t !in valid :: Counter(r, t) == Counter(h, t))
            && (forall t | t !in valid && t in r.topics :: t in h.topics && r.topics[t] == h.topics[t])
            && (forall t | t in h.topics :: t in r.topics)
            && r.subs.Keys == h.subs.Keys && (forall s | s in r.subs :: r.subs[s])
  {
    BumpAllMeans(h.topics, valid, Inc(h.now));
  }

  // ---------- The hub in place ----------

  class Hub {
    const cfg: Config
    const boot: string
    var now: U64
    var topics: map<string, TopicState>
    var subs: map<nat, bool>
    var nextSub: nat
    var closed: bool

    function State(): HubState
      reads this
    {
      HubState(boot, now, topics, subs, closed)
    }

    /** Subscriber identities are never reused. */
    ghost predicate Valid()
      reads this
    {
      forall s | s in subs :: s < nextSub
    }

    constructor (cfg: Config, boot: string)
      ensures Valid() && this.cfg == cfg
      ensures State() == HubState(boot, 0, map[], map[], false) && Ordered(State())
    {
      this.cfg, this.boot := cfg, boot;
      now, topics, subs, nextSub, closed := 0, map[], map[], 0, false;
    }

    method ValidTopics(asked: seq<string>) returns (valid: seq<string>)
      ensures valid == Accepted(cfg, asked)
    {
      valid := [];
      var seen: set<string> := {};
      for i := 0 to |asked|
        invariant valid == Accepted(cfg, asked[..i])
        invariant forall t :: t in seen <==> t in valid
      {
        assert asked[..i + 1][..i] == asked[..i];
        var t := asked[i];
        if !ValidTopic(t) || NameOf(t) !in cfg.names {
          continue;
        }
        if t !in seen {
          seen := seen + {t};
          valid := valid + [t];
        }
      }
      assert asked[..|asked|] == asked;
    }

    method RaiseLocked(valid: seq<string>)
      requires Valid()
      modifies this`now, this`topics, this`subs
      ensures Valid() && State() == Raise(old(State()), valid)
      ensures old(Ordered(State())) && old(now) < MAX_U64 && NoRepeats(valid) ==> Ordered(State())
    {
      if Ordered(State()) && now < MAX_U64 && NoRepeats(valid) {
        RaiseMeans(State(), valid);
      }
      now := Inc(now);
      for i := 0 to |valid|
        invariant subs == old(subs) && now == Inc(old(now))
        invariant topics == BumpAll(old(topics), valid[..i], now)
      {
        assert valid[..i + 1][..i] == valid[..i];
        var counter := if valid[i] in topics then topics[valid[i]].counter else 0;
        topics := topics[valid[i] := TopicState(Inc(counter), now)];
      }
      assert valid[..|valid|] == valid;
      var left := subs.Keys;
      while left != {}
        invariant now == Inc(old(now)) && topics == BumpAll(old(topics), valid, now)
        invariant left <= subs.Keys && subs.Keys == old(subs).Keys
        invariant forall s | s in subs && s !in left :: subs[s]
        decreases left
      {
        var s :| s in left;
        subs := subs[s := true];
        left := left - {s};
      }
      assert subs == WakeAll(old(subs));
    }

    method Notify(asked: seq<string>)
      requires Valid()
      modifies this`now, this`topics, this`subs
      ensures Valid() && State() == Notified(cfg, old(State()), asked)
      ensures (forall t | t in asked :: !(ValidTopic(t) && NameOf(t) in cfg.names)) ==> State() == old(State())
      ensures (exists t :: t in asked && ValidTopic(t) && NameOf(t) in cfg.names) ==>
                State() == Raise(old(State()), Accepted(cfg, asked))
    {
      AcceptedMeans(cfg, asked);
      SomeAccepted(Accepted(cfg, asked));
      var valid := ValidTopics(asked);
      if |valid| > 0 {
        RaiseLocked(valid);
      }
    }

    method VersionAt(topic: string, start: U64) returns (v: U64)
      ensures v == Version(State(), topic, start)
      ensures Ordered(State()) && topic in topics ==>
                v == topics[topic].counter - (if topics[topic].changedAt > start then 1 else 0)
    {
      if topic !in topics {
        return 0;
      }
      if topics[topic].changedAt <= start {
        return topics[topic].counter;
      }
      return Dec(topics[topic].counter);
    }

    method Admit() returns (sub: Option<nat>)
      requires Valid()
      modifies this`subs, this`nextSub
      ensures Valid() && (sub.Some? <==> !old(closed) && |old(subs)| < cfg.maxStreams)
      ensures sub.Some? ==> sub.value !in old(subs) && State() == Admitted(old(State()), sub.value)
      ensures sub.None? ==> State() == old(State())
    {
      if closed || |subs| >= cfg.maxStreams {
        return None;
      }
      subs := subs[nextSub := false];
      sub := Some(nextSub);
      nextSub := nextSub + 1;
    }

    method Unregister(sub: nat)
      requires Valid()
      modifies this`subs
      ensures Valid() && State() == Unregistered(old(State()), sub)
    {
      subs := subs - {sub};
    }

    method Close()
      modifies this`closed
      ensures State() == old(State()).(closed := true)
    {
      closed := true;
    }

    method ReadCounters(watches: array<Watch>) returns (cur: seq<U64>)
      ensures cur == Counters(State(), watches[..])
    {
      cur := [];
      for i := 0 to watches.Length
        invariant |cur| == i && forall j | 0 <= j < i :: cur[j] == Counter(State(), watches[j].topic)
      {
        cur := cur + [if watches[i].topic in topics then topics[watches[i].topic].counter else 0];
      }
    }

    /** changes: advances the watches in place and returns the events'
        text, each ID built after only its own topic advanced. */
    method WriteChanges(watches: array<Watch>) returns (text: string)
      modifies watches
      ensures var (last, events) := Changes(boot, old(watches[..]), Counters(State(), old(watches[..])), 0);
              watches[..] == last && text == Render(events)
      ensures watches[..] == Told(old(watches[..]), Counters(State(), old(watches[..])), watches.Length)
      ensures (forall w | w in old(watches[..]) :: !w.stale && Counter(State(), w.topic) <= w.known) ==> text == ""
    {
      var cur := ReadCounters(watches);
      ghost var picks := PassIsExact(boot, watches[..], cur);
      Silent(watches[..], cur);
      ghost var goal := Changes(boot, watches[..], cur, 0);
      ghost var done: seq<Event> := [];
      text := "";
      for i := 0 to watches.Length
        invariant text == Render(done)
        invariant var (last, events) := Changes(boot, watches[..], cur, i);
                  goal.0 == last && goal.1 == done + events
      {
        if !watches[i].stale && cur[i] <= watches[i].known {
          continue;
        }
        ghost var was := watches[..];
        watches[i] := Watch(watches[i].topic, cur[i], false);
        assert watches[..] == Caught(was, i, cur[i]);
        var id := WriteId(watches);
        text := text + ("event: change\ndata: " + Token(watches[i].topic, watches[i].known) + "\nid: " + id + "\n\n");
        ghost var e := Event(boot, watches[i].topic, cur[i], id);
        RenderAppend(done, e);
        AssociateEvents(done, [e], Changes(boot, watches[..], cur, i + 1).1);
        done := done + [e];
      }
      assert done + [] == done;
    }

    lemma Silent(ws: seq<Watch>, cur: seq<U64>)
      requires |ws| == |cur| && forall i | 0 <= i < |ws| :: cur[i] == Counter(State(), ws[i].topic)
      ensures (forall w | w in ws :: !w.stale && Counter(State(), w.topic) <= w.known) ==>
                Render(Changes(boot, ws, cur, 0).1) == ""
    {
      if forall w | w in ws :: !w.stale && Counter(State(), w.topic) <= w.known {
        assert forall i | 0 <= i < |ws| :: ws[i] in ws;
        LevelIsSilent(boot, ws, cur);
      }
    }

    method WriteId(watches: array<Watch>) returns (id: string)
      ensures id == Id(boot, watches[..])
    {
      id := boot;
      ghost var ws := watches[..];
      for j := 0 to watches.Length
        invariant id + IdTail(ws[j..]) == Id(boot, ws)
      {
        var w := watches[j];
        assert ws[j..][0] == w && ws[j..][1..] == ws[j + 1..];
        if !w.stale {
          ghost var tail := IdTail(ws[j + 1..]);
          assert (id + (" " + Token(w.topic, w.known))) + tail == id + ((" " + Token(w.topic, w.known)) + tail);
          id := id + (" " + Token(w.topic, w.known));
        }
      }
    }

    /** resume: overwrites the watches a genuine ID of this boot names. */
    method ResumeFrom(watches: array<Watch>, id: string)
      modifies watches
      ensures watches[..] == Resume(old(watches[..]), id, boot)
    {
      var fields := Fields(id);
      if |fields| == 0 || fields[0] != boot {
        return;
      }
      var versions := ReadVersions(fields[1..]);
      if versions.Some? {
        AdvanceTo(watches, versions.value);
      }
    }

    method AdvanceTo(watches: array<Watch>, versions: map<string, nat>)
      requires forall t | t in versions :: versions[t] <= MAX_U64
      modifies watches
      ensures watches[..] == Advance(old(watches[..]), versions)
    {
      ghost var goal := Advance(watches[..], versions);
      for i := 0 to watches.Length
        invariant forall j | 0 <= j < i :: watches[j] == goal[j]
        invariant forall j | i <= j < watches.Length :: watches[j] == old(watches[j])
      {
        if watches[i].topic in versions {
          watches[i] := Watch(watches[i].topic, versions[watches[i].topic], false);
        }
      }
    }
  }

  lemma AssociateEvents(a: seq<Event>, b: seq<Event>, c: seq<Event>)
    ensures (a + b) + c == a + (b + c)
  {
  }

  lemma VersionsStep(tokens: seq<string>, i: nat)
    requires i < |tokens|
    ensures ParseToken(tokens[i]).None? ==> Versions(tokens[i..]).None?
    ensures ParseToken(tokens[i]).Some? ==> (Versions(tokens[i..]).Some? <==> Versions(tokens[i + 1..]).Some?)
    ensures Versions(tokens[i..]).Some? ==>
              Versions(tokens[i..]).value
              == map[ParseToken(tokens[i]).value.0 := ParseToken(tokens[i]).value.1] + Versions(tokens[i + 1..]).value
  {
    assert tokens[i..][0] == tokens[i] && tokens[i..][1..] == tokens[i + 1..];
  }

  lemma PutThenMore(m: map<string, nat>, t: string, v: nat, more: map<string, nat>)
    ensures m[t := v] + more == m + (map[t := v] + more)
  {
  }

  method ReadVersions(tokens: seq<string>) returns (r: Option<map<string, nat>>)
    ensures r == Versions(tokens)
    ensures r.Some? ==> forall t | t in r.value :: r.value[t] <= MAX_U64
  {
    var versions: map<string, nat> := map[];
    assert tokens[0..] == tokens;
    for i := 0 to |tokens|
      invariant Versions(tokens).Some? <==> Versions(tokens[i..]).Some?
      invariant Versions(tokens).Some? ==> Versions(tokens).value == versions + Versions(tokens[i..]).value
      invariant forall t | t in versions :: versions[t] <= MAX_U64
    {
      VersionsStep(tokens, i);
      match ParseToken(tokens[i])
      case None =>
        return None;
      case Some((topic, v)) =>
        if Versions(tokens).Some? {
          PutThenMore(versions, topic, v, Versions(tokens[i + 1..]).value);
        }
        versions := versions[topic := v];
    }
    assert tokens[|tokens|..] == [] && versions + map[] == versions;
    r := Some(versions);
  }

  /** parseWatches. */
  method ReadWatches(raw: seq<string>, stale: bool) returns (r: Option<seq<Watch>>)
    ensures r == ParseWatches(raw, stale)
  {
    if |raw| == 0 || |raw| > MAX_TOPICS {
      return None;
    }
    var watches: seq<Watch> := [];
    assert raw[0..] == raw;
    for i := 0 to |raw|
      invariant ParseFrom(raw, [], stale) == ParseFrom(raw[i..], watches, stale)
    {
      ParseFromStep(raw, i, watches, stale);
      match ParseToken(raw[i])
      case None =>
        return None;
      case Some((topic, v)) =>
        watches := MergeWatch(watches, topic, v, stale);
    }
    assert raw[|raw|..] == [];
    r := Some(watches);
  }

  lemma ParseFromStep(raw: seq<string>, i: nat, watches: seq<Watch>, stale: bool)
    requires i < |raw|
    ensures ParseFrom(raw[i..], watches, stale) ==
      match ParseToken(raw[i])
      case None => None
      case Some((topic, v)) => ParseFrom(raw[i + 1..], AddWatch(watches, topic, v, stale), stale)
  {
    assert raw[i..][0] == raw[i] && raw[i..][1..] == raw[i + 1..];
  }

  /** A topic asked for twice keeps the older version. */
  method MergeWatch(watches: seq<Watch>, topic: string, v: U64, stale: bool) returns (r: seq<Watch>)
    ensures r == AddWatch(watches, topic, v, stale)
  {
    var at := Find(watches, topic);
    if at < |watches| {
      r := watches[at := watches[at].(known := Min(watches[at].known, v))];
    } else {
      r := watches + [Watch(topic, v, stale)];
    }
  }

}
