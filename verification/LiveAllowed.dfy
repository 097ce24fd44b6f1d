/** Who is told what (live/live.go, live/stream.go): every topic is checked before a stream
    subscribes, and nothing later widens what it follows, so in every run a
    client hears only of topics that a request of its own was allowed. */
module LiveAllowed {
  import opened Digits
  import opened Text
  import opened LiveWire
  import opened LiveHub
  import opened LiveProtocol

  /** Some request of the session was allowed the topic. */
  ghost predicate Granted(steps: seq<Step>, s: nat, topic: string) {
    exists k :: 0 <= k < |steps| && steps[k].Connect? && steps[k].session == s && topic in steps[k].allowed
  }

  ghost predicate AllGranted(steps: seq<Step>, s: nat, events: seq<Event>) {
    forall e | e in events :: Granted(steps, s, e.topic)
  }

  ghost predicate Follows(steps: seq<Step>, s: nat, ws: seq<Watch>) {
    forall i | 0 <= i < |ws| :: Granted(steps, s, ws[i].topic)
  }

  ghost predicate StreamGranted(steps: seq<Step>, st: Stream) {
    && Follows(steps, st.session, st.watches)
    && (st.pc.Writing? ==> AllGranted(steps, st.session, st.pc.batch))
  }

  ghost predicate SessionGranted(steps: seq<Step>, s: nat, session: Session) {
    AllGranted(steps, s, session.log) && AllGranted(steps, s, session.wire)
  }

  ghost predicate WorldGranted(steps: seq<Step>, w: World) {
    && (forall sub | sub in w.streams :: StreamGranted(steps, w.streams[sub]))
    && (forall s | s in w.sessions :: SessionGranted(steps, s, w.sessions[s]))
  }

  lemma GrantedLater(steps: seq<Step>, x: Step, s: nat, topic: string)
    requires Granted(steps, s, topic)
    ensures Granted(steps + [x], s, topic)
  {
    var k :| 0 <= k < |steps| && steps[k].Connect? && steps[k].session == s && topic in steps[k].allowed;
    assert (steps + [x])[k] == steps[k];
  }

  lemma EventsLater(steps: seq<Step>, x: Step, s: nat, events: seq<Event>)
    requires AllGranted(steps, s, events)
    ensures AllGranted(steps + [x], s, events)
  {
    forall e | e in events
      ensures Granted(steps + [x], s, e.topic)
    {
      GrantedLater(steps, x, s, e.topic);
    }
  }

  lemma StreamLater(steps: seq<Step>, x: Step, st: Stream)
    requires StreamGranted(steps, st)
    ensures StreamGranted(steps + [x], st)
  {
    forall i | 0 <= i < |st.watches|
      ensures Granted(steps + [x], st.session, st.watches[i].topic)
    {
      GrantedLater(steps, x, st.session, st.watches[i].topic);
    }
    if st.pc.Writing? {
      EventsLater(steps, x, st.session, st.pc.batch);
    }
  }

  lemma WorldLater(steps: seq<Step>, x: Step, w: World)
    requires WorldGranted(steps, w)
    ensures WorldGranted(steps + [x], w)
  {
    forall sub | sub in w.streams
      ensures StreamGranted(steps + [x], w.streams[sub])
    {
      StreamLater(steps, x, w.streams[sub]);
    }
    forall s | s in w.sessions
      ensures SessionGranted(steps + [x], s, w.sessions[s])
    {
      EventsLater(steps, x, s, w.sessions[s].log);
      EventsLater(steps, x, s, w.sessions[s].wire);
    }
  }

  // ---------- What each step adds ----------

  /** A resume changes versions, never what is followed. */
  lemma ResumeFollows(steps: seq<Step>, s: nat, ws: seq<Watch>, id: string, boot: string)
    requires Follows(steps, s, ws)
    ensures Follows(steps, s, Resume(ws, id, boot))
  {
    var r := Resume(ws, id, boot);
    forall i | 0 <= i < |r|
      ensures Granted(steps, s, r[i].topic)
    {
      assert r[i].topic == ws[i].topic;
    }
  }

  /** And a pass writes of what is followed alone. */
  lemma {:induction false} ChangesGranted(steps: seq<Step>, s: nat, boot: string, ws: seq<Watch>, cur: seq<U64>, i: nat)
    requires i <= |ws| == |cur| && Follows(steps, s, ws)
    ensures var r := Changes(boot, ws, cur, i); Follows(steps, s, r.0) && AllGranted(steps, s, r.1)
    decreases |ws| - i
  {
    if i == |ws| {
    } else if !Moved(ws[i], cur[i]) {
      ChangesGranted(steps, s, boot, ws, cur, i + 1);
    } else {
      ChangesGranted(steps, s, boot, Caught(ws, i, cur[i]), cur, i + 1);
    }
  }

  lemma ConnectGrants(steps: seq<Step>, w: World, s: nat, sub: nat, allowed: set<string>)
    requires WorldGranted(steps, w)
    ensures var x := Connect(s, sub, allowed); WorldGranted(steps + [x], Apply(w, x))
  {
    var x := Connect(s, sub, allowed);
    WorldLater(steps, x, w);
    var r := Apply(w, x);
    if r != w {
      var base := Base(w.hub.boot, w.sessions[s]);
      forall i | 0 <= i < |base|
        ensures Granted(steps + [x], s, base[i].topic)
      {
        assert (steps + [x])[|steps|] == x;
      }
      ResumeFollows(steps + [x], s, base, LastEventId(w.sessions[s]), w.hub.boot);
      assert StreamGranted(steps + [x], r.streams[sub]);
    }
  }

  lemma CatchUpGrants(steps: seq<Step>, w: World, sub: nat)
    requires WorldGranted(steps, w)
    ensures WorldGranted(steps, DoCatchUp(w, sub))
  {
    if sub in w.streams && w.streams[sub].pc.Reading? {
      var st := w.streams[sub];
      ChangesGranted(steps, st.session, w.hub.boot, st.watches, Counters(w.hub, st.watches), 0);
      assert StreamGranted(steps, DoCatchUp(w, sub).streams[sub]);
    }
  }

  lemma SentGrants(steps: seq<Step>, w: World, sub: nat, events: seq<Event>)
    requires WorldGranted(steps, w) && sub in w.streams && AllGranted(steps, w.streams[sub].session, events)
    ensures WorldGranted(steps, Sent(w, sub, events)) && Sent(w, sub, events).streams == w.streams
  {
    var r, s := Sent(w, sub, events), w.streams[sub].session;
    if s in w.sessions {
      assert SessionGranted(steps, s, w.sessions[s]);
      assert SessionGranted(steps, s, r.sessions[s]);
    }
  }

  lemma StreamsGrant(steps: seq<Step>, w: World, r: World, sub: nat)
    requires WorldGranted(steps, w) && r.sessions == w.sessions && r.streams.Keys <= w.streams.Keys
    requires forall k | k in r.streams && k != sub :: r.streams[k] == w.streams[k]
    requires sub in r.streams ==> r.streams[sub] == w.streams[sub].(pc := r.streams[sub].pc) && !r.streams[sub].pc.Writing?
    ensures WorldGranted(steps, r)
  {
    if sub in r.streams {
      assert StreamGranted(steps, w.streams[sub]);
      assert StreamGranted(steps, r.streams[sub]);
    }
  }

  lemma WriteGrants(steps: seq<Step>, w: World, sub: nat, n: nat)
    requires WorldGranted(steps, w)
    ensures WorldGranted(steps, DoWrite(w, sub, n))
  {
    if sub in w.streams && w.streams[sub].pc.Writing? {
      var batch := w.streams[sub].pc.batch;
      assert StreamGranted(steps, w.streams[sub]);
      if w.hub.closed {
        StreamsGrant(steps, w, DoWrite(w, sub, n), sub);
      } else {
        var out := if n < |batch| then batch[..n] else batch;
        SentGrants(steps, w, sub, out);
        StreamsGrant(steps, Sent(w, sub, out), DoWrite(w, sub, n), sub);
      }
    }
  }

  lemma ClientGranted(steps: seq<Step>, w: World, x: Step, s: nat)
    requires WorldGranted(steps, w) && (x.Open? || x.Deliver? || x.Drop? || x.Restart?) && s in Apply(w, x).sessions
    ensures SessionGranted(steps, s, Apply(w, x).sessions[s])
  {
    if s in w.sessions {
      assert SessionGranted(steps, s, w.sessions[s]);
    }
  }

  lemma ClientGrants(steps: seq<Step>, w: World, x: Step)
    requires WorldGranted(steps, w) && (x.Open? || x.Deliver? || x.Drop? || x.Restart?)
    ensures WorldGranted(steps, Apply(w, x))
  {
    var r := Apply(w, x);
    forall s | s in r.sessions
      ensures SessionGranted(steps, s, r.sessions[s])
    {
      ClientGranted(steps, w, x, s);
    }
  }

  lemma StepGrants(steps: seq<Step>, w: World, x: Step)
    requires WorldGranted(steps, w)
    ensures WorldGranted(steps + [x], Apply(w, x))
  {
    WorldLater(steps, x, w);
    match x
    case Connect(s, sub, allowed) => ConnectGrants(steps, w, s, sub, allowed);
    case CatchUp(sub) => CatchUpGrants(steps + [x], w, sub);
    case Write(sub, n) => WriteGrants(steps + [x], w, sub, n);
    case Wake(sub) =>
      if Apply(w, x) != w {
        StreamsGrant(steps + [x], w, Apply(w, x), sub);
      }
    case End(sub) => StreamsGrant(steps + [x], w, Apply(w, x), sub);
    case Open(_, _, _) => ClientGrants(steps + [x], w, x);
    case Deliver(_) => ClientGrants(steps + [x], w, x);
    case Drop(_) => ClientGrants(steps + [x], w, x);
    case Restart(_) => ClientGrants(steps + [x], w, x);
    case _ =>
  }

  /** In every run, whatever reconnects, resumes and restarts it holds, no
      stream follows and no client hears of a topic but one that a request of
      the same client was allowed. */
  lemma {:induction false} OnlyAllowed(cfg: Config, boot: string, steps: seq<Step>)
    ensures WorldGranted(steps, Run(Init(cfg, boot), steps))
  {
    if steps != [] {
      var n := |steps| - 1;
      OnlyAllowed(cfg, boot, steps[..n]);
      StepGrants(steps[..n], Run(Init(cfg, boot), steps[..n]), steps[n]);
      assert steps == steps[..n] + [steps[n]];
    }
  }

  // ---------- No shared counter ----------

  predicate Announces(w: World, x: Step, t: string) {
    x.Announce? && x.settled <= w.owed && (forall y | y in x.settled :: y.0 in x.topics) && t in x.topics && Declared(w.cfg, t)
  }

  predicate Restarts(w: World, x: Step) {
    x.Restart? && x.boot !in w.boots && x.boot != "" && Spaceless(x.boot)
  }

  /** How often a topic itself was announced since the process started. */
  function OwnChanges(w: World, steps: seq<Step>, t: string): nat {
    if steps == [] then 0
    else
      var front, x := steps[..|steps| - 1], steps[|steps| - 1];
      if Restarts(Run(w, front), x) then 0
      else OwnChanges(w, front, t) + if Announces(Run(w, front), x, t) then 1 else 0
  }

  lemma StreamKeepsTopics(w: World, x: Step)
    requires x.Connect? || x.CatchUp? || x.Wake? || x.End?
    ensures Apply(w, x).hub.topics == w.hub.topics
  {
  }

  lemma WriteKeepsTopics(w: World, sub: nat, n: nat)
    ensures DoWrite(w, sub, n).hub.topics == w.hub.topics
  {
  }

  lemma ElseKeepsTopics(w: World, x: Step)
    requires !x.Announce? && !x.Restart? && !x.Connect? && !x.CatchUp? && !x.Wake? && !x.End? && !x.Write?
    ensures Apply(w, x).hub.topics == w.hub.topics
  {
  }

  lemma AnnounceCounts(w: World, topics: seq<string>, settled: set<(string, nat)>, t: string)
    requires Inv(w) && w.hub.now < MAX_U64
    ensures Counter(DoAnnounce(w, topics, settled).hub, t)
         == Counter(w.hub, t) + if Announces(w, Announce(topics, settled), t) then 1 else 0
  {
    NotifiedMeans(w.cfg, w.hub, topics);
  }

  lemma RestartCounts(w: World, boot: string, t: string)
    ensures Counter(DoRestart(w, boot).hub, t) == if Restarts(w, Restart(boot)) then 0 else Counter(w.hub, t)
  {
  }

  lemma OwnStep(w: World, x: Step, t: string)
    requires Inv(w) && w.hub.now < MAX_U64
    ensures Counter(Apply(w, x).hub, t)
         == if Restarts(w, x) then 0 else Counter(w.hub, t) + if Announces(w, x, t) then 1 else 0
  {
    if x.Announce? {
      AnnounceCounts(w, x.topics, x.settled, t);
    } else if x.Restart? {
      RestartCounts(w, x.boot, t);
    } else if x.Write? {
      WriteKeepsTopics(w, x.sub, x.n);
    } else if x.Connect? || x.CatchUp? || x.Wake? || x.End? {
      StreamKeepsTopics(w, x);
    } else {
      ElseKeepsTopics(w, x);
    }
  }

  /** A topic's counter counts the announcements of that topic and of no
      other, in every run: the versions a viewer sees tell nothing of the
      writes to topics the viewer does not follow. */
  lemma {:induction false} CountsItsOwn(cfg: Config, boot: string, steps: seq<Step>, t: string)
    requires ValidBoot(boot) && |steps| <= MAX_U64
    ensures Counter(Run(Init(cfg, boot), steps).hub, t) == OwnChanges(Init(cfg, boot), steps, t)
  {
    if steps != [] {
      var n := |steps| - 1;
      CountsItsOwn(cfg, boot, steps[..n], t);
      RunKeeps(cfg, boot, steps[..n]);
      OwnStep(Run(Init(cfg, boot), steps[..n]), steps[n], t);
    }
  }
}
