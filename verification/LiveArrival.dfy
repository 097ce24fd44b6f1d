/** What the change stream brings about (live/live.go, live/stream.go): from
    every state a run can reach, a connection can be made while the hub has
    room, a stream can always be brought to rest by its own steps and its
    client's, and then its client has what was announced. */
module LiveArrival {
  import opened Digits
  import opened Text
  import opened LiveWire
  import opened LiveHub
  import opened LiveProtocol

  // ---------- Runs ----------

  lemma {:induction false} Then(w: World, a: seq<Step>, b: seq<Step>)
    ensures Run(w, a + b) == Run(Run(w, a), b)
  {
    if b == [] {
      assert a + b == a;
    } else {
      var n := |b| - 1;
      assert (a + b)[..|a + b| - 1] == a + b[..n];
      Then(w, a, b[..n]);
    }
  }

  lemma One(w: World, x: Step)
    ensures Run(w, [x]) == Apply(w, x)
  {
    assert [x][..0] == [];
    assert Run(w, []) == w;
  }

  lemma ThenOne(w: World, a: seq<Step>, x: Step)
    ensures Run(w, a + [x]) == Apply(Run(w, a), x)
  {
    Then(w, a, [x]);
    One(Run(w, a), x);
  }

  /** Steps of one stream and its client alone. */
  predicate OwnStep(x: Step, s: nat, sub: nat) {
    x == CatchUp(sub) || (x.Write? && x.sub == sub) || x == Wake(sub) || x == Deliver(s)
  }

  ghost predicate Own(steps: seq<Step>, s: nat, sub: nat) {
    forall x | x in steps :: OwnStep(x, s, sub)
  }

  // ---------- A stream comes to rest ----------

  ghost predicate Connected(w: World, s: nat, sub: nat) {
    s in w.sessions && Serves(w.streams, s, w.sessions[s], sub) && sub in w.hub.subs && !w.hub.closed
  }

  /** Nothing but the streams, the wakes and what clients received differs. */
  ghost predicate Alike(w: World, r: World, s: nat) {
    && r.cfg == w.cfg && r.boots == w.boots && r.commits == w.commits && r.owed == w.owed && r.pages == w.pages
    && r.hub == w.hub.(subs := r.hub.subs)
    && s in w.sessions && s in r.sessions && SameRequest(w.sessions[s], r.sessions[s])
  }

  ghost predicate SameRequest(a: Session, b: Session) {
    b.raw == a.raw && b.urlBoot == a.urlBoot && a.log <= b.log
  }

  lemma CatchUpMoves(w: World, s: nat, sub: nat)
    requires Connected(w, s, sub)
    ensures var r := DoCatchUp(w, sub); Connected(r, s, sub) && Alike(w, r, s) && !r.streams[sub].pc.Reading?
  {
  }

  lemma WriteMoves(w: World, s: nat, sub: nat) returns (n: nat)
    requires Connected(w, s, sub) && !w.streams[sub].pc.Reading?
    ensures var r := DoWrite(w, sub, n);
            Connected(r, s, sub) && Alike(w, r, s) && r.streams[sub].pc.Waiting? && r.hub == w.hub
  {
    n := if w.streams[sub].pc.Writing? then |w.streams[sub].pc.batch| else 0;
    if w.streams[sub].pc.Writing? {
      var batch := w.streams[sub].pc.batch;
      assert batch[..n] == batch;
    }
  }

  lemma WakeMoves(w: World, s: nat, sub: nat)
    requires Connected(w, s, sub) && w.streams[sub].pc.Waiting?
    ensures var r := DoWake(w, sub);
            Connected(r, s, sub) && Alike(w, r, s) && !r.hub.subs[sub] && !r.streams[sub].pc.Writing?
  {
  }

  /** What is on the connection can be received to the last event. */
  lemma {:induction false} DeliverAll(w: World, s: nat, sub: nat) returns (steps: seq<Step>)
    requires Connected(w, s, sub)
    ensures Own(steps, s, sub)
    ensures var r := Run(w, steps);
            && Connected(r, s, sub) && Alike(w, r, s) && r.hub == w.hub && r.streams == w.streams
            && r.sessions[s].wire == [] && r.sessions[s].log == w.sessions[s].log + w.sessions[s].wire
    decreases |w.sessions[s].wire|
  {
    var session := w.sessions[s];
    if session.wire == [] {
      steps := [];
      assert session.log + session.wire == session.log;
    } else {
      var next := Apply(w, Deliver(s));
      var rest := DeliverAll(next, s, sub);
      steps := [Deliver(s)] + rest;
      Then(w, [Deliver(s)], rest);
      One(w, Deliver(s));
      assert session.log + session.wire == (session.log + session.wire[..1]) + session.wire[1..];
    }
  }

  lemma AlikeThen(w: World, m: World, r: World, s: nat)
    requires Alike(w, m, s) && Alike(m, r, s)
    ensures Alike(w, r, s)
  {
  }

  /** From wherever it is to its select. */
  lemma Settles(w: World, s: nat, sub: nat) returns (steps: seq<Step>)
    requires Connected(w, s, sub)
    ensures Own(steps, s, sub)
    ensures var r := Run(w, steps);
            && Connected(r, s, sub) && Alike(w, r, s) && r.streams[sub].pc.Waiting?
            && r.hub == w.hub
  {
    CatchUpMoves(w, s, sub);
    var m := Apply(w, CatchUp(sub));
    var n := WriteMoves(m, s, sub);
    steps := [CatchUp(sub)] + [Write(sub, n)];
    One(w, CatchUp(sub));
    ThenOne(w, [CatchUp(sub)], Write(sub, n));
    AlikeThen(w, m, Run(w, steps), s);
  }

  lemma Rests(w: World, s: nat, sub: nat) returns (steps: seq<Step>)
    requires Connected(w, s, sub) && w.streams[sub].pc.Waiting?
    ensures Own(steps, s, sub)
    ensures var r := Run(w, steps);
            Connected(r, s, sub) && Alike(w, r, s) && r.streams[sub].pc.Waiting? && !r.hub.subs[sub]
  {
    WakeMoves(w, s, sub);
    var m := Apply(w, Wake(sub));
    var rest := Settles(m, s, sub);
    steps := [Wake(sub)] + rest;
    One(w, Wake(sub));
    Then(w, [Wake(sub)], rest);
    AlikeThen(w, m, Run(w, steps), s);
  }

  /** Wherever a connected stream is, its own steps and its client's can
      always bring it to rest with everything delivered. */
  lemma CanQuiet(w: World, s: nat, sub: nat) returns (steps: seq<Step>)
    requires Connected(w, s, sub)
    ensures Own(steps, s, sub)
    ensures var r := Run(w, steps); Quiet(r, s, sub) && Connected(r, s, sub) && Alike(w, r, s)
  {
    var a := Settles(w, s, sub);
    var w1 := Run(w, a);
    var b := Rests(w1, s, sub);
    var w2 := Run(w1, b);
    var c := DeliverAll(w2, s, sub);
    steps := a + b + c;
    Then(w, a, b);
    Then(w, a + b, c);
    AlikeThen(w, w1, w2, s);
    AlikeThen(w, w2, Run(w2, c), s);
  }

  // ---------- And its client then knows ----------

  lemma OwnStepKeeps(w: World, x: Step, s: nat, sub: nat)
    requires Inv(w) && OwnStep(x, s, sub)
    ensures Inv(Apply(w, x))
  {
    match x
    case CatchUp(_) => CatchUpKeeps(w, sub);
    case Write(_, n) => WriteKeeps(w, sub, n);
    case Wake(_) => WakeKeeps(w, sub);
    case Deliver(_) => DeliverKeeps(w, s);
  }

  lemma {:induction false} OwnKeeps(w: World, steps: seq<Step>, s: nat, sub: nat)
    requires Inv(w) && Own(steps, s, sub)
    ensures Inv(Run(w, steps))
  {
    if steps != [] {
      var n := |steps| - 1;
      OwnKeeps(w, steps[..n], s, sub);
      assert steps[n] in steps;
      OwnStepKeeps(Run(w, steps[..n]), steps[n], s, sub);
    }
  }

  /** The client has been given the version, or one above it. */
  ghost predicate Received(w: World, s: nat, t: string, v: nat)
    requires s in w.sessions
  {
    exists e :: e in w.sessions[s].log && e.topic == t && e.boot == w.hub.boot && e.version >= v
  }

  lemma QuietReceived(w: World, s: nat, sub: nat, t: string, v: U64)
    requires Inv(w) && Quiet(w, s, sub) && ValidTopic(t) && Token(t, v) in w.sessions[s].raw
    requires w.sessions[s].urlBoot == w.hub.boot ==> v < Counter(w.hub, t)
    ensures Received(w, s, t, Counter(w.hub, t))
  {
    assert StreamSound(w.hub, w.sessions, sub, w.streams[sub]);
    assert SessionSound(w.hub.boot, w.boots, w.streams, s, w.sessions[s]);
    QuietHasTold(w, s, sub, t, v);
  }

  lemma AnnounceMoves(w: World, topics: seq<string>, s: nat, sub: nat, t: string)
    requires Inv(w) && w.hub.now < MAX_U64 && Connected(w, s, sub) && t in topics && Declared(w.cfg, t)
    ensures var h := Notified(w.cfg, w.hub, topics);
            && Counter(h, t) == Counter(w.hub, t) + 1
            && h.boot == w.hub.boot && !h.closed && sub in h.subs
  {
    NotifiedMeans(w.cfg, w.hub, topics);
  }

  /** Connected streams are brought what is announced: whatever has happened
      before, and wherever the stream was, its own steps end with a change of
      the topic received, above the version it had when announced. */
  lemma AnnouncedArrives(w: World, topics: seq<string>, settled: set<(string, nat)>, s: nat, sub: nat, t: string, v: U64)
      returns (steps: seq<Step>)
    requires Inv(w) && w.hub.now < MAX_U64 && Connected(w, s, sub)
    requires settled <= w.owed && forall x | x in settled :: x.0 in topics
    requires t in topics && Declared(w.cfg, t) && Token(t, v) in w.sessions[s].raw
    requires w.sessions[s].urlBoot == w.hub.boot ==> v <= Counter(w.hub, t)
    ensures Own(steps, s, sub)
    ensures var r := Run(Apply(w, Announce(topics, settled)), steps);
            && Quiet(r, s, sub) && r.hub.boot == w.hub.boot && r.owed == w.owed - settled && r.pages == w.pages
            && r.commits == w.commits && SameRequest(w.sessions[s], r.sessions[s])
            && Received(r, s, t, Counter(w.hub, t) + 1)
  {
    var m := Apply(w, Announce(topics, settled));
    AnnounceKeeps(w, topics, settled);
    AnnounceMoves(w, topics, s, sub, t);
    steps := CanQuiet(m, s, sub);
    OwnKeeps(m, steps, s, sub);
    QuietReceived(Run(m, steps), s, sub, t, v);
  }

  // ---------- From a write to the page ----------

  function Rendered(w: World, p: nat, read: map<string, nat>, shown: map<string, U64>): World {
    w.(pages := w.pages[p := Page(w.hub.boot, w.hub.now, read, shown)])
  }

  lemma PageReads(w: World, p: nat, t: string)
    ensures Apply(Rendered(w, p, map[], map[]), ReadPage(p, t)) == Rendered(w, p, map[t := Commits(w.commits, t)], map[])
  {
    var m := Rendered(w, p, map[], map[]);
    assert m.pages[p := Page(w.hub.boot, w.hub.now, map[t := Commits(w.commits, t)], map[])] ==
           w.pages[p := Page(w.hub.boot, w.hub.now, map[t := Commits(w.commits, t)], map[])];
  }

  lemma PageShows(w: World, p: nat, t: string, read: map<string, nat>)
    requires Ordered(w.hub)
    ensures Apply(Rendered(w, p, read, map[]), ShowPage(p, t)) == Rendered(w, p, read, map[t := Counter(w.hub, t)])
  {
    var m := Rendered(w, p, read, map[]);
    assert Version(m.hub, t, m.hub.now) == Counter(w.hub, t);
    assert m.pages[p := Page(w.hub.boot, w.hub.now, read, map[t := Counter(w.hub, t)])] ==
           w.pages[p := Page(w.hub.boot, w.hub.now, read, map[t := Counter(w.hub, t)])];
  }

  /** A page's request, its query and its rendering of one topic: it has read
      every write committed by then and shows the topic's own counter. */
  lemma PageRenders(w: World, p: nat, t: string)
    requires Inv(w) && p !in w.pages
    ensures var r := Apply(Apply(Apply(w, StartPage(p)), ReadPage(p, t)), ShowPage(p, t));
            r == w.(pages := w.pages[p := Page(w.hub.boot, w.hub.now, map[t := Commits(w.commits, t)], map[t := Counter(w.hub, t)])])
  {
    PageReads(w, p, t);
    PageShows(w, p, t, map[t := Commits(w.commits, t)]);
  }

  lemma CommitOwes(w: World, t: string)
    requires Inv(w) && Declared(w.cfg, t)
    ensures var r, n := Apply(w, Commit(t)), Commits(w.commits, t) + 1;
            && r == w.(commits := r.commits, owed := w.owed + {(t, n)}) && Commits(r.commits, t) == n
            && forall u | u != t :: Commits(r.commits, u) == Commits(w.commits, u)
  {
  }

  /** From the write to the browser: a page of this boot showing a topic, its
      stream connected with the version it shows; once a write commits and is
      announced, the stream's own steps end with its client holding a change
      above the version shown, and nothing more owed for that write. */
  lemma WriteReachesPage(w: World, p: nat, s: nat, sub: nat, t: string) returns (steps: seq<Step>)
    requires Inv(w) && w.hub.now < MAX_U64 && Connected(w, s, sub) && Declared(w.cfg, t)
    requires p in w.pages && w.pages[p].boot == w.hub.boot == w.sessions[s].urlBoot && t in w.pages[p].shown
    requires Token(t, w.pages[p].shown[t]) in w.sessions[s].raw
    ensures Own(steps, s, sub)
    ensures var n := Commits(w.commits, t) + 1;
            var r := Run(Apply(Apply(w, Commit(t)), Announce([t], {(t, n)})), steps);
            && Quiet(r, s, sub) && r.pages == w.pages && Commits(r.commits, t) == n && r.owed == w.owed - {(t, n)}
            && Received(r, s, t, w.pages[p].shown[t] + 1)
  {
    var n := Commits(w.commits, t) + 1;
    var m := Apply(w, Commit(t));
    CommitOwes(w, t);
    CommitKeeps(w, t);
    assert PageSound(w.hub, w.commits, w.owed, w.pages[p]);
    assert ShownSound(w.hub, w.pages[p], t);
    steps := AnnouncedArrives(m, [t], {(t, n)}, s, sub, t, w.pages[p].shown[t]);
    var r := Run(Apply(m, Announce([t], {(t, n)})), steps);
    var e :| e in r.sessions[s].log && e.topic == t && e.boot == r.hub.boot && e.version >= Counter(w.hub, t) + 1;
  }

  // ---------- Connecting ----------

  /** A request for a stream is served exactly while the hub is open with
      room, its list has 1 to 64 entries, all of them tokens, and every topic
      they name is declared and allowed the viewer: one that is not refuses
      the stream rather than serving the rest. */
  lemma ConnectsExactlyWhen(w: World, s: nat, sub: nat, allowed: set<string>)
    requires s in w.sessions && sub !in w.streams && sub !in w.hub.subs
    ensures var raw := w.sessions[s].raw;
            Connected(Apply(w, Connect(s, sub, allowed)), s, sub) <==>
              && !w.hub.closed && |w.hub.subs| < w.cfg.maxStreams
              && 1 <= |raw| <= 64 && (forall k | 0 <= k < |raw| :: ParseToken(raw[k]).Some?)
              && forall topic, v | NamedBy(raw, topic, v) :: Declared(w.cfg, topic) && topic in allowed
  {
    var session := w.sessions[s];
    var stale := session.urlBoot != w.hub.boot;
    ConnectsIfParsed(w, s, sub, allowed);
    WatchesExactlyWhen(session.raw, stale);
    if ParseWatches(session.raw, stale).Some? {
      MayFollowNamed(w.cfg, allowed, session.raw, stale);
    }
  }

  lemma ConnectsIfParsed(w: World, s: nat, sub: nat, allowed: set<string>)
    requires s in w.sessions && sub !in w.streams && sub !in w.hub.subs
    ensures var parsed := ParseWatches(w.sessions[s].raw, w.sessions[s].urlBoot != w.hub.boot);
            Connected(Apply(w, Connect(s, sub, allowed)), s, sub) <==>
              && !w.hub.closed && |w.hub.subs| < w.cfg.maxStreams
              && parsed.Some? && MayFollow(w.cfg, allowed, parsed.value)
  {
  }

  lemma MayFollowNamed(cfg: Config, allowed: set<string>, raw: seq<string>, stale: bool)
    requires ParseWatches(raw, stale).Some?
    ensures MayFollow(cfg, allowed, ParseWatches(raw, stale).value) <==>
            forall topic, v | NamedBy(raw, topic, v) :: Declared(cfg, topic) && topic in allowed
  {
    var ws := ParseWatches(raw, stale).value;
    WatchesExactlyWhen(raw, stale);
    if MayFollow(cfg, allowed, ws) {
      forall topic, v | NamedBy(raw, topic, v)
        ensures Declared(cfg, topic) && topic in allowed
      {
        assert Owes(ws, topic, v);
      }
    } else {
      var i :| 0 <= i < |ws| && !(Declared(cfg, ws[i].topic) && ws[i].topic in allowed);
      assert ws[i] in ws;
    }
  }

  /** A client's first request is its URL's, with nothing received yet. */
  lemma OpensWith(w: World, s: nat, urlBoot: string, raw: seq<string>)
    requires s !in w.sessions
    ensures var r := Apply(w, Open(s, urlBoot, raw));
            && s in r.sessions && r.sessions[s] == Session(urlBoot, raw, [], [], None)
            && r.hub == w.hub && r.streams == w.streams && forall k | k in w.sessions :: k in r.sessions && r.sessions[k] == w.sessions[k]
  {
  }

  /** Streams can be opened in a new process and after every restart. */
  lemma StartsOpen(cfg: Config, boot: string, w: World, again: string)
    requires ValidBoot(again) && again !in w.boots
    ensures !Init(cfg, boot).hub.closed && Init(cfg, boot).hub.subs == map[]
    ensures var r := Apply(w, Restart(again));
            !r.hub.closed && r.hub.subs == map[] && r.hub.boot == again && r.commits == w.commits && r.pages == w.pages
  {
  }

  /** Once closed, and until the process starts again, the hub takes no new
      stream. */
  lemma {:induction false} ClosedTakesNone(w: World, steps: seq<Step>)
    requires w.hub.closed && forall x | x in steps :: !x.Restart?
    ensures var r := Run(w, steps); r.hub.closed && r.streams.Keys <= w.streams.Keys
  {
    if steps != [] {
      var n := |steps| - 1;
      ClosedTakesNone(w, steps[..n]);
      assert steps[n] in steps;
      ClosedStep(Run(w, steps[..n]), steps[n]);
    }
  }

  lemma ClosedStep(w: World, x: Step)
    requires w.hub.closed && !x.Restart?
    ensures Apply(w, x).hub.closed && Apply(w, x).streams.Keys <= w.streams.Keys
  {
  }
}
