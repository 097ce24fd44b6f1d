/** Every run of requests, writes, Notify calls, change streams, reconnects and
    restarts. A step is one critical section under the hub's lock, or one act of
    the network or of a client; any list of steps is a run, and a step that is
    not enabled changes nothing. */
module LiveProtocol {
  import opened Digits
  import opened Text
  import opened LiveWire
  import opened LiveHub

  // ---------- State ----------

  /** One rendered page: the sequence its request began at, and per topic how
      many committed writes its query saw and which version it rendered. */
  datatype Page = Page(boot: string, start: U64, read: map<string, nat>, shown: map<string, U64>)

  /** One EventSource: the URL it opened, every event it has received over all
      its connections, the events written to the connection it has but not yet
      received, and the stream serving it. */
  datatype Session = Session(
    urlBoot: string, raw: seq<string>, log: seq<Event>, wire: seq<Event>, current: Option<nat>)

  /** Where a stream's handler is: about to read counters, writing what it
      found, or at its select. */
  datatype Pc = Reading | Writing(batch: seq<Event>) | Waiting

  datatype Stream = Stream(session: nat, watches: seq<Watch>, pc: Pc)

  /** commits counts each topic's committed writes; owed holds the writes whose
      Notify has not happened yet. */
  datatype World = World(
    cfg: Config, hub: HubState, boots: set<string>,
    commits: map<string, nat>, owed: set<(string, nat)>,
    pages: map<nat, Page>, sessions: map<nat, Session>, streams: map<nat, Stream>)

  function Init(cfg: Config, boot: string): World {
    World(cfg, HubState(boot, 0, map[], map[], false), {boot}, map[], {}, map[], map[], map[])
  }

  function Commits(commits: map<string, nat>, topic: string): nat {
    if topic in commits then commits[topic] else 0
  }

  /** The watches the session's URL alone gives under the hub's boot. */
  function Base(boot: string, s: Session): seq<Watch> {
    match ParseWatches(s.raw, s.urlBoot != boot)
    case Some(ws) => ws
    case None => []
  }

  function LastEventId(s: Session): string {
    if s.log == [] then "" else s.log[|s.log| - 1].id
  }

  // ---------- Steps ----------

  datatype Step =
    | Commit(topic: string)
    | Announce(topics: seq<string>, settled: set<(string, nat)>)
    | StartPage(page: nat)
    | ReadPage(page: nat, topic: string)
    | ShowPage(page: nat, topic: string)
    | Open(session: nat, urlBoot: string, raw: seq<string>)
    | Connect(session: nat, sub: nat, allowed: set<string>)
    | CatchUp(sub: nat)
    | Write(sub: nat, n: nat)
    | Wake(sub: nat)
    | End(sub: nat)
    | Deliver(session: nat)
    | Drop(session: nat)
    | CloseHub
    | Restart(boot: string)

  function DoCommit(w: World, t: string): World {
    if !Declared(w.cfg, t) then w
    else
      var n := Commits(w.commits, t) + 1;
      w.(commits := w.commits[t := n], owed := w.owed + {(t, n)})
  }

  /** Notify(topics...), announcing the settled writes among those owed. */
  function DoAnnounce(w: World, topics: seq<string>, settled: set<(string, nat)>): World {
    if !(settled <= w.owed) || exists x | x in settled :: x.0 !in topics then w
    else w.(hub := Notified(w.cfg, w.hub, topics), owed := w.owed - settled)
  }

  function DoStartPage(w: World, p: nat): World {
    if p in w.pages then w else w.(pages := w.pages[p := Page(w.hub.boot, w.hub.now, map[], map[])])
  }

  function DoReadPage(w: World, p: nat, t: string): World {
    if p !in w.pages || w.pages[p].boot != w.hub.boot || t in w.pages[p].read then w
    else
      var page := w.pages[p];
      w.(pages := w.pages[p := page.(read := page.read[t := Commits(w.commits, t)])])
  }

  function DoShowPage(w: World, p: nat, t: string): World {
    if p !in w.pages || w.pages[p].boot != w.hub.boot || t in w.pages[p].shown then w
    else
      var page := w.pages[p];
      w.(pages := w.pages[p := page.(shown := page.shown[t := Version(w.hub, t, page.start)])])
  }

  function DoOpen(w: World, s: nat, urlBoot: string, raw: seq<string>): World {
    if s in w.sessions then w else w.(sessions := w.sessions[s := Session(urlBoot, raw, [], [], None)])
  }

  /** Every topic is declared and this request's viewer may follow it. */
  predicate MayFollow(cfg: Config, allowed: set<string>, ws: seq<Watch>) {
    forall i | 0 <= i < |ws| :: Declared(cfg, ws[i].topic) && ws[i].topic in allowed
  }

  /** parseWatches, the check of every topic, resume and admit for one request
      of the session; allowed are the topics Allow grants that request. */
  function DoConnect(w: World, s: nat, sub: nat, allowed: set<string>): World {
    if s !in w.sessions || sub in w.streams || sub in w.hub.subs || !HasRoom(w.cfg, w.hub) then w
    else
      var session := w.sessions[s];
      if ParseWatches(session.raw, session.urlBoot != w.hub.boot).None? then w
      else if !MayFollow(w.cfg, allowed, Base(w.hub.boot, session)) then w
      else
        var watches := Resume(Base(w.hub.boot, session), LastEventId(session), w.hub.boot);
        w.(hub := Admitted(w.hub, sub),
           streams := w.streams[sub := Stream(s, watches, Reading)],
           sessions := w.sessions[s := session.(wire := [], current := Some(sub))])
  }

  /** send's locked reading of the counters and the changes it makes. */
  function DoCatchUp(w: World, sub: nat): World {
    if sub !in w.streams || !w.streams[sub].pc.Reading? then w
    else
      var st := w.streams[sub];
      var (last, events) := Changes(w.hub.boot, st.watches, Counters(w.hub, st.watches), 0);
      w.(streams := w.streams[sub := st.(watches := last, pc := if events == [] then Waiting else Writing(events))])
  }

  function Ended(w: World, sub: nat): World {
    w.(streams := w.streams - {sub}, hub := Unregistered(w.hub, sub))
  }

  /** Only the stream a session is connected to reaches its client. */
  predicate Serves(streams: map<nat, Stream>, s: nat, session: Session, sub: nat) {
    session.current == Some(sub) && sub in streams && streams[sub].session == s
  }

  /** Events put on the connection a stream serves. */
  function Sent(w: World, sub: nat, events: seq<Event>): World
    requires sub in w.streams
  {
    var s := w.streams[sub].session;
    if s in w.sessions && Serves(w.streams, s, w.sessions[s], sub)
    then w.(sessions := w.sessions[s := w.sessions[s].(wire := w.sessions[s].wire + events)])
    else w
  }

  /** One write of a batch: all of it, or after an error or a missed deadline
      its first n events, which ends the stream, as Close does. */
  function DoWrite(w: World, sub: nat, n: nat): World {
    if sub !in w.streams || !w.streams[sub].pc.Writing? then w
    else if w.hub.closed then Ended(w, sub)
    else
      var batch := w.streams[sub].pc.batch;
      if n < |batch| then Ended(Sent(w, sub, batch[..n]), sub)
      else Sent(w, sub, batch).(streams := w.streams[sub := w.streams[sub].(pc := Waiting)])
  }

  /** The select takes the pending wake. */
  function DoWake(w: World, sub: nat): World {
    if sub !in w.streams || !w.streams[sub].pc.Waiting? || sub !in w.hub.subs || !w.hub.subs[sub] then w
    else
      w.(hub := w.hub.(subs := w.hub.subs[sub := false]),
         streams := w.streams[sub := w.streams[sub].(pc := Reading)])
  }

  function DoEnd(w: World, sub: nat): World {
    if sub !in w.streams then w else Ended(w, sub)
  }

  function DoDeliver(w: World, s: nat): World {
    if s !in w.sessions || w.sessions[s].wire == [] then w
    else
      var session := w.sessions[s];
      w.(sessions := w.sessions[s := session.(log := session.log + session.wire[..1], wire := session.wire[1..])])
  }

  /** The connection breaks: what was written and not received is lost. */
  function DoDrop(w: World, s: nat): World {
    if s !in w.sessions then w
    else w.(sessions := w.sessions[s := w.sessions[s].(wire := [], current := None)])
  }

  /** The process starts again under a boot ID never used before: every
      stream is gone, and so is every Notify that had not run. */
  function DoRestart(w: World, boot: string): World {
    if boot in w.boots || boot == "" || !Spaceless(boot) then w
    else
      w.(hub := HubState(boot, 0, map[], map[], false), boots := w.boots + {boot}, owed := {}, streams := map[],
         sessions := map s | s in w.sessions :: w.sessions[s].(current := None))
  }

  function Apply(w: World, step: Step): World {
    match step
    case Commit(t) => DoCommit(w, t)
    case Announce(topics, settled) => DoAnnounce(w, topics, settled)
    case StartPage(p) => DoStartPage(w, p)
    case ReadPage(p, t) => DoReadPage(w, p, t)
    case ShowPage(p, t) => DoShowPage(w, p, t)
    case Open(s, urlBoot, raw) => DoOpen(w, s, urlBoot, raw)
    case Connect(s, sub, allowed) => DoConnect(w, s, sub, allowed)
    case CatchUp(sub) => DoCatchUp(w, sub)
    case Write(sub, n) => DoWrite(w, sub, n)
    case Wake(sub) => DoWake(w, sub)
    case End(sub) => DoEnd(w, sub)
    case Deliver(s) => DoDeliver(w, s)
    case Drop(s) => DoDrop(w, s)
    case CloseHub => w.(hub := w.hub.(closed := true))
    case Restart(boot) => DoRestart(w, boot)
  }

  function Run(w: World, steps: seq<Step>): World {
    if steps == [] then w else Apply(Run(w, steps[..|steps| - 1]), steps[|steps| - 1])
  }

  // ---------- What has been told ----------

  /** The client of base has version v of watch i, or a newer one: from its
      URL, or from an event of this boot among events. */
  ghost predicate Told(base: seq<Watch>, boot: string, events: seq<Event>, i: nat, v: U64)
    requires i < |base|
  {
    || (!base[i].stale && base[i].known >= v)
    || exists k :: 0 <= k < |events| && events[k].boot == boot && events[k].topic == base[i].topic && events[k].version >= v
  }

  ghost predicate AllTold(base: seq<Watch>, boot: string, events: seq<Event>, ws: seq<Watch>) {
    |ws| == |base| && forall i | 0 <= i < |ws| && !ws[i].stale :: Told(base, boot, events, i, ws[i].known)
  }

  /** Resuming at event k claims nothing the client was not told by then. */
  ghost predicate EventSound(base: seq<Watch>, boot: string, events: seq<Event>, k: nat)
    requires k < |events|
  {
    var ws := Resume(base, events[k].id, boot);
    Derived(base, ws) && AllTold(base, boot, events[..k + 1], ws)
  }

  ghost predicate Sound(base: seq<Watch>, boot: string, events: seq<Event>) {
    forall k | 0 <= k < |events| && events[k].boot == boot :: EventSound(base, boot, events, k)
  }

  /** Every event's ID names the event's own boot. */
  ghost predicate Tagged(boots: set<string>, events: seq<Event>) {
    forall k | 0 <= k < |events| :: TaggedEvent(boots, events[k])
  }

  ghost predicate TaggedEvent(boots: set<string>, e: Event) {
    e.boot in boots && Fields(e.id) != [] && Fields(e.id)[0] == e.boot
  }

  lemma ToldMore(base: seq<Watch>, boot: string, events: seq<Event>, more: seq<Event>, ws: seq<Watch>)
    requires AllTold(base, boot, events, ws)
    ensures AllTold(base, boot, events + more, ws)
  {
    forall i | 0 <= i < |ws| && !ws[i].stale
      ensures Told(base, boot, events + more, i, ws[i].known)
    {
      assert Told(base, boot, events, i, ws[i].known);
      if base[i].stale || base[i].known < ws[i].known {
        var k :| 0 <= k < |events| && events[k].boot == boot && events[k].topic == base[i].topic && events[k].version >= ws[i].known;
        assert (events + more)[k] == events[k];
      }
    }
  }

  lemma SoundPrefix(base: seq<Watch>, boot: string, events: seq<Event>, more: seq<Event>)
    requires Sound(base, boot, events + more)
    ensures Sound(base, boot, events)
  {
    forall k | 0 <= k < |events| && events[k].boot == boot
      ensures EventSound(base, boot, events, k)
    {
      assert (events + more)[k] == events[k];
      assert EventSound(base, boot, events + more, k);
      assert (events + more)[..k + 1] == events[..k + 1];
    }
  }

  lemma SoundAppend(base: seq<Watch>, boot: string, events: seq<Event>, e: Event)
    requires Sound(base, boot, events)
    requires Derived(base, Resume(base, e.id, boot)) && AllTold(base, boot, events + [e], Resume(base, e.id, boot))
    ensures Sound(base, boot, events + [e])
  {
    var all := events + [e];
    forall k | 0 <= k < |all| && all[k].boot == boot
      ensures EventSound(base, boot, all, k)
    {
      if k < |events| {
        assert all[k] == events[k];
        assert EventSound(base, boot, events, k);
        assert all[..k + 1] == events[..k + 1];
      } else {
        assert all[..k + 1] == all;
      }
    }
  }

  lemma CaughtTold(base: seq<Watch>, boot: string, heard: seq<Event>, ws: seq<Watch>, i: nat, e: Event)
    requires Derived(base, ws) && i < |ws| && AllTold(base, boot, heard, ws)
    requires e.boot == boot && e.topic == ws[i].topic
    ensures Derived(base, Caught(ws, i, e.version))
    ensures AllTold(base, boot, heard + [e], Caught(ws, i, e.version))
  {
    ToldMore(base, boot, heard, [e], ws);
    var after := Caught(ws, i, e.version);
    assert (heard + [e])[|heard|] == e;
    forall j | 0 <= j < |after| && !after[j].stale
      ensures Told(base, boot, heard + [e], j, after[j].known)
    {
      if j != i {
        assert after[j] == ws[j];
      }
    }
  }

  /** Watches that a stream of this boot may hold once its client has heard
      the given events. */
  ghost predicate Faithful(base: seq<Watch>, boot: string, heard: seq<Event>, ws: seq<Watch>) {
    Derived(base, ws) && AllTold(base, boot, heard, ws) && Sound(base, boot, heard)
  }

  lemma CaughtFaithful(base: seq<Watch>, boot: string, heard: seq<Event>, ws: seq<Watch>, i: nat, e: Event)
    requires ValidBoot(boot) && WellFormed(base) && Faithful(base, boot, heard, ws) && i < |ws|
    requires e == Event(boot, ws[i].topic, e.version, Id(boot, Caught(ws, i, e.version)))
    ensures Faithful(base, boot, heard + [e], Caught(ws, i, e.version))
  {
    CaughtTold(base, boot, heard, ws, i, e);
    ResumeRecovers(boot, base, Caught(ws, i, e.version));
    SoundAppend(base, boot, heard, e);
  }

  lemma Regroup(base: seq<Watch>, boot: string, heard: seq<Event>, e: Event, rest: seq<Event>, ws: seq<Watch>)
    requires Faithful(base, boot, (heard + [e]) + rest, ws)
    ensures Faithful(base, boot, heard + ([e] + rest), ws)
  {
    assert heard + ([e] + rest) == (heard + [e]) + rest;
  }

  /** A pass of changes keeps every promise an event ID makes. */
  lemma {:induction false} ChangesFaithful(
    base: seq<Watch>, boot: string, heard: seq<Event>, ws: seq<Watch>, cur: seq<U64>, i: nat)
    requires ValidBoot(boot) && WellFormed(base)
    requires i <= |ws| == |cur| && Faithful(base, boot, heard, ws)
    ensures var r := Changes(boot, ws, cur, i); Faithful(base, boot, heard + r.1, r.0)
    decreases |ws| - i
  {
    if i == |ws| {
      assert heard + [] == heard;
    } else if !Moved(ws[i], cur[i]) {
      ChangesFaithful(base, boot, heard, ws, cur, i + 1);
    } else {
      var after := Caught(ws, i, cur[i]);
      var e := Event(boot, ws[i].topic, cur[i], Id(boot, after));
      CaughtFaithful(base, boot, heard, ws, i, e);
      ChangesFaithful(base, boot, heard + [e], after, cur, i + 1);
      var r := Changes(boot, after, cur, i + 1);
      Regroup(base, boot, heard, e, r.1, r.0);
    }
  }

  lemma {:induction false} ChangesTagged(
    base: seq<Watch>, boots: set<string>, boot: string, ws: seq<Watch>, cur: seq<U64>, i: nat)
    requires ValidBoot(boot) && boot in boots && WellFormed(base) && Derived(base, ws)
    requires i <= |ws| == |cur|
    ensures Tagged(boots, Changes(boot, ws, cur, i).1)
    decreases |ws| - i
  {
    if i == |ws| {
    } else if !Moved(ws[i], cur[i]) {
      ChangesTagged(base, boots, boot, ws, cur, i + 1);
    } else {
      var after := Caught(ws, i, cur[i]);
      ResumeRecovers(boot, base, after);
      ChangesTagged(base, boots, boot, after, cur, i + 1);
      assert TaggedEvent(boots, Event(boot, ws[i].topic, cur[i], Id(boot, after)));
    }
  }

  /** After a pass every watch is current as of the counters it read. */
  lemma {:induction false} ChangesCatchUp(boot: string, ws: seq<Watch>, cur: seq<U64>, i: nat)
    requires i <= |ws| == |cur|
    ensures var (last, events) := Changes(boot, ws, cur, i);
            && |last| == |ws|
            && (forall j | 0 <= j < |ws| :: last[j].topic == ws[j].topic)
            && (forall j | 0 <= j < i :: last[j] == ws[j])
            && (forall j | i <= j < |ws| :: !last[j].stale && last[j].known >= cur[j])
            && (forall k | 0 <= k < |events| :: events[k].boot == boot)
    decreases |ws| - i
  {
    if i == |ws| {
    } else if !Moved(ws[i], cur[i]) {
      ChangesCatchUp(boot, ws, cur, i + 1);
    } else {
      ChangesCatchUp(boot, Caught(ws, i, cur[i]), cur, i + 1);
    }
  }

  // ---------- The invariant ----------

  /** What a finished or running page of this boot can rely on. */
  ghost predicate PageSound(hub: HubState, commits: map<string, nat>, owed: set<(string, nat)>, page: Page) {
    page.boot == hub.boot ==>
      && page.start <= hub.now
      && (forall t | t in page.shown :: ShownSound(hub, page, t))
      && (forall t, i | t in page.read && page.read[t] < i <= Commits(commits, t) :: SettledLater(hub, owed, page, t, i))
  }

  /** The rendered version is the counter itself until the topic changes
      after the request began, and is below it from then on. */
  ghost predicate ShownSound(hub: HubState, page: Page, t: string)
    requires t in page.shown
  {
    if t !in hub.topics then page.shown[t] == 0
    else if hub.topics[t].changedAt <= page.start then page.shown[t] == hub.topics[t].counter
    else page.shown[t] < hub.topics[t].counter
  }

  /** A write the page's query did not see is still owed its Notify, or
      changed the topic after the request began. */
  ghost predicate SettledLater(hub: HubState, owed: set<(string, nat)>, page: Page, t: string, i: nat) {
    (t, i) !in owed ==> t in hub.topics && hub.topics[t].changedAt > page.start
  }

  ghost predicate Fresh(hub: HubState, ws: seq<Watch>) {
    forall i | 0 <= i < |ws| :: !ws[i].stale && ws[i].known >= Counter(hub, ws[i].topic)
  }

  /** Past its reading, a stream has a wake pending or nothing to send. */
  ghost predicate StreamSound(hub: HubState, sessions: map<nat, Session>, sub: nat, st: Stream) {
    && sub in hub.subs && st.session in sessions
    && ParseWatches(sessions[st.session].raw, sessions[st.session].urlBoot != hub.boot).Some?
    && Derived(Base(hub.boot, sessions[st.session]), st.watches)
    && (!st.pc.Reading? ==> hub.subs[sub] || Fresh(hub, st.watches))
  }

  /** Every event a session has received, may still receive on its
      connection, or is about to be written. */
  function Heard(streams: map<nat, Stream>, s: nat, session: Session): seq<Event> {
    session.log + session.wire +
    if session.current.Some? && Serves(streams, s, session, session.current.value)
       && streams[session.current.value].pc.Writing?
    then streams[session.current.value].pc.batch else []
  }

  ghost predicate SessionSound(boot: string, boots: set<string>, streams: map<nat, Stream>, s: nat, session: Session) {
    && Tagged(boots, Heard(streams, s, session))
    && Sound(Base(boot, session), boot, Heard(streams, s, session))
    && (session.current.Some? && Serves(streams, s, session, session.current.value) ==>
          Faithful(Base(boot, session), boot, Heard(streams, s, session), streams[session.current.value].watches))
  }

  ghost predicate PagesInv(w: World) {
    forall p | p in w.pages ::
      w.pages[p].boot in w.boots && PageSound(w.hub, w.commits, w.owed, w.pages[p])
  }

  ghost predicate StreamsInv(w: World) {
    forall sub | sub in w.streams :: StreamSound(w.hub, w.sessions, sub, w.streams[sub])
  }

  ghost predicate SessionsInv(w: World) {
    forall s | s in w.sessions :: SessionSound(w.hub.boot, w.boots, w.streams, s, w.sessions[s])
  }

  ghost predicate HubInv(w: World) {
    && Ordered(w.hub) && w.hub.boot in w.boots && ValidBoot(w.hub.boot)
    && forall x | x in w.owed :: Declared(w.cfg, x.0)
  }

  ghost predicate Inv(w: World) {
    HubInv(w) && PagesInv(w) && StreamsInv(w) && SessionsInv(w)
  }

  // ---------- Every step keeps it ----------

  lemma CommitKeeps(w: World, t: string)
    requires Inv(w)
    ensures Inv(DoCommit(w, t))
  {
    var r := DoCommit(w, t);
    forall p | p in r.pages
      ensures PageSound(r.hub, r.commits, r.owed, r.pages[p])
    {
      assert PageSound(w.hub, w.commits, w.owed, w.pages[p]);
      var page := r.pages[p];
      if page.boot == r.hub.boot {
        forall u, i | u in page.read && page.read[u] < i <= Commits(r.commits, u)
          ensures SettledLater(r.hub, r.owed, page, u, i)
        {
          if (u, i) !in r.owed {
            assert SettledLater(w.hub, w.owed, page, u, i);
          }
        }
      }
    }
  }

  lemma NotifiedMeans(cfg: Config, h: HubState, topics: seq<string>)
    requires Ordered(h) && h.now < MAX_U64
    ensures var r := Notified(cfg, h, topics);
            && Ordered(r) && r.now >= h.now && r.boot == h.boot && r.closed == h.closed && r.subs.Keys == h.subs.Keys
            && (forall t | t in topics && Declared(cfg, t) ::
                  t in r.topics && r.topics[t] == TopicState(Counter(h, t) + 1, h.now + 1))
            && (forall t | t in r.topics && !(t in topics && Declared(cfg, t)) :: t in h.topics && r.topics[t] == h.topics[t])
            && (forall t | t in h.topics :: t in r.topics)
            && (r == h || forall s | s in r.subs :: r.subs[s])
  {
    AcceptedMeans(cfg, topics);
    if Accepted(cfg, topics) != [] {
      RaiseMeans(h, Accepted(cfg, topics));
    }
  }

  lemma AnnounceShown(cfg: Config, h: HubState, topics: seq<string>, page: Page, t: string)
    requires Ordered(h) && h.now < MAX_U64 && page.start <= h.now
    requires t in page.shown && ShownSound(h, page, t)
    ensures ShownSound(Notified(cfg, h, topics), page, t)
  {
    NotifiedMeans(cfg, h, topics);
  }

  lemma AnnouncePage(w: World, topics: seq<string>, settled: set<(string, nat)>, page: Page)
    requires HubInv(w) && w.hub.now < MAX_U64 && settled <= w.owed && forall x | x in settled :: x.0 in topics
    requires PageSound(w.hub, w.commits, w.owed, page)
    ensures PageSound(Notified(w.cfg, w.hub, topics), w.commits, w.owed - settled, page)
  {
    var hub := Notified(w.cfg, w.hub, topics);
    NotifiedMeans(w.cfg, w.hub, topics);
    if page.boot == hub.boot {
      forall t | t in page.shown
        ensures ShownSound(hub, page, t)
      {
        AnnounceShown(w.cfg, w.hub, topics, page, t);
      }
      forall t, i | t in page.read && page.read[t] < i <= Commits(w.commits, t)
        ensures SettledLater(hub, w.owed - settled, page, t, i)
      {
        assert SettledLater(w.hub, w.owed, page, t, i);
        if (t, i) in settled {
          assert (t, i).0 in topics;
        }
      }
    }
  }

  lemma AnnounceKeeps(w: World, topics: seq<string>, settled: set<(string, nat)>)
    requires Inv(w) && w.hub.now < MAX_U64
    ensures Inv(DoAnnounce(w, topics, settled))
  {
    var r := DoAnnounce(w, topics, settled);
    if r != w {
      NotifiedMeans(w.cfg, w.hub, topics);
      forall p | p in r.pages
        ensures PageSound(r.hub, r.commits, r.owed, r.pages[p])
      {
        AnnouncePage(w, topics, settled, w.pages[p]);
      }
      forall sub | sub in r.streams
        ensures StreamSound(r.hub, r.sessions, sub, r.streams[sub])
      {
        assert StreamSound(w.hub, w.sessions, sub, w.streams[sub]);
      }
      forall s | s in r.sessions
        ensures SessionSound(r.hub.boot, r.boots, r.streams, s, r.sessions[s])
      {
        assert SessionSound(w.hub.boot, w.boots, w.streams, s, w.sessions[s]);
      }
    }
  }

  lemma PageKeeps(w: World, r: World, p: nat)
    requires Inv(w) && r == w.(pages := r.pages)
    requires p in r.pages && forall q | q in r.pages && q != p :: q in w.pages && r.pages[q] == w.pages[q]
    requires r.pages[p].boot in r.boots && PageSound(r.hub, r.commits, r.owed, r.pages[p])
    ensures Inv(r)
  {
  }

  lemma StartPageKeeps(w: World, p: nat)
    requires Inv(w)
    ensures Inv(DoStartPage(w, p))
  {
    if p !in w.pages {
      PageKeeps(w, DoStartPage(w, p), p);
    }
  }

  lemma ReadPageKeeps(w: World, p: nat, t: string)
    requires Inv(w)
    ensures Inv(DoReadPage(w, p, t))
  {
    var r := DoReadPage(w, p, t);
    if r != w {
      var was, page := w.pages[p], r.pages[p];
      forall u, i | u in page.read && page.read[u] < i <= Commits(r.commits, u)
        ensures SettledLater(r.hub, r.owed, page, u, i)
      {
        assert u in was.read;
        assert SettledLater(w.hub, w.owed, was, u, i);
      }
      forall u | u in page.shown
        ensures ShownSound(r.hub, page, u)
      {
        assert ShownSound(w.hub, was, u);
      }
      PageKeeps(w, r, p);
    }
  }

  lemma ShowPageKeeps(w: World, p: nat, t: string)
    requires Inv(w)
    ensures Inv(DoShowPage(w, p, t))
  {
    var r := DoShowPage(w, p, t);
    if r != w {
      var was, page := w.pages[p], r.pages[p];
      forall u, i | u in page.read && page.read[u] < i <= Commits(r.commits, u)
        ensures SettledLater(r.hub, r.owed, page, u, i)
      {
        assert SettledLater(w.hub, w.owed, was, u, i);
      }
      forall u | u in page.shown
        ensures ShownSound(r.hub, page, u)
      {
        if u != t {
          assert ShownSound(w.hub, was, u);
        }
      }
      PageKeeps(w, r, p);
    }
  }

  lemma OpenKeeps(w: World, s: nat, urlBoot: string, raw: seq<string>)
    requires Inv(w)
    ensures Inv(DoOpen(w, s, urlBoot, raw))
  {
    var r := DoOpen(w, s, urlBoot, raw);
    if r != w {
      forall sub | sub in r.streams
        ensures StreamSound(r.hub, r.sessions, sub, r.streams[sub])
      {
        assert StreamSound(w.hub, w.sessions, sub, w.streams[sub]);
      }
      assert Heard(r.streams, s, r.sessions[s]) == [];
    }
  }

  /** A step that leaves the hub's boot and every other session and stream
      alone keeps the other sessions' promises. */
  lemma OtherSessions(w: World, r: World, sub: nat, s: nat)
    requires SessionsInv(w) && r.hub.boot == w.hub.boot && r.boots == w.boots
    requires s in w.sessions && s in r.sessions && r.sessions[s] == w.sessions[s]
    requires sub in w.streams ==> w.streams[sub].session != s
    requires sub in r.streams ==> r.streams[sub].session != s
    requires forall k | k != sub :: k in w.streams <==> k in r.streams
    requires forall k | k != sub && k in w.streams :: r.streams[k] == w.streams[k]
    ensures SessionSound(r.hub.boot, r.boots, r.streams, s, r.sessions[s])
  {
    assert SessionSound(w.hub.boot, w.boots, w.streams, s, w.sessions[s]);
    assert Heard(r.streams, s, r.sessions[s]) == Heard(w.streams, s, w.sessions[s]);
  }

  lemma BaseSound(boot: string, s: Session)
    requires ParseWatches(s.raw, s.urlBoot != boot).Some?
    ensures WellFormed(Base(boot, s)) && Derived(Base(boot, s), Base(boot, s)) && AllStale(Base(boot, s), s.urlBoot != boot)
  {
    ParseFromSound(s.raw, [], s.urlBoot != boot);
  }

  /** A new connection starts from no more than its client was told. */
  lemma ResumeFaithful(boot: string, boots: set<string>, s: Session)
    requires ParseWatches(s.raw, s.urlBoot != boot).Some?
    requires Tagged(boots, s.log) && Sound(Base(boot, s), boot, s.log)
    ensures Faithful(Base(boot, s), boot, s.log, Resume(Base(boot, s), LastEventId(s), boot))
  {
    var base := Base(boot, s);
    BaseSound(boot, s);
    if s.log == [] {
      assert Resume(base, "", boot) == base;
    } else {
      var k := |s.log| - 1;
      assert TaggedEvent(boots, s.log[k]);
      if s.log[k].boot == boot {
        assert EventSound(base, boot, s.log, k);
        assert s.log[..k + 1] == s.log;
      } else {
        ResumeIgnores(base, s.log[k].id, boot);
      }
    }
  }

  lemma LogSound(w: World, s: nat)
    requires SessionsInv(w) && s in w.sessions
    ensures Tagged(w.boots, w.sessions[s].log) && Sound(Base(w.hub.boot, w.sessions[s]), w.hub.boot, w.sessions[s].log)
  {
    var session := w.sessions[s];
    var heard := Heard(w.streams, s, session);
    assert SessionSound(w.hub.boot, w.boots, w.streams, s, session);
    assert heard == session.log + heard[|session.log|..];
    SoundPrefix(Base(w.hub.boot, session), w.hub.boot, session.log, heard[|session.log|..]);
    forall k | 0 <= k < |session.log|
      ensures TaggedEvent(w.boots, session.log[k])
    {
      assert heard[k] == session.log[k];
    }
  }

  lemma ConnectSession(w: World, s: nat, sub: nat, allowed: set<string>)
    requires Inv(w) && DoConnect(w, s, sub, allowed) != w
    ensures var r := DoConnect(w, s, sub, allowed);
            && SessionSound(r.hub.boot, r.boots, r.streams, s, r.sessions[s])
            && Derived(Base(r.hub.boot, r.sessions[s]), r.streams[sub].watches)
  {
    var r := DoConnect(w, s, sub, allowed);
    LogSound(w, s);
    ResumeFaithful(w.hub.boot, w.boots, w.sessions[s]);
    assert Heard(r.streams, s, r.sessions[s]) == w.sessions[s].log;
  }

  lemma ConnectStreams(w: World, s: nat, sub: nat, allowed: set<string>)
    requires Inv(w) && DoConnect(w, s, sub, allowed) != w
    ensures StreamsInv(DoConnect(w, s, sub, allowed))
  {
    var r := DoConnect(w, s, sub, allowed);
    ConnectSession(w, s, sub, allowed);
    forall k | k in r.streams
      ensures StreamSound(r.hub, r.sessions, k, r.streams[k])
    {
      if k != sub {
        assert StreamSound(w.hub, w.sessions, k, w.streams[k]);
      }
    }
  }

  lemma SamePages(w: World, r: World)
    requires PagesInv(w) && r.pages == w.pages && r.commits == w.commits && r.owed == w.owed && r.boots == w.boots
    requires r.hub == w.hub.(subs := r.hub.subs, closed := r.hub.closed)
    ensures PagesInv(r)
  {
    forall p | p in r.pages
      ensures PageSound(r.hub, r.commits, r.owed, r.pages[p])
    {
      SamePage(w.hub, r.hub, w.commits, w.owed, w.pages[p]);
    }
  }

  lemma ConnectKeeps(w: World, s: nat, sub: nat, allowed: set<string>)
    requires Inv(w)
    ensures Inv(DoConnect(w, s, sub, allowed))
  {
    var r := DoConnect(w, s, sub, allowed);
    if r != w {
      ConnectSession(w, s, sub, allowed);
      ConnectStreams(w, s, sub, allowed);
      SamePages(w, r);
      forall k | k in r.sessions && k != s
        ensures SessionSound(r.hub.boot, r.boots, r.streams, k, r.sessions[k])
      {
        OtherSessions(w, r, sub, k);
      }
    }
  }

  /** One stream moves on without reaching its client. */
  ghost predicate OneMoves(w: World, r: World, sub: nat) {
    && sub in w.streams && sub in r.streams && r.streams[sub].session == w.streams[sub].session
    && r == w.(hub := r.hub, streams := w.streams[sub := r.streams[sub]])
    && r.hub == w.hub.(subs := r.hub.subs) && r.hub.subs.Keys == w.hub.subs.Keys
    && forall k | k in w.hub.subs && k != sub :: r.hub.subs[k] == w.hub.subs[k]
  }

  lemma OtherStreams(w: World, r: World, sub: nat)
    requires StreamsInv(w) && OneMoves(w, r, sub) && StreamSound(r.hub, r.sessions, sub, r.streams[sub])
    ensures StreamsInv(r)
  {
    forall k | k in r.streams && k != sub
      ensures StreamSound(r.hub, r.sessions, k, r.streams[k])
    {
      assert StreamSound(w.hub, w.sessions, k, w.streams[k]);
    }
  }

  lemma OtherClients(w: World, r: World, sub: nat)
    requires SessionsInv(w) && OneMoves(w, r, sub)
    requires var s := w.streams[sub].session; s in w.sessions ==> SessionSound(r.hub.boot, r.boots, r.streams, s, r.sessions[s])
    ensures SessionsInv(r)
  {
    forall k | k in r.sessions && k != w.streams[sub].session
      ensures SessionSound(r.hub.boot, r.boots, r.streams, k, r.sessions[k])
    {
      OtherSessions(w, r, sub, k);
    }
  }

  lemma StreamStep(w: World, r: World, sub: nat)
    requires Inv(w) && OneMoves(w, r, sub) && StreamSound(r.hub, r.sessions, sub, r.streams[sub])
    requires var s := w.streams[sub].session; s in w.sessions ==> SessionSound(r.hub.boot, r.boots, r.streams, s, r.sessions[s])
    ensures Inv(r)
  {
    OtherStreams(w, r, sub);
    OtherClients(w, r, sub);
    SamePages(w, r);
  }

  lemma SamePage(h: HubState, k: HubState, commits: map<string, nat>, owed: set<(string, nat)>, page: Page)
    requires PageSound(h, commits, owed, page)
    requires k == h.(subs := k.subs, closed := k.closed)
    ensures PageSound(k, commits, owed, page)
  {
    if page.boot == k.boot {
      forall t | t in page.shown
        ensures ShownSound(k, page, t)
      {
        assert ShownSound(h, page, t);
      }
      forall t, i | t in page.read && page.read[t] < i <= Commits(commits, t)
        ensures SettledLater(k, owed, page, t, i)
      {
        assert SettledLater(h, owed, page, t, i);
      }
    }
  }

  lemma TaggedAppend(boots: set<string>, events: seq<Event>, more: seq<Event>)
    requires Tagged(boots, events) && Tagged(boots, more)
    ensures Tagged(boots, events + more)
  {
  }

  lemma CatchUpHeard(w: World, sub: nat)
    requires sub in w.streams && w.streams[sub].pc.Reading? && w.streams[sub].session in w.sessions
    ensures var st, r := w.streams[sub], DoCatchUp(w, sub);
            var session := w.sessions[st.session];
            Heard(r.streams, st.session, session) == Heard(w.streams, st.session, session) +
              if Serves(w.streams, st.session, session, sub)
              then Changes(w.hub.boot, st.watches, Counters(w.hub, st.watches), 0).1 else []
  {
  }

  lemma CatchUpSession(w: World, sub: nat)
    requires Inv(w) && sub in w.streams && w.streams[sub].pc.Reading?
    ensures var s, r := w.streams[sub].session, DoCatchUp(w, sub);
            s in w.sessions && SessionSound(w.hub.boot, w.boots, r.streams, s, w.sessions[s])
  {
    var st, boot := w.streams[sub], w.hub.boot;
    assert StreamSound(w.hub, w.sessions, sub, st);
    var session := w.sessions[st.session];
    assert SessionSound(boot, w.boots, w.streams, st.session, session);
    CatchUpHeard(w, sub);
    if Serves(w.streams, st.session, session, sub) {
      var heard, cur := Heard(w.streams, st.session, session), Counters(w.hub, st.watches);
      BaseSound(boot, session);
      ChangesFaithful(Base(boot, session), boot, heard, st.watches, cur, 0);
      ChangesTagged(Base(boot, session), w.boots, boot, st.watches, cur, 0);
      TaggedAppend(w.boots, heard, Changes(boot, st.watches, cur, 0).1);
    } else {
      SameHeard(boot, w.boots, w.streams, DoCatchUp(w, sub).streams, st.session, session, session);
    }
  }

  lemma SameHeard(boot: string, boots: set<string>, a: map<nat, Stream>, b: map<nat, Stream>, s: nat, x: Session, y: Session)
    requires SessionSound(boot, boots, a, s, x)
    requires x.raw == y.raw && x.urlBoot == y.urlBoot && Heard(a, s, x) == Heard(b, s, y)
    requires forall k | Serves(b, s, y, k) :: Serves(a, s, x, k) && a[k].watches == b[k].watches
    ensures SessionSound(boot, boots, b, s, y)
  {
  }

  lemma CatchUpKeeps(w: World, sub: nat)
    requires Inv(w)
    ensures Inv(DoCatchUp(w, sub))
  {
    if sub in w.streams && w.streams[sub].pc.Reading? {
      var st := w.streams[sub];
      assert StreamSound(w.hub, w.sessions, sub, st);
      CatchUpSession(w, sub);
      CaughtUp(w.hub, st.watches);
      ChangesDerived(Base(w.hub.boot, w.sessions[st.session]), w.hub.boot, st.watches, Counters(w.hub, st.watches), 0);
      StreamStep(w, DoCatchUp(w, sub), sub);
    }
  }

  lemma CaughtUp(hub: HubState, ws: seq<Watch>)
    ensures Fresh(hub, Changes(hub.boot, ws, Counters(hub, ws), 0).0)
  {
    ChangesCatchUp(hub.boot, ws, Counters(hub, ws), 0);
  }

  lemma {:induction false} ChangesDerived(base: seq<Watch>, boot: string, ws: seq<Watch>, cur: seq<U64>, i: nat)
    requires i <= |ws| == |cur| && Derived(base, ws)
    ensures Derived(base, Changes(boot, ws, cur, i).0)
    decreases |ws| - i
  {
    if i == |ws| {
    } else if !Moved(ws[i], cur[i]) {
      ChangesDerived(base, boot, ws, cur, i + 1);
    } else {
      ChangesDerived(base, boot, Caught(ws, i, cur[i]), cur, i + 1);
    }
  }

  lemma WakeSession(w: World, sub: nat, s: nat)
    requires DoWake(w, sub) != w && s == w.streams[sub].session
    requires s in w.sessions && SessionSound(w.hub.boot, w.boots, w.streams, s, w.sessions[s])
    ensures SessionSound(w.hub.boot, w.boots, DoWake(w, sub).streams, s, w.sessions[s])
  {
    SameHeard(w.hub.boot, w.boots, w.streams, DoWake(w, sub).streams, s, w.sessions[s], w.sessions[s]);
  }

  lemma WakeKeeps(w: World, sub: nat)
    requires Inv(w)
    ensures Inv(DoWake(w, sub))
  {
    if DoWake(w, sub) != w {
      var s := w.streams[sub].session;
      assert StreamSound(w.hub, w.sessions, sub, w.streams[sub]);
      assert SessionSound(w.hub.boot, w.boots, w.streams, s, w.sessions[s]);
      WakeSession(w, sub, s);
      StreamStep(w, DoWake(w, sub), sub);
    }
  }

  lemma EndStreams(w: World, sub: nat)
    requires StreamsInv(w) && sub in w.streams
    ensures StreamsInv(Ended(w, sub))
  {
    var r := Ended(w, sub);
    forall k | k in r.streams
      ensures StreamSound(r.hub, r.sessions, k, r.streams[k])
    {
      assert StreamSound(w.hub, w.sessions, k, w.streams[k]);
    }
  }

  lemma EndSessions(w: World, sub: nat)
    requires SessionsInv(w) && sub in w.streams
    ensures SessionsInv(Ended(w, sub))
  {
    var r := Ended(w, sub);
    forall s | s in r.sessions
      ensures SessionSound(r.hub.boot, r.boots, r.streams, s, r.sessions[s])
    {
      ShorterHeard(w, r, s);
    }
  }

  lemma EndKeeps(w: World, sub: nat)
    requires Inv(w) && sub in w.streams
    ensures Inv(Ended(w, sub))
  {
    EndStreams(w, sub);
    EndSessions(w, sub);
    SamePages(w, Ended(w, sub));
  }

  /** A session that hears a prefix of what it could have heard, with no new
      stream serving it, keeps its promises. */
  lemma ShorterHeard(w: World, r: World, s: nat)
    requires SessionsInv(w) && r.hub.boot == w.hub.boot && r.boots == w.boots
    requires s in w.sessions && s in r.sessions
    requires r.sessions[s].raw == w.sessions[s].raw && r.sessions[s].urlBoot == w.sessions[s].urlBoot
    requires var h, g := Heard(w.streams, s, w.sessions[s]), Heard(r.streams, s, r.sessions[s]);
             h == g || (|g| <= |h| && h[..|g|] == g && forall sub :: !Serves(r.streams, s, r.sessions[s], sub))
    requires forall sub | Serves(r.streams, s, r.sessions[s], sub) ::
               Serves(w.streams, s, w.sessions[s], sub) && r.streams[sub].watches == w.streams[sub].watches
    ensures SessionSound(r.hub.boot, r.boots, r.streams, s, r.sessions[s])
  {
    var h, g := Heard(w.streams, s, w.sessions[s]), Heard(r.streams, s, r.sessions[s]);
    assert SessionSound(w.hub.boot, w.boots, w.streams, s, w.sessions[s]);
    if h != g {
      assert h == g + h[|g|..];
      SoundPrefix(Base(w.hub.boot, w.sessions[s]), w.hub.boot, g, h[|g|..]);
    }
  }

  /** No session's URL changes, and streams only end or leave a write. */
  ghost predicate OnlyWrites(w: World, r: World) {
    && r.hub == w.hub.(subs := r.hub.subs)
    && r.cfg == w.cfg && r.boots == w.boots && r.pages == w.pages && r.commits == w.commits && r.owed == w.owed
    && (forall s | s in w.sessions ::
          s in r.sessions && r.sessions[s].raw == w.sessions[s].raw && r.sessions[s].urlBoot == w.sessions[s].urlBoot)
    && (forall k | k in r.streams ::
          && k in w.streams && r.streams[k].session == w.streams[k].session && r.streams[k].watches == w.streams[k].watches
          && (r.streams[k].pc.Reading? <==> w.streams[k].pc.Reading?)
          && (k in w.hub.subs ==> k in r.hub.subs && r.hub.subs[k] == w.hub.subs[k]))
  }

  lemma OnlyWritesStreams(w: World, r: World)
    requires StreamsInv(w) && OnlyWrites(w, r)
    ensures StreamsInv(r)
  {
    forall k | k in r.streams
      ensures StreamSound(r.hub, r.sessions, k, r.streams[k])
    {
      assert StreamSound(w.hub, w.sessions, k, w.streams[k]);
    }
  }

  lemma OnlyWritesKeeps(w: World, r: World)
    requires HubInv(w) && PagesInv(w) && StreamsInv(w) && OnlyWrites(w, r) && SessionsInv(r)
    ensures Inv(r)
  {
    OnlyWritesStreams(w, r);
    SamePages(w, r);
  }

  lemma SentIsOnlyWrites(w: World, sub: nat, events: seq<Event>)
    requires sub in w.streams
    ensures OnlyWrites(w, Sent(w, sub, events))
  {
  }

  lemma EndedIsOnlyWrites(w: World, r: World, sub: nat)
    requires OnlyWrites(w, r) && sub in r.streams
    ensures OnlyWrites(w, Ended(r, sub))
  {
  }

  lemma WaitingIsOnlyWrites(w: World, r: World, sub: nat)
    requires OnlyWrites(w, r) && r.streams == w.streams && sub in w.streams && w.streams[sub].pc.Writing?
    ensures OnlyWrites(w, r.(streams := w.streams[sub := w.streams[sub].(pc := Waiting)]))
  {
  }

  lemma WriteIsOnlyWrites(w: World, sub: nat, n: nat)
    ensures OnlyWrites(w, DoWrite(w, sub, n))
  {
    if sub in w.streams && w.streams[sub].pc.Writing? {
      var batch := w.streams[sub].pc.batch;
      if w.hub.closed {
        EndedIsOnlyWrites(w, w, sub);
      } else if n < |batch| {
        SentIsOnlyWrites(w, sub, batch[..n]);
        EndedIsOnlyWrites(w, Sent(w, sub, batch[..n]), sub);
      } else {
        SentIsOnlyWrites(w, sub, batch);
        WaitingIsOnlyWrites(w, Sent(w, sub, batch), sub);
      }
    }
  }

  lemma WriteUnrelated(w: World, sub: nat, n: nat, s: nat)
    requires sub in w.streams && w.streams[sub].pc.Writing? && !w.hub.closed
    requires s in w.sessions && s != w.streams[sub].session
    ensures var r := DoWrite(w, sub, n);
            && s in r.sessions && r.sessions[s] == w.sessions[s]
            && Heard(r.streams, s, w.sessions[s]) == Heard(w.streams, s, w.sessions[s])
            && forall k | Serves(r.streams, s, w.sessions[s], k) ::
                 Serves(w.streams, s, w.sessions[s], k) && w.streams[k].watches == r.streams[k].watches
  {
  }

  lemma WriteOthers(w: World, sub: nat, n: nat, s: nat)
    requires sub in w.streams && w.streams[sub].pc.Writing? && !w.hub.closed
    requires s in w.sessions && s != w.streams[sub].session
    requires SessionSound(w.hub.boot, w.boots, w.streams, s, w.sessions[s])
    ensures var r := DoWrite(w, sub, n); s in r.sessions && SessionSound(w.hub.boot, w.boots, r.streams, s, r.sessions[s])
  {
    WriteUnrelated(w, sub, n, s);
    SameHeard(w.hub.boot, w.boots, w.streams, DoWrite(w, sub, n).streams, s, w.sessions[s], w.sessions[s]);
  }

  /** The events a write puts on the wire were already about to be heard. */
  lemma WriteSessions(w: World, sub: nat, n: nat)
    requires SessionsInv(w) && sub in w.streams && w.streams[sub].pc.Writing? && !w.hub.closed
    requires w.streams[sub].session in w.sessions
    ensures SessionsInv(DoWrite(w, sub, n))
  {
    var r := DoWrite(w, sub, n);
    forall k | k in r.sessions
      ensures SessionSound(r.hub.boot, r.boots, r.streams, k, r.sessions[k])
    {
      assert SessionSound(w.hub.boot, w.boots, w.streams, k, w.sessions[k]);
      if k != w.streams[sub].session {
        WriteOthers(w, sub, n, k);
      } else if n >= |w.streams[sub].pc.batch| {
        ReachSession(w, sub, n);
      } else {
        CutSession(w, sub, n);
      }
    }
  }

  lemma ReachHeard(w: World, sub: nat, n: nat)
    requires sub in w.streams && w.streams[sub].pc.Writing? && n >= |w.streams[sub].pc.batch| && !w.hub.closed
    requires w.streams[sub].session in w.sessions
    ensures var s, r := w.streams[sub].session, DoWrite(w, sub, n);
            Heard(r.streams, s, r.sessions[s]) == Heard(w.streams, s, w.sessions[s])
  {
    var s, r := w.streams[sub].session, DoWrite(w, sub, n);
    var x, y, batch := w.sessions[s], r.sessions[s], w.streams[sub].pc.batch;
    if Serves(w.streams, s, x, sub) {
      assert Heard(w.streams, s, x) == (x.log + x.wire) + batch;
      assert Heard(r.streams, s, y) == x.log + (x.wire + batch);
    } else {
      assert y == x;
    }
  }

  lemma ReachSession(w: World, sub: nat, n: nat)
    requires sub in w.streams && w.streams[sub].pc.Writing? && n >= |w.streams[sub].pc.batch| && !w.hub.closed
    requires w.streams[sub].session in w.sessions
    requires var s := w.streams[sub].session; SessionSound(w.hub.boot, w.boots, w.streams, s, w.sessions[s])
    ensures var s, r := w.streams[sub].session, DoWrite(w, sub, n);
            s in r.sessions && SessionSound(r.hub.boot, r.boots, r.streams, s, r.sessions[s])
  {
    var s, r := w.streams[sub].session, DoWrite(w, sub, n);
    ReachHeard(w, sub, n);
    SameHeard(w.hub.boot, w.boots, w.streams, r.streams, s, w.sessions[s], r.sessions[s]);
  }

  lemma CutSession(w: World, sub: nat, n: nat)
    requires sub in w.streams && w.streams[sub].pc.Writing? && n < |w.streams[sub].pc.batch| && !w.hub.closed
    requires SessionsInv(w) && w.streams[sub].session in w.sessions
    ensures var s, r := w.streams[sub].session, DoWrite(w, sub, n);
            s in r.sessions && SessionSound(r.hub.boot, r.boots, r.streams, s, r.sessions[s])
  {
    CutHeard(w, sub, n);
    ShorterHeard(w, DoWrite(w, sub, n), w.streams[sub].session);
  }

  lemma WriteKeeps(w: World, sub: nat, n: nat)
    requires Inv(w)
    ensures Inv(DoWrite(w, sub, n))
  {
    if sub in w.streams && w.streams[sub].pc.Writing? {
      if w.hub.closed {
        EndKeeps(w, sub);
      } else {
        assert StreamSound(w.hub, w.sessions, sub, w.streams[sub]);
        WriteIsOnlyWrites(w, sub, n);
        WriteSessions(w, sub, n);
        OnlyWritesKeeps(w, DoWrite(w, sub, n));
      }
    }
  }

  lemma CutHeard(w: World, sub: nat, n: nat)
    requires sub in w.streams && w.streams[sub].pc.Writing? && !w.hub.closed && n < |w.streams[sub].pc.batch|
    requires w.streams[sub].session in w.sessions
    ensures var s, r := w.streams[sub].session, DoWrite(w, sub, n);
            var h, g := Heard(w.streams, s, w.sessions[s]), Heard(r.streams, s, r.sessions[s]);
            h == g || (|g| <= |h| && h[..|g|] == g && forall k :: !Serves(r.streams, s, r.sessions[s], k))
  {
    var s, r := w.streams[sub].session, DoWrite(w, sub, n);
    var old_, new_ := w.sessions[s], r.sessions[s];
    var batch := w.streams[sub].pc.batch;
    if Serves(w.streams, s, old_, sub) {
      assert Heard(w.streams, s, old_) == (old_.log + old_.wire) + batch;
      assert Heard(r.streams, s, new_) == old_.log + (old_.wire + batch[..n]);
    } else {
      assert new_ == old_;
      assert Heard(w.streams, s, old_) == Heard(r.streams, s, new_);
    }
  }

  lemma OneShifted(log: seq<Event>, wire: seq<Event>)
    requires wire != []
    ensures (log + wire[..1]) + wire[1..] == log + wire
  {
  }

  lemma DeliverHeard(w: World, s: nat)
    requires s in w.sessions && w.sessions[s].wire != []
    ensures var r := DoDeliver(w, s); Heard(r.streams, s, r.sessions[s]) == Heard(w.streams, s, w.sessions[s])
  {
    OneShifted(w.sessions[s].log, w.sessions[s].wire);
  }

  lemma DeliverKeeps(w: World, s: nat)
    requires Inv(w)
    ensures Inv(DoDeliver(w, s))
  {
    if s in w.sessions && w.sessions[s].wire != [] {
      DeliverHeard(w, s);
      ClientKeeps(w, DoDeliver(w, s), s);
    }
  }

  lemma LogIsHeard(log: seq<Event>, wire: seq<Event>, batch: seq<Event>)
    ensures |log| <= |log + wire + batch| && (log + wire + batch)[..|log|] == log
  {
  }

  lemma DropHeard(w: World, s: nat)
    requires s in w.sessions
    ensures var r := DoDrop(w, s); var h := Heard(w.streams, s, w.sessions[s]);
            && Heard(r.streams, s, r.sessions[s]) == w.sessions[s].log
            && |w.sessions[s].log| <= |h| && h[..|w.sessions[s].log|] == w.sessions[s].log
  {
    var session := w.sessions[s];
    var batch := if session.current.Some? && Serves(w.streams, s, session, session.current.value)
                    && w.streams[session.current.value].pc.Writing?
                 then w.streams[session.current.value].pc.batch else [];
    LogIsHeard(session.log, session.wire, batch);
  }

  lemma DropKeeps(w: World, s: nat)
    requires Inv(w)
    ensures Inv(DoDrop(w, s))
  {
    if s in w.sessions {
      DropHeard(w, s);
      ClientKeeps(w, DoDrop(w, s), s);
    }
  }

  /** A step of one client alone. */
  lemma ClientKeeps(w: World, r: World, s: nat)
    requires Inv(w) && s in w.sessions && s in r.sessions && r == w.(sessions := w.sessions[s := r.sessions[s]])
    requires r.sessions[s].raw == w.sessions[s].raw && r.sessions[s].urlBoot == w.sessions[s].urlBoot
    requires r.sessions[s].current == w.sessions[s].current || r.sessions[s].current == None
    requires var h, g := Heard(w.streams, s, w.sessions[s]), Heard(r.streams, s, r.sessions[s]);
             h == g || (|g| <= |h| && h[..|g|] == g && r.sessions[s].current == None)
    ensures Inv(r)
  {
    forall k | k in r.streams
      ensures StreamSound(r.hub, r.sessions, k, r.streams[k])
    {
      assert StreamSound(w.hub, w.sessions, k, w.streams[k]);
    }
    ShorterHeard(w, r, s);
    forall k | k in r.sessions && k != s
      ensures SessionSound(r.hub.boot, r.boots, r.streams, k, r.sessions[k])
    {
      assert SessionSound(w.hub.boot, w.boots, w.streams, k, w.sessions[k]);
    }
  }

  lemma CloseKeeps(w: World)
    requires Inv(w)
    ensures Inv(w.(hub := w.hub.(closed := true)))
  {
    var r := w.(hub := w.hub.(closed := true));
    forall k | k in r.streams
      ensures StreamSound(r.hub, r.sessions, k, r.streams[k])
    {
      assert StreamSound(w.hub, w.sessions, k, w.streams[k]);
    }
    forall p | p in r.pages
      ensures PageSound(r.hub, r.commits, r.owed, r.pages[p])
    {
      SamePage(w.hub, r.hub, w.commits, w.owed, w.pages[p]);
    }
    forall k | k in r.sessions
      ensures SessionSound(r.hub.boot, r.boots, r.streams, k, r.sessions[k])
    {
      assert SessionSound(w.hub.boot, w.boots, w.streams, k, w.sessions[k]);
    }
  }

  lemma RestartKeeps(w: World, boot: string)
    requires Inv(w)
    ensures Inv(DoRestart(w, boot))
  {
    var r := DoRestart(w, boot);
    if r != w {
      forall s | s in r.sessions
        ensures SessionSound(r.hub.boot, r.boots, r.streams, s, r.sessions[s])
      {
        assert SessionSound(w.hub.boot, w.boots, w.streams, s, w.sessions[s]);
        var h, g := Heard(w.streams, s, w.sessions[s]), Heard(r.streams, s, r.sessions[s]);
        assert |g| <= |h| && h[..|g|] == g;
        forall k | 0 <= k < |g|
          ensures TaggedEvent(r.boots, g[k]) && g[k].boot != boot
        {
          assert TaggedEvent(w.boots, h[k]);
        }
      }
    }
  }

  lemma PageStepKeeps(w: World, step: Step)
    requires Inv(w) && w.hub.now < MAX_U64 && (step.Commit? || step.Announce? || step.StartPage? || step.ReadPage? || step.ShowPage?)
    ensures Inv(Apply(w, step))
  {
    match step
    case Commit(t) => CommitKeeps(w, t);
    case Announce(topics, settled) => AnnounceKeeps(w, topics, settled);
    case StartPage(p) => StartPageKeeps(w, p);
    case ReadPage(p, t) => ReadPageKeeps(w, p, t);
    case ShowPage(p, t) => ShowPageKeeps(w, p, t);
  }

  lemma StreamStepKeeps(w: World, step: Step)
    requires Inv(w) && (step.Connect? || step.CatchUp? || step.Write? || step.Wake? || step.End?)
    ensures Inv(Apply(w, step))
  {
    if step.Connect? {
      ConnectKeeps(w, step.session, step.sub, step.allowed);
      assert Apply(w, step) == DoConnect(w, step.session, step.sub, step.allowed);
    } else if step.CatchUp? {
      CatchUpKeeps(w, step.sub);
      assert Apply(w, step) == DoCatchUp(w, step.sub);
    } else if step.Write? {
      WriteKeeps(w, step.sub, step.n);
      assert Apply(w, step) == DoWrite(w, step.sub, step.n);
    } else if step.Wake? {
      WakeKeeps(w, step.sub);
      assert Apply(w, step) == DoWake(w, step.sub);
    } else if step.sub in w.streams {
      EndKeeps(w, step.sub);
      assert Apply(w, step) == Ended(w, step.sub);
    }
  }

  lemma ClientStepKeeps(w: World, step: Step)
    requires Inv(w) && (step.Open? || step.Deliver? || step.Drop? || step.CloseHub? || step.Restart?)
    ensures Inv(Apply(w, step))
  {
    match step
    case Open(s, urlBoot, raw) => OpenKeeps(w, s, urlBoot, raw);
    case Deliver(s) => DeliverKeeps(w, s);
    case Drop(s) => DropKeeps(w, s);
    case CloseHub => CloseKeeps(w);
    case Restart(boot) => RestartKeeps(w, boot);
  }

  lemma NowGrows(w: World, step: Step)
    ensures Apply(w, step).hub.now <= w.hub.now + 1
  {
    match step
    case Announce(topics, settled) =>
    case Connect(s, sub, allowed) =>
    case CatchUp(sub) =>
    case Write(sub, n) =>
    case Wake(sub) =>
    case End(sub) =>
    case Restart(boot) =>
    case _ =>
  }

  lemma StepKeeps(w: World, step: Step)
    requires Inv(w) && w.hub.now < MAX_U64
    ensures Inv(Apply(w, step))
  {
    if step.Commit? || step.Announce? || step.StartPage? || step.ReadPage? || step.ShowPage? {
      PageStepKeeps(w, step);
    } else if step.Connect? || step.CatchUp? || step.Write? || step.Wake? || step.End? {
      StreamStepKeeps(w, step);
    } else {
      ClientStepKeeps(w, step);
    }
  }

  lemma {:induction false} RunKeeps(cfg: Config, boot: string, steps: seq<Step>)
    requires ValidBoot(boot) && |steps| <= MAX_U64
    ensures Inv(Run(Init(cfg, boot), steps)) && Run(Init(cfg, boot), steps).hub.now <= |steps|
  {
    if steps != [] {
      RunKeeps(cfg, boot, steps[..|steps| - 1]);
      StepKeeps(Run(Init(cfg, boot), steps[..|steps| - 1]), steps[|steps| - 1]);
      NowGrows(Run(Init(cfg, boot), steps[..|steps| - 1]), steps[|steps| - 1]);
    }
  }

  // ---------- The promises of the package ----------

  // Every run is covered but those of more than 2^64 - 1 steps, in which the
  // uint64 sequence could wrap.

  /** A page's version of a topic is the counter exactly while the topic has
      not changed since the page's request began, and below it ever after;
      so a write its query missed, once announced, shows as newer. */
  lemma RenderedVersion(cfg: Config, boot: string, steps: seq<Step>, p: nat, t: string)
    requires ValidBoot(boot) && |steps| <= MAX_U64
    requires var w := Run(Init(cfg, boot), steps);
             p in w.pages && w.pages[p].boot == w.hub.boot && t in w.pages[p].shown
    ensures var w := Run(Init(cfg, boot), steps);
            var page := w.pages[p];
            && page.shown[t] <= Counter(w.hub, t)
            && (page.shown[t] < Counter(w.hub, t) <==> t in w.hub.topics && w.hub.topics[t].changedAt > page.start)
            && (forall i | t in page.read && page.read[t] < i <= Commits(w.commits, t) && (t, i) !in w.owed ::
                  page.shown[t] < Counter(w.hub, t))
  {
    RunKeeps(cfg, boot, steps);
    var w := Run(Init(cfg, boot), steps);
    var page := w.pages[p];
    assert PageSound(w.hub, w.commits, w.owed, page);
    assert ShownSound(w.hub, page, t);
    forall i | t in page.read && page.read[t] < i <= Commits(w.commits, t) && (t, i) !in w.owed
      ensures page.shown[t] < Counter(w.hub, t)
    {
      assert SettledLater(w.hub, w.owed, page, t, i);
    }
  }

  /** No raise is lost between subscribing, catching up and relaying. */
  lemma NoLostWake(cfg: Config, boot: string, steps: seq<Step>, sub: nat)
    requires ValidBoot(boot) && |steps| <= MAX_U64
    requires var w := Run(Init(cfg, boot), steps); sub in w.streams && w.streams[sub].pc.Waiting?
    ensures var w := Run(Init(cfg, boot), steps);
            && sub in w.hub.subs
            && (w.hub.subs[sub] || Fresh(w.hub, w.streams[sub].watches))
  {
    RunKeeps(cfg, boot, steps);
    var w := Run(Init(cfg, boot), steps);
    assert StreamSound(w.hub, w.sessions, sub, w.streams[sub]);
  }

  /** The client of session s sits on an idle, fully delivered stream. */
  ghost predicate Quiet(w: World, s: nat, sub: nat) {
    && s in w.sessions && Serves(w.streams, s, w.sessions[s], sub) && w.sessions[s].wire == []
    && w.streams[sub].pc.Waiting? && sub in w.hub.subs && !w.hub.subs[sub]
  }

  lemma QuietIsTold(w: World, s: nat, sub: nat)
    requires Quiet(w, s, sub)
    requires StreamSound(w.hub, w.sessions, sub, w.streams[sub])
    requires SessionSound(w.hub.boot, w.boots, w.streams, s, w.sessions[s])
    ensures ParseWatches(w.sessions[s].raw, w.sessions[s].urlBoot != w.hub.boot).Some?
    ensures var base := Base(w.hub.boot, w.sessions[s]);
            && Derived(base, w.streams[sub].watches) && Fresh(w.hub, w.streams[sub].watches)
            && AllTold(base, w.hub.boot, w.sessions[s].log, w.streams[sub].watches)
  {
    assert Heard(w.streams, s, w.sessions[s]) == w.sessions[s].log;
  }

  /** A watch told of is in the URL or in an event. */
  lemma ToldThere(base: seq<Watch>, boot: string, log: seq<Event>, k: nat, v: U64, n: nat)
    requires k < |base| && Told(base, boot, log, k, v) && v >= n
    ensures || (!base[k].stale && base[k].known >= n)
            || exists e :: e in log && e.topic == base[k].topic && e.boot == boot && e.version >= n
  {
    if base[k].stale || base[k].known < v {
      var i :| 0 <= i < |log| && log[i].boot == boot && log[i].topic == base[k].topic && log[i].version >= v;
      assert log[i] in log;
    }
  }

  /** What a quiet stream has told its client of a topic it asked for: the
      present version, unless the client asked with one as new. */
  lemma QuietHasTold(w: World, s: nat, sub: nat, t: string, v: U64)
    requires Quiet(w, s, sub) && ValidTopic(t) && Token(t, v) in w.sessions[s].raw
    requires StreamSound(w.hub, w.sessions, sub, w.streams[sub])
    requires SessionSound(w.hub.boot, w.boots, w.streams, s, w.sessions[s])
    ensures || (w.sessions[s].urlBoot == w.hub.boot && v >= Counter(w.hub, t))
            || exists e :: e in w.sessions[s].log && e.topic == t && e.boot == w.hub.boot && e.version >= Counter(w.hub, t)
  {
    var session, ws, boot := w.sessions[s], w.streams[sub].watches, w.hub.boot;
    var base := Base(boot, session);
    QuietIsTold(w, s, sub);
    BaseSound(boot, session);
    ParseFromOwes(session.raw, [], session.urlBoot != boot, t, v);
    var k :| 0 <= k < |base| && base[k].topic == t && base[k].known <= v;
    assert ws[k].topic == t && !ws[k].stale;
    assert Told(base, boot, session.log, k, ws[k].known);
    ToldThere(base, boot, session.log, k, ws[k].known, Counter(w.hub, t));
  }

  /** A page that missed an announced write is told so: through any
      interleaving, lost batch, reconnect or restart, once its stream is quiet
      it has received an event for the topic from another boot than the page's
      or above the version the page rendered. */
  lemma NoMissedChange(cfg: Config, boot: string, steps: seq<Step>, p: nat, t: string, i: nat, s: nat, sub: nat)
    requires ValidBoot(boot) && |steps| <= MAX_U64
    requires var w := Run(Init(cfg, boot), steps);
             && p in w.pages && t in w.pages[p].read && t in w.pages[p].shown
             && w.pages[p].read[t] < i <= Commits(w.commits, t) && (t, i) !in w.owed
             && Quiet(w, s, sub) && w.sessions[s].urlBoot == w.pages[p].boot
             && ValidTopic(t) && Token(t, w.pages[p].shown[t]) in w.sessions[s].raw
    ensures var w := Run(Init(cfg, boot), steps);
            exists e :: e in w.sessions[s].log && e.topic == t &&
              (e.boot != w.pages[p].boot || e.version > w.pages[p].shown[t])
  {
    RunKeeps(cfg, boot, steps);
    var w := Run(Init(cfg, boot), steps);
    QuietHasTold(w, s, sub, t, w.pages[p].shown[t]);
    if w.pages[p].boot == w.hub.boot {
      RenderedVersion(cfg, boot, steps, p, t);
    }
  }
}
