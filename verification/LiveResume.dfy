/** Why no change is told twice (live/stream.go): a connected stream's watches
    are, in every run, just those that resuming at the last event its client
    was sent would give, so a client that comes back is where it left. */
module LiveResume {
  import opened Digits
  import opened Text
  import opened LiveWire
  import opened LiveHub
  import opened LiveProtocol
  import opened LiveArrival

  function LastId(events: seq<Event>): string {
    if events == [] then "" else events[|events| - 1].id
  }

  function Resumed(boot: string, session: Session, events: seq<Event>): seq<Watch> {
    Resume(Base(boot, session), LastId(events), boot)
  }

  /** The stream serving the session stands where its last event says. */
  ghost predicate AtLast(boot: string, streams: map<nat, Stream>, s: nat, session: Session) {
    forall sub | Serves(streams, s, session, sub) ::
      streams[sub].watches == Resumed(boot, session, Heard(streams, s, session))
  }

  ghost predicate AllAtLast(w: World) {
    forall s | s in w.sessions :: AtLast(w.hub.boot, w.streams, s, w.sessions[s])
  }

  // ---------- A pass ----------

  lemma LastOfMore(events: seq<Event>, more: seq<Event>)
    ensures more != [] ==> LastId(events + more) == LastId(more)
    ensures more == [] ==> events + more == events
  {
  }

  /** A pass ends at the watches its last event tells of. */
  lemma {:induction false} ChangesLast(base: seq<Watch>, boot: string, ws: seq<Watch>, cur: seq<U64>, i: nat)
    requires ValidBoot(boot) && WellFormed(base) && Derived(base, ws) && i <= |ws| == |cur|
    ensures var (last, events) := Changes(boot, ws, cur, i);
            if events == [] then last == ws else last == Resume(base, LastId(events), boot)
    decreases |ws| - i
  {
    if i == |ws| {
    } else if !Moved(ws[i], cur[i]) {
      ChangesLast(base, boot, ws, cur, i + 1);
    } else {
      var after := Caught(ws, i, cur[i]);
      ChangesLast(base, boot, after, cur, i + 1);
      ResumeRecovers(boot, base, after);
      LastOfMore([Event(boot, ws[i].topic, cur[i], Id(boot, after))], Changes(boot, after, cur, i + 1).1);
    }
  }

  // ---------- Every step keeps it ----------

  /** Whoever serves the session served it before, with the same watches and
      the same events. */
  ghost predicate StillServed(w: World, r: World, s: nat)
    requires s in w.sessions && s in r.sessions
  {
    var x, y := w.sessions[s], r.sessions[s];
    && y.raw == x.raw && y.urlBoot == x.urlBoot
    && forall sub | Serves(r.streams, s, y, sub) ::
         && r.hub.boot == w.hub.boot && Serves(w.streams, s, x, sub) && r.streams[sub].watches == w.streams[sub].watches
         && Heard(r.streams, s, y) == Heard(w.streams, s, x)
  }

  lemma StillAtLast(w: World, r: World, s: nat)
    requires s in w.sessions && s in r.sessions && StillServed(w, r, s)
    requires AtLast(w.hub.boot, w.streams, s, w.sessions[s])
    ensures AtLast(r.hub.boot, r.streams, s, r.sessions[s])
  {
  }

  lemma QuietStep(w: World, x: Step, s: nat)
    requires s in w.sessions && (x.Commit? || x.Announce? || x.StartPage? || x.ReadPage? || x.ShowPage? || x.CloseHub?)
    ensures s in Apply(w, x).sessions && StillServed(w, Apply(w, x), s)
  {
  }

  lemma ClientStep(w: World, x: Step, s: nat)
    requires s in w.sessions && (x.Open? || x.Deliver? || x.Drop? || x.Restart?)
    ensures s in Apply(w, x).sessions && StillServed(w, Apply(w, x), s)
  {
    if x.Deliver? && x.session == s && w.sessions[s].wire != [] {
      DeliverHeard(w, s);
    }
  }

  lemma WakeStep(w: World, sub: nat, s: nat)
    requires s in w.sessions
    ensures StillServed(w, DoWake(w, sub), s) && StillServed(w, DoEnd(w, sub), s)
  {
  }

  lemma WriteStep(w: World, sub: nat, n: nat, s: nat)
    requires s in w.sessions
    ensures s in DoWrite(w, sub, n).sessions && StillServed(w, DoWrite(w, sub, n), s)
  {
    if sub in w.streams && w.streams[sub].pc.Writing? {
      if w.streams[sub].session == s && !w.hub.closed {
        if n < |w.streams[sub].pc.batch| {
          CutHeard(w, sub, n);
        } else {
          ReachHeard(w, sub, n);
        }
      }
    }
  }

  lemma OthersCatchUp(w: World, sub: nat, s: nat)
    requires s in w.sessions && (sub in w.streams && w.streams[sub].pc.Reading? ==> !Serves(w.streams, s, w.sessions[s], sub))
    ensures StillServed(w, DoCatchUp(w, sub), s)
  {
  }

  lemma CatchUpAtLast(w: World, sub: nat, s: nat)
    requires Inv(w) && sub in w.streams && w.streams[sub].pc.Reading? && s in w.sessions
    requires Serves(w.streams, s, w.sessions[s], sub) && AtLast(w.hub.boot, w.streams, s, w.sessions[s])
    ensures AtLast(w.hub.boot, DoCatchUp(w, sub).streams, s, w.sessions[s])
  {
    var boot, session, st := w.hub.boot, w.sessions[s], w.streams[sub];
    assert StreamSound(w.hub, w.sessions, sub, st);
    BaseSound(boot, session);
    ChangesLast(Base(boot, session), boot, st.watches, Counters(w.hub, st.watches), 0);
    CatchUpHeard(w, sub);
    LastOfMore(Heard(w.streams, s, session), Changes(boot, st.watches, Counters(w.hub, st.watches), 0).1);
  }

  lemma CatchUpStep(w: World, sub: nat, s: nat)
    requires Inv(w) && s in w.sessions && AtLast(w.hub.boot, w.streams, s, w.sessions[s])
    ensures var r := DoCatchUp(w, sub); s in r.sessions && AtLast(r.hub.boot, r.streams, s, r.sessions[s])
  {
    if sub in w.streams && w.streams[sub].pc.Reading? && Serves(w.streams, s, w.sessions[s], sub) {
      CatchUpAtLast(w, sub, s);
    } else {
      OthersCatchUp(w, sub, s);
      StillAtLast(w, DoCatchUp(w, sub), s);
    }
  }

  lemma ConnectAtLast(w: World, s: nat, sub: nat, allowed: set<string>)
    requires DoConnect(w, s, sub, allowed) != w
    ensures var r := DoConnect(w, s, sub, allowed);
            s in r.sessions && AtLast(r.hub.boot, r.streams, s, r.sessions[s])
  {
    var r := DoConnect(w, s, sub, allowed);
    assert Heard(r.streams, s, r.sessions[s]) == w.sessions[s].log;
  }

  lemma OthersConnect(w: World, s: nat, sub: nat, allowed: set<string>, k: nat)
    requires k in w.sessions && k != s
    ensures var r := DoConnect(w, s, sub, allowed); k in r.sessions && StillServed(w, r, k)
  {
  }

  lemma StepAtLast(w: World, x: Step, s: nat)
    requires Inv(w) && s in w.sessions && AtLast(w.hub.boot, w.streams, s, w.sessions[s])
    ensures var r := Apply(w, x); s in r.sessions && AtLast(r.hub.boot, r.streams, s, r.sessions[s])
  {
    if x.CatchUp? {
      CatchUpStep(w, x.sub, s);
    } else if x.Connect? && x.session == s {
      if DoConnect(w, s, x.sub, x.allowed) != w {
        ConnectAtLast(w, s, x.sub, x.allowed);
      }
    } else {
      ElseStill(w, x, s);
      StillAtLast(w, Apply(w, x), s);
    }
  }

  lemma ElseStill(w: World, x: Step, s: nat)
    requires s in w.sessions && !x.CatchUp? && !(x.Connect? && x.session == s)
    ensures s in Apply(w, x).sessions && StillServed(w, Apply(w, x), s)
  {
    if x.Connect? {
      OthersConnect(w, x.session, x.sub, x.allowed, s);
    } else if x.Write? {
      WriteStep(w, x.sub, x.n, s);
    } else if x.Wake? || x.End? {
      WakeStep(w, x.sub, s);
    } else if x.Open? || x.Deliver? || x.Drop? || x.Restart? {
      ClientStep(w, x, s);
    } else {
      QuietStep(w, x, s);
    }
  }

  lemma NewSession(w: World, x: Step, s: nat)
    requires s !in w.sessions && s in Apply(w, x).sessions
    ensures AtLast(Apply(w, x).hub.boot, Apply(w, x).streams, s, Apply(w, x).sessions[s])
  {
  }

  lemma {:induction false} RunAtLast(cfg: Config, boot: string, steps: seq<Step>)
    requires ValidBoot(boot) && |steps| <= MAX_U64
    ensures AllAtLast(Run(Init(cfg, boot), steps))
  {
    if steps != [] {
      var n := |steps| - 1;
      var w := Run(Init(cfg, boot), steps[..n]);
      RunAtLast(cfg, boot, steps[..n]);
      RunKeeps(cfg, boot, steps[..n]);
      forall s | s in Apply(w, steps[n]).sessions
        ensures AtLast(Apply(w, steps[n]).hub.boot, Apply(w, steps[n]).streams, s, Apply(w, steps[n]).sessions[s])
      {
        if s in w.sessions {
          StepAtLast(w, steps[n], s);
        } else {
          NewSession(w, steps[n], s);
        }
      }
    }
  }

  // ---------- Coming back ----------

  lemma ConnectTakes(w: World, s: nat, sub: nat, allowed: set<string>)
    requires s in w.sessions && sub !in w.streams && Connected(DoConnect(w, s, sub, allowed), s, sub)
    ensures var r := DoConnect(w, s, sub, allowed);
            && r.streams[sub] == Stream(s, Resumed(w.hub.boot, w.sessions[s], w.sessions[s].log), Reading)
            && r.hub.boot == w.hub.boot && r.hub.topics == w.hub.topics
  {
    assert LastEventId(w.sessions[s]) == LastId(w.sessions[s].log);
  }

  lemma DropLeaves(w: World, s: nat)
    requires s in w.sessions
    ensures var r := DoDrop(w, s);
            && s in r.sessions && r.hub == w.hub && r.streams == w.streams && r.sessions[s].log == w.sessions[s].log
            && Base(r.hub.boot, r.sessions[s]) == Base(w.hub.boot, w.sessions[s])
  {
  }

  lemma QuietAtLast(w: World, s: nat, sub: nat)
    requires Quiet(w, s, sub) && AtLast(w.hub.boot, w.streams, s, w.sessions[s])
    ensures w.streams[sub].watches == Resumed(w.hub.boot, w.sessions[s], w.sessions[s].log)
  {
    assert Heard(w.streams, s, w.sessions[s]) == w.sessions[s].log;
  }

  /** The connection breaks and the client connects again. */
  function Again(w: World, s: nat, sub: nat, allowed: set<string>): World {
    DoConnect(DoDrop(w, s), s, sub, allowed)
  }

  lemma Returns(w: World, s: nat, sub: nat, again: nat, allowed: set<string>)
    requires Quiet(w, s, sub) && AtLast(w.hub.boot, w.streams, s, w.sessions[s])
    requires again !in w.streams && Connected(Again(w, s, again, allowed), s, again)
    ensures var r := Again(w, s, again, allowed);
            r.streams[again] == Stream(s, w.streams[sub].watches, Reading) && r.hub.boot == w.hub.boot && r.hub.topics == w.hub.topics
  {
    DropLeaves(w, s);
    QuietAtLast(w, s, sub);
    ConnectTakes(DoDrop(w, s), s, again, allowed);
  }

  /** A client whose stream was quiet, that loses the connection and connects
      again, comes back with the very watches it left with. */
  lemma ComesBack(cfg: Config, boot: string, steps: seq<Step>, s: nat, sub: nat, again: nat, allowed: set<string>)
    requires ValidBoot(boot) && |steps| <= MAX_U64
    requires var w := Run(Init(cfg, boot), steps);
             Quiet(w, s, sub) && again !in w.streams && Connected(Again(w, s, again, allowed), s, again)
    ensures var w := Run(Init(cfg, boot), steps);
            Again(w, s, again, allowed).streams[again].watches == w.streams[sub].watches
  {
    RunAtLast(cfg, boot, steps);
    Returns(Run(Init(cfg, boot), steps), s, sub, again, allowed);
  }

  lemma FreshIsSilent(r: World, sub: nat)
    requires sub in r.streams && r.streams[sub].pc.Reading? && Fresh(r.hub, r.streams[sub].watches)
    ensures DoCatchUp(r, sub) == r.(streams := r.streams[sub := r.streams[sub].(pc := Waiting)])
  {
    LevelIsSilent(r.hub.boot, r.streams[sub].watches, Counters(r.hub, r.streams[sub].watches));
  }

  lemma FreshAlike(h: HubState, k: HubState, ws: seq<Watch>)
    requires Fresh(h, ws) && k.topics == h.topics
    ensures Fresh(k, ws)
  {
  }

  /** So it is told nothing twice: no topic having changed since, its first
      pass writes nothing. */
  lemma ToldOnce(cfg: Config, boot: string, steps: seq<Step>, s: nat, sub: nat, again: nat, allowed: set<string>)
    requires ValidBoot(boot) && |steps| <= MAX_U64
    requires var w := Run(Init(cfg, boot), steps);
             Quiet(w, s, sub) && again !in w.streams && Connected(Again(w, s, again, allowed), s, again)
    ensures var r := Again(Run(Init(cfg, boot), steps), s, again, allowed);
            DoCatchUp(r, again) == r.(streams := r.streams[again := r.streams[again].(pc := Waiting)])
  {
    var w := Run(Init(cfg, boot), steps);
    var r := Again(w, s, again, allowed);
    RunAtLast(cfg, boot, steps);
    Returns(w, s, sub, again, allowed);
    NoLostWake(cfg, boot, steps, sub);
    FreshAlike(w.hub, r.hub, w.streams[sub].watches);
    FreshIsSilent(r, again);
  }
}
