/** Where the addresses in users/ come from, and how long they stay, in every
    run of sign-ins, reads, strips and epoch bumps. */
module AuthUsersAddresses {
  import opened Digits
  import opened AuthUsers

  // ---------- Traces ----------

  /** The call is a sign-in, not blind, for this record's claim and address. */
  predicate Source(calls: map<nat, Call>, u: User, id: nat) {
    id in calls && calls[id].task.Ensure? && !calls[id].blind
    && calls[id].task.eh == u.eh && calls[id].task.address == u.email
  }

  predicate BlindCall(calls: map<nat, Call>, id: nat) {
    id in calls && calls[id].blind
  }

  /** The record's address is some sign-in's for its claim, or a blind call
      left it without one. */
  ghost predicate Traced(calls: map<nat, Call>, u: User) {
    (exists id :: Source(calls, u, id)) || (u.email == "" && exists id :: BlindCall(calls, id))
  }

  /** Every record a call holds is traced, and only blind calls strip. */
  ghost predicate StageTraced(calls: map<nat, Call>, c: Call) {
    match c.stage
    case Strip(_, seen, _, _) => Traced(calls, seen) && c.blind
    case Bump(_, seen, _) => Traced(calls, seen)
    case Returned(user) => Traced(calls, user)
    case _ => true
  }

  ghost predicate AllTraced(w: World) {
    && (forall uid | uid in w.users :: Traced(w.calls, w.users[uid]))
    && forall id | id in w.calls :: StageTraced(w.calls, w.calls[id])
  }

  /** The calls may move and more may begin. */
  predicate Extends(calls: map<nat, Call>, later: map<nat, Call>) {
    forall id | id in calls :: id in later && later[id].task == calls[id].task && later[id].blind == calls[id].blind
  }

  lemma TracedLater(calls: map<nat, Call>, later: map<nat, Call>, u: User)
    requires Extends(calls, later) && Traced(calls, u)
    ensures Traced(later, u)
  {
    if id :| Source(calls, u, id) {
      assert Source(later, u, id);
    } else {
      var id :| BlindCall(calls, id);
      assert BlindCall(later, id);
    }
  }

  lemma StageTracedLater(calls: map<nat, Call>, later: map<nat, Call>, c: Call)
    requires Extends(calls, later) && StageTraced(calls, c)
    ensures StageTraced(later, c)
  {
    match c.stage
    case Strip(_, seen, _, _) => TracedLater(calls, later, seen);
    case Bump(_, seen, _) => TracedLater(calls, later, seen);
    case Returned(user) => TracedLater(calls, later, user);
    case _ =>
  }

  lemma MoveTraces(w: World, id: nat, stage: Stage)
    requires AllTraced(w) && id in w.calls && StageTraced(w.calls, w.calls[id].(stage := stage))
    ensures AllTraced(Move(w, id, stage))
  {
    var later := Move(w, id, stage).calls;
    forall uid | uid in w.users
      ensures Traced(later, w.users[uid])
    {
      TracedLater(w.calls, later, w.users[uid]);
    }
    forall i | i in later
      ensures StageTraced(later, later[i])
    {
      StageTracedLater(w.calls, later, later[i]);
    }
  }

  lemma WriteTraces(w: World, uid: string, u: User, born: map<string, (int, nat)>)
    requires AllTraced(w) && Traced(w.calls, u)
    ensures AllTraced(w.(users := w.users[uid := u], born := born))
  {
  }

  lemma NewTraced(w: World, id: nat, ch: Chance)
    requires id in w.calls && w.calls[id].stage.CreateUser? && w.calls[id].task.Ensure?
    ensures Traced(w.calls, NewUser(w.calls[id], ch))
  {
    assert Source(w.calls, NewUser(w.calls[id], ch), id) || BlindCall(w.calls, id);
  }

  lemma CreateUserTraces(w: World, id: nat, ch: Chance)
    requires AllTraced(w) && id in w.calls && w.calls[id].stage.CreateUser? && w.calls[id].task.Ensure?
    ensures AllTraced(DoCreateUser(w, id, ch))
  {
    var c := w.calls[id];
    var uid := c.stage.uid;
    if ch.fate == Fails {
      MoveTraces(w, id, Failed(StoreError));
    } else if uid in w.users {
      MoveTraces(w, id, Get(uid, 0, Report));
    } else if 0 <= ch.epoch < EPOCH_LIMIT {
      NewTraced(w, id, ch);
      var born := w.born[uid := (ch.epoch, |Bumps(w.calls, uid)|)];
      WriteTraces(w, uid, NewUser(c, ch), born);
      MoveTraces(w.(users := w.users[uid := NewUser(c, ch)], born := born), id,
                 if ch.fate == Works then Returned(NewUser(c, ch)) else Failed(StoreError));
    }
  }

  lemma GetTraces(w: World, id: nat, ch: Chance)
    requires AllTraced(w) && id in w.calls && w.calls[id].stage.Get?
    ensures AllTraced(DoGet(w, id, ch))
  {
    var s := w.calls[id].stage;
    if ch.fate == Works && s.uid in w.users {
      assert Traced(w.calls, w.users[s.uid]);
    }
    MoveTraces(w, id, DoGet(w, id, ch).calls[id].stage);
  }

  lemma StripTraces(w: World, id: nat, ch: Chance)
    requires AllTraced(w) && id in w.calls && w.calls[id].stage.Strip?
    ensures AllTraced(DoStrip(w, id, ch))
  {
    var c := w.calls[id];
    var s := c.stage;
    assert StageTraced(w.calls, c);
    if ch.fate != Fails && Current(w, s.uid, s.seen) {
      var bare := s.seen.(email := "");
      assert BlindCall(w.calls, id);
      WriteTraces(w, s.uid, bare, w.born);
      MoveTraces(w.(users := w.users[s.uid := bare]), id, if ch.fate == Works then Returned(bare) else Failed(StoreError));
    } else {
      MoveTraces(w, id, DoStrip(w, id, ch).calls[id].stage);
    }
  }

  lemma FetchTraces(w: World, id: nat, ch: Chance)
    requires AllTraced(w) && id in w.calls && w.calls[id].stage.Fetch?
    ensures AllTraced(DoFetch(w, id, ch))
  {
    MoveTraces(w, id, DoFetch(w, id, ch).calls[id].stage);
  }

  lemma BumpTraces(w: World, id: nat, ch: Chance)
    requires AllTraced(w) && id in w.calls && w.calls[id].stage.Bump?
    ensures AllTraced(DoBump(w, id, ch))
  {
    var c := w.calls[id];
    var s := c.stage;
    assert StageTraced(w.calls, c);
    if ch.fate != Fails && Current(w, s.uid, s.seen) {
      BumpedTraced(w.calls, id);
      WriteTraces(w, s.uid, Bumped(c), w.born);
      MoveTraces(w.(users := w.users[s.uid := Bumped(c)]), id, if ch.fate == Works then Ended else Unsure);
    } else {
      MoveTraces(w, id, DoBump(w, id, ch).calls[id].stage);
    }
  }

  lemma BumpedTraced(calls: map<nat, Call>, id: nat)
    requires id in calls && calls[id].stage.Bump? && Traced(calls, calls[id].stage.seen)
    ensures Traced(calls, Bumped(calls[id]))
  {
    var seen := calls[id].stage.seen;
    if calls[id].blind {
      assert BlindCall(calls, id);
    } else if i :| Source(calls, seen, i) {
      assert Source(calls, Bumped(calls[id]), i);
    }
  }

  lemma ReadClaimTraces(w: World, id: nat, ch: Chance)
    requires AllTraced(w) && id in w.calls && w.calls[id].task.Ensure? && w.calls[id].stage.ReadClaim?
    ensures AllTraced(DoReadClaim(w, id, ch))
  {
    MoveTraces(w, id, DoReadClaim(w, id, ch).calls[id].stage);
  }

  lemma CreateClaimTraces(w: World, id: nat, ch: Chance)
    requires AllTraced(w) && id in w.calls && w.calls[id].task.Ensure? && w.calls[id].stage.CreateClaim?
    ensures AllTraced(DoCreateClaim(w, id, ch))
  {
    MoveTraces(w, id, DoCreateClaim(w, id, ch).calls[id].stage);
  }

  lemma AdvanceTraces(w: World, id: nat, ch: Chance)
    requires AllTraced(w)
    ensures AllTraced(DoAdvance(w, id, ch))
  {
    if id in w.calls {
      match w.calls[id].stage
      case ReadClaim(_) => if w.calls[id].task.Ensure? { ReadClaimTraces(w, id, ch); }
      case CreateClaim(_, _) => if w.calls[id].task.Ensure? { CreateClaimTraces(w, id, ch); }
      case CreateUser(_) => if w.calls[id].task.Ensure? { CreateUserTraces(w, id, ch); }
      case Get(_, _, _) => GetTraces(w, id, ch);
      case Strip(_, _, _, _) => StripTraces(w, id, ch);
      case Fetch(_, _) => FetchTraces(w, id, ch);
      case Bump(_, _, _) => BumpTraces(w, id, ch);
      case _ =>
    }
  }

  lemma BeginTraces(w: World, id: nat, task: Task, blind: bool)
    requires AllTraced(w) && id !in w.calls
    ensures AllTraced(Apply(w, Begin(id, task, blind)))
  {
    var later := w.calls[id := Call(task, blind, Start(task))];
    forall uid | uid in w.users
      ensures Traced(later, w.users[uid])
    {
      TracedLater(w.calls, later, w.users[uid]);
    }
    forall i | i in later
      ensures StageTraced(later, later[i])
    {
      if i != id {
        StageTracedLater(w.calls, later, later[i]);
      }
    }
  }

  lemma {:induction false} RunTraces(steps: seq<Step>)
    ensures AllTraced(Run(steps))
  {
    if steps != [] {
      var w := Run(steps[..|steps| - 1]);
      RunTraces(steps[..|steps| - 1]);
      match steps[|steps| - 1]
      case Begin(id, task, blind) =>
        if id !in w.calls {
          BeginTraces(w, id, task, blind);
        }
      case Advance(id, ch) => AdvanceTraces(w, id, ch);
      case DeleteUser(uid) =>
    }
  }

  // ---------- What it is for ----------

  ghost predicate SignedIn(calls: map<nat, Call>, u: User) {
    exists id :: Source(calls, u, id)
  }

  /** An address in the store, or returned, is one somebody signed in with for
      that very claim, on an instance that is not blind; and where no call is
      blind, every record and every user returned has such an address. */
  lemma AddressesAreSignIns(steps: seq<Step>)
    ensures var w := Run(steps);
            var allSee := forall id | id in w.calls :: !w.calls[id].blind;
            && (forall uid | uid in w.users && (allSee || w.users[uid].email != "") :: SignedIn(w.calls, w.users[uid]))
            && forall id | id in w.calls && w.calls[id].stage.Returned? && (allSee || w.calls[id].stage.user.email != "") ::
                 SignedIn(w.calls, w.calls[id].stage.user)
  {
    RunTraces(steps);
    var w := Run(steps);
    forall id | id in w.calls && w.calls[id].stage.Returned?
      ensures Traced(w.calls, w.calls[id].stage.user)
    {
      assert StageTraced(w.calls, w.calls[id]);
    }
    assert forall id | BlindCall(w.calls, id) :: id in w.calls && w.calls[id].blind;
  }

  /** What a call's step may do to a record: make it for its own sign-in, with
      its address unless the call is blind; or leave its id, hash and birthday,
      never lower its epoch, and leave its address unless the call is blind,
      which may empty it. */
  predicate RecordMoves(c: Call, ch: Chance, users: map<string, User>, after: map<string, User>, uid: string) {
    if uid !in after then uid !in users
    else if uid !in users then
      && c.task.Ensure?
      && after[uid].id == uid && after[uid].eh == c.task.eh && after[uid].email == (if c.blind then "" else c.task.address)
      && after[uid].created == ch.created && after[uid].epoch == ch.epoch
    else
      var was, now := users[uid], after[uid];
      && now.id == was.id && now.eh == was.eh && now.created == was.created && now.epoch >= was.epoch
      && (now.email == was.email || (c.blind && now.email == ""))
  }

  lemma CreateUserMoves(w: World, id: nat, ch: Chance, uid: string)
    requires id in w.calls && w.calls[id].stage.CreateUser? && w.calls[id].task.Ensure?
    ensures RecordMoves(w.calls[id], ch, w.users, DoCreateUser(w, id, ch).users, uid)
    ensures Extends(w.calls, DoCreateUser(w, id, ch).calls)
  {
  }

  lemma StripMoves(w: World, id: nat, ch: Chance, uid: string)
    requires id in w.calls && w.calls[id].stage.Strip? && w.calls[id].blind
    ensures RecordMoves(w.calls[id], ch, w.users, DoStrip(w, id, ch).users, uid)
    ensures Extends(w.calls, DoStrip(w, id, ch).calls)
  {
  }

  lemma BumpMoves(w: World, id: nat, ch: Chance, uid: string)
    requires id in w.calls && w.calls[id].stage.Bump?
    ensures RecordMoves(w.calls[id], ch, w.users, DoBump(w, id, ch).users, uid)
    ensures Extends(w.calls, DoBump(w, id, ch).calls)
  {
  }

  lemma ClaimMoves(w: World, id: nat, ch: Chance)
    requires id in w.calls && w.calls[id].task.Ensure?
    ensures w.calls[id].stage.ReadClaim? ==>
              var after := DoReadClaim(w, id, ch); after.users == w.users && Extends(w.calls, after.calls)
    ensures w.calls[id].stage.CreateClaim? ==>
              var after := DoCreateClaim(w, id, ch); after.users == w.users && Extends(w.calls, after.calls)
  {
  }

  lemma ReadMoves(w: World, id: nat, ch: Chance)
    requires id in w.calls
    ensures w.calls[id].stage.Get? ==>
              var after := DoGet(w, id, ch); after.users == w.users && Extends(w.calls, after.calls)
    ensures w.calls[id].stage.Fetch? ==>
              var after := DoFetch(w, id, ch); after.users == w.users && Extends(w.calls, after.calls)
  {
  }

  lemma AdvanceMoves(w: World, id: nat, ch: Chance, uid: string)
    requires AllTraced(w)
    ensures id in w.calls ==> RecordMoves(w.calls[id], ch, w.users, DoAdvance(w, id, ch).users, uid)
    ensures Extends(w.calls, DoAdvance(w, id, ch).calls)
    ensures id !in w.calls ==> DoAdvance(w, id, ch) == w
  {
    if id in w.calls {
      assert StageTraced(w.calls, w.calls[id]);
      match w.calls[id].stage
      case ReadClaim(_) => if w.calls[id].task.Ensure? { ClaimMoves(w, id, ch); }
      case CreateClaim(_, _) => if w.calls[id].task.Ensure? { ClaimMoves(w, id, ch); }
      case CreateUser(_) => if w.calls[id].task.Ensure? { CreateUserMoves(w, id, ch, uid); }
      case Get(_, _, _) => ReadMoves(w, id, ch);
      case Strip(_, _, _, _) => StripMoves(w, id, ch, uid);
      case Fetch(_, _) => ReadMoves(w, id, ch);
      case Bump(_, _, _) => BumpMoves(w, id, ch, uid);
      case _ =>
    }
  }

  /** In every run, a step touches a record only so: a sign-in's step may make
      it, a deletion may end it, and any other leaves all of it but its epoch,
      which never falls, and its address, which a blind call may empty. */
  lemma StepOnRecord(steps: seq<Step>, s: Step, uid: string)
    ensures var w := Run(steps); var after := Apply(w, s).users;
            match s
            case Begin(_, _, _) => after == w.users
            case Advance(id, ch) => if id in w.calls then RecordMoves(w.calls[id], ch, w.users, after, uid) else after == w.users
            case DeleteUser(other) => after == w.users - {other}
  {
    RunTraces(steps);
    if s.Advance? {
      AdvanceMoves(Run(steps), s.id, s.chance, uid);
    }
  }

  /** No step of the run deletes the record or is made by a blind call. */
  ghost predicate Undisturbed(calls: map<nat, Call>, steps: seq<Step>, uid: string) {
    forall s | s in steps :: s != DeleteUser(uid) && (s.Advance? ==> !BlindCall(calls, s.id))
  }

  lemma StepHolds(w: World, s: Step, uid: string)
    requires AllTraced(w) && uid in w.users && s != DeleteUser(uid)
    requires s.Advance? ==> !BlindCall(Apply(w, s).calls, s.id)
    ensures Extends(w.calls, Apply(w, s).calls)
    ensures uid in Apply(w, s).users && Apply(w, s).users[uid].email == w.users[uid].email
  {
    if s.Advance? {
      AdvanceMoves(w, s.id, s.chance, uid);
    }
  }

  lemma EarlierUndisturbed(calls: map<nat, Call>, later: map<nat, Call>, front: seq<Step>, steps: seq<Step>, uid: string)
    requires Extends(calls, later) && Undisturbed(later, steps, uid) && forall x | x in front :: x in steps
    ensures Undisturbed(calls, front, uid)
  {
  }

  /** Whatever address a record has, it has until a blind call writes it or it
      is deleted: reads, sign-ins and epoch bumps of any number leave it. */
  lemma {:induction false} AddressStays(before: seq<Step>, after: seq<Step>, uid: string)
    requires uid in Run(before).users && Undisturbed(Run(before + after).calls, after, uid)
    ensures uid in Run(before + after).users
    ensures Run(before + after).users[uid].email == Run(before).users[uid].email
  {
    if after == [] {
      assert before + after == before;
    } else {
      var front, s := after[..|after| - 1], after[|after| - 1];
      var all := before + after;
      assert all[..|all| - 1] == before + front && all[|all| - 1] == s;
      var w := Run(before + front);
      assert s in after && forall x | x in front :: x in after;
      RunTraces(before + front);
      if s.Advance? {
        AdvanceMoves(w, s.id, s.chance, uid);
      }
      EarlierUndisturbed(w.calls, Run(all).calls, front, after, uid);
      AddressStays(before, front, uid);
      StepHolds(w, s, uid);
    }
  }
}
