/** What every run of sign-ins, reads, strips and epoch bumps keeps. */
module AuthUsersLaws {
  import opened Digits
  import opened AuthUsers

  // ---------- Invariants ----------

  predicate Claimed(w: World, eh: string, uid: string) {
    eh in w.claims && w.claims[eh] == uid
  }

  predicate ClaimsSound(w: World) {
    && (forall eh | eh in w.claims :: w.claims[eh] in w.minted)
    && forall a, b | a in w.claims && b in w.claims && w.claims[a] == w.claims[b] :: a == b
  }

  /** A uid about to be claimed is nobody's yet. */
  predicate PendingSound(w: World) {
    && (forall id | id in w.calls && w.calls[id].stage.CreateClaim? ::
          && w.calls[id].stage.tries == 0 && w.calls[id].stage.uid in w.minted
          && forall eh | eh in w.claims :: w.claims[eh] != w.calls[id].stage.uid)
    && forall i, j | i in w.calls && j in w.calls && w.calls[i].stage.CreateClaim? && w.calls[j].stage.CreateClaim?
                     && w.calls[i].stage.uid == w.calls[j].stage.uid :: i == j
  }

  predicate UsersSound(w: World) {
    forall uid | uid in w.users :: w.users[uid].id == uid && Claimed(w, w.users[uid].eh, uid)
  }

  /** Each stage's own facts. */
  predicate StageSound(w: World, c: Call) {
    match c.stage
    case ReadClaim(tries) => tries == 0 || (tries == 1 && c.task.Ensure? && c.task.eh in w.claims)
    case CreateUser(uid) => c.task.Ensure? && Claimed(w, c.task.eh, uid)
    case Get(uid, _, missing) =>
      (c.task.Ensure? ==> Claimed(w, c.task.eh, uid)) && (missing == Repair ==> c.task.Ensure?)
    case Strip(uid, seen, _, missing) =>
      && seen.id == uid
      && (c.task.Ensure? ==> Claimed(w, c.task.eh, uid)) && (missing == Repair ==> c.task.Ensure?)
    case Fetch(uid, _) => c.task == EndSessions(uid)
    case Bump(uid, seen, _) => c.task == EndSessions(uid) && seen.id == uid
    case Returned(user) =>
      (c.task.Ensure? ==> Claimed(w, c.task.eh, user.id)) && (c.blind ==> user.email == "")
    case Failed(why) => why != ClaimChanged
    case _ => true
  }

  predicate CallsSound(w: World) {
    forall id | id in w.calls :: StageSound(w, w.calls[id])
  }

  predicate EpochSound(w: World, uid: string) {
    && uid in w.users && uid in w.born && 0 <= w.born[uid].0 < EPOCH_LIMIT
    && w.users[uid].epoch == w.born[uid].0 + |Bumps(w.calls, uid)| - w.born[uid].1
  }

  predicate EpochsSound(w: World) {
    forall uid | uid in w.users :: EpochSound(w, uid)
  }

  predicate Inv(w: World) {
    ClaimsSound(w) && PendingSound(w) && UsersSound(w) && CallsSound(w)
  }

  // ---------- Steps keep them ----------

  /** A call moves on, knowing only what its new stage may rest on. */
  lemma MoveKeeps(w: World, id: nat, stage: Stage)
    requires Inv(w) && id in w.calls && !stage.CreateClaim? && StageSound(w, w.calls[id].(stage := stage))
    ensures Inv(Move(w, id, stage))
  {
  }

  /** A record written over its own uid. */
  lemma WriteKeeps(w: World, uid: string, u: User, born: map<string, (int, nat)>)
    requires Inv(w) && u.id == uid && Claimed(w, u.eh, uid)
    ensures Inv(w.(users := w.users[uid := u], born := born))
    ensures forall c | StageSound(w, c) :: StageSound(w.(users := w.users[uid := u], born := born), c)
  {
  }

  /** A claim for an address that has none, on a uid nobody else is about to
      claim. */
  lemma ClaimKeeps(w: World, eh: string, uid: string)
    requires Inv(w) && eh !in w.claims && uid in w.minted
    requires forall e | e in w.claims :: w.claims[e] != uid
    requires forall id | id in w.calls && w.calls[id].stage.CreateClaim? :: w.calls[id].stage.uid != uid
    ensures Inv(w.(claims := w.claims[eh := uid]))
  {
    var after := w.(claims := w.claims[eh := uid]);
    forall id | id in after.calls
      ensures StageSound(after, after.calls[id])
    {
      assert StageSound(w, w.calls[id]);
    }
    assert forall u | u in w.users :: Claimed(w, w.users[u].eh, u);
  }

  lemma MintKeeps(w: World, id: nat, uid: string)
    requires Inv(w) && id in w.calls && uid !in w.minted
    ensures Inv(Move(w.(minted := w.minted + {uid}), id, CreateClaim(0, uid)))
  {
    var after := Move(w.(minted := w.minted + {uid}), id, CreateClaim(0, uid));
    forall i | i in after.calls
      ensures StageSound(after, after.calls[i])
    {
      assert StageSound(w, w.calls[i]);
    }
  }

  lemma ReadClaimKeeps(w: World, id: nat, ch: Chance)
    requires Inv(w) && id in w.calls && w.calls[id].stage.ReadClaim? && w.calls[id].task.Ensure?
    ensures Inv(DoReadClaim(w, id, ch))
  {
    var c := w.calls[id];
    assert StageSound(w, c);
    if ch.fate != Works {
      MoveKeeps(w, id, Failed(StoreError));
    } else if c.task.eh in w.claims {
      MoveKeeps(w, id, Get(w.claims[c.task.eh], 0, Repair));
    } else if ch.uid !in w.minted {
      MintKeeps(w, id, ch.uid);
    }
  }

  lemma LastStageStands(w: World, id: nat, a: Stage, b: Stage)
    requires id in w.calls
    ensures Move(Move(w, id, a), id, b) == Move(w, id, b)
  {
    assert w.calls[id := w.calls[id].(stage := a)][id := w.calls[id].(stage := b)] == w.calls[id := w.calls[id].(stage := b)];
  }

  lemma CreateClaimKeeps(w: World, id: nat, ch: Chance)
    requires Inv(w) && id in w.calls && w.calls[id].stage.CreateClaim? && w.calls[id].task.Ensure?
    ensures Inv(DoCreateClaim(w, id, ch))
  {
    var c := w.calls[id];
    var eh, uid := c.task.eh, c.stage.uid;
    MoveKeeps(w, id, Failed(StoreError));
    if ch.fate != Fails {
      if eh in w.claims {
        MoveKeeps(w, id, ReadClaim(1));
      } else {
        var apart := Move(w, id, Failed(StoreError));
        ClaimKeeps(apart, eh, uid);
        var claimed := apart.(claims := w.claims[eh := uid]);
        if ch.fate == Works {
          MoveKeeps(claimed, id, CreateUser(uid));
          LastStageStands(w.(claims := w.claims[eh := uid]), id, Failed(StoreError), CreateUser(uid));
        }
      }
    }
  }

  lemma CreateUserKeeps(w: World, id: nat, ch: Chance)
    requires Inv(w) && id in w.calls && w.calls[id].stage.CreateUser? && w.calls[id].task.Ensure?
    ensures Inv(DoCreateUser(w, id, ch))
  {
    var c := w.calls[id];
    var uid := c.stage.uid;
    assert StageSound(w, c);
    if ch.fate == Fails {
      MoveKeeps(w, id, Failed(StoreError));
    } else if uid in w.users {
      MoveKeeps(w, id, Get(uid, 0, Report));
    } else if 0 <= ch.epoch < EPOCH_LIMIT {
      var born := w.born[uid := (ch.epoch, |Bumps(w.calls, uid)|)];
      WriteKeeps(w, uid, NewUser(c, ch), born);
      var written := w.(users := w.users[uid := NewUser(c, ch)], born := born);
      MoveKeeps(written, id, if ch.fate == Works then Returned(NewUser(c, ch)) else Failed(StoreError));
    }
  }

  lemma GetKeeps(w: World, id: nat, ch: Chance)
    requires Inv(w) && id in w.calls && w.calls[id].stage.Get?
    ensures Inv(DoGet(w, id, ch))
  {
    var c := w.calls[id];
    var s := c.stage;
    assert StageSound(w, c);
    if ch.fate != Works {
      MoveKeeps(w, id, Failed(StoreError));
    } else if s.uid !in w.users {
      MoveKeeps(w, id, if s.missing == Repair then CreateUser(s.uid) else Failed(Gone));
    } else if !c.blind || w.users[s.uid].email == "" {
      MoveKeeps(w, id, Returned(w.users[s.uid]));
    } else {
      MoveKeeps(w, id, Strip(s.uid, w.users[s.uid], s.tries, s.missing));
    }
  }

  lemma StripKeeps(w: World, id: nat, ch: Chance)
    requires Inv(w) && id in w.calls && w.calls[id].stage.Strip?
    ensures Inv(DoStrip(w, id, ch))
  {
    var s := w.calls[id].stage;
    assert StageSound(w, w.calls[id]);
    if ch.fate == Fails {
      MoveKeeps(w, id, Failed(StoreError));
    } else if !Current(w, s.uid, s.seen) {
      MoveKeeps(w, id, if s.tries + 1 < READ_ATTEMPTS then Get(s.uid, s.tries + 1, s.missing) else Failed(Busy));
    } else {
      var bare := s.seen.(email := "");
      WriteKeeps(w, s.uid, bare, w.born);
      MoveKeeps(w.(users := w.users[s.uid := bare]), id, if ch.fate == Works then Returned(bare) else Failed(StoreError));
    }
  }

  lemma FetchKeeps(w: World, id: nat, ch: Chance)
    requires Inv(w) && id in w.calls && w.calls[id].stage.Fetch?
    ensures Inv(DoFetch(w, id, ch))
  {
    var s := w.calls[id].stage;
    assert StageSound(w, w.calls[id]);
    if ch.fate != Works {
      MoveKeeps(w, id, Failed(StoreError));
    } else if s.uid !in w.users {
      MoveKeeps(w, id, Failed(Gone));
    } else {
      MoveKeeps(w, id, Bump(s.uid, w.users[s.uid], s.tries));
    }
  }

  lemma BumpKeeps(w: World, id: nat, ch: Chance)
    requires Inv(w) && id in w.calls && w.calls[id].stage.Bump?
    ensures Inv(DoBump(w, id, ch))
  {
    var c := w.calls[id];
    var s := c.stage;
    assert StageSound(w, c);
    if ch.fate == Fails {
      MoveKeeps(w, id, Failed(StoreError));
    } else if !Current(w, s.uid, s.seen) {
      MoveKeeps(w, id, if s.tries + 1 < MUTATE_ATTEMPTS then Fetch(s.uid, s.tries + 1) else Failed(Busy));
    } else {
      WriteKeeps(w, s.uid, Bumped(c), w.born);
      MoveKeeps(w.(users := w.users[s.uid := Bumped(c)]), id, if ch.fate == Works then Ended else Unsure);
    }
  }

  lemma AdvanceKeeps(w: World, id: nat, ch: Chance)
    requires Inv(w)
    ensures Inv(DoAdvance(w, id, ch))
  {
    if id in w.calls {
      var c := w.calls[id];
      match c.stage
      case ReadClaim(_) => if c.task.Ensure? { ReadClaimKeeps(w, id, ch); }
      case CreateClaim(_, _) => if c.task.Ensure? { CreateClaimKeeps(w, id, ch); }
      case CreateUser(_) => if c.task.Ensure? { CreateUserKeeps(w, id, ch); }
      case Get(_, _, _) => GetKeeps(w, id, ch);
      case Strip(_, _, _, _) => StripKeeps(w, id, ch);
      case Fetch(_, _) => FetchKeeps(w, id, ch);
      case Bump(_, _, _) => BumpKeeps(w, id, ch);
      case _ =>
    }
  }

  lemma BeginKeeps(w: World, id: nat, task: Task, blind: bool)
    requires Inv(w) && id !in w.calls
    ensures Inv(w.(calls := w.calls[id := Call(task, blind, Start(task))]))
  {
    var after := w.(calls := w.calls[id := Call(task, blind, Start(task))]);
    forall i | i in after.calls
      ensures StageSound(after, after.calls[i])
    {
      assert i != id ==> StageSound(w, w.calls[i]);
    }
  }

  lemma DeleteKeeps(w: World, uid: string)
    requires Inv(w)
    ensures Inv(Apply(w, DeleteUser(uid)))
  {
    var after := Apply(w, DeleteUser(uid));
    forall i | i in after.calls
      ensures StageSound(after, after.calls[i])
    {
      assert StageSound(w, w.calls[i]);
    }
  }

  lemma StepKeeps(w: World, s: Step)
    requires Inv(w)
    ensures Inv(Apply(w, s))
  {
    match s
    case Begin(id, task, blind) =>
      if id !in w.calls {
        BeginKeeps(w, id, task, blind);
      }
    case Advance(id, ch) => AdvanceKeeps(w, id, ch);
    case DeleteUser(uid) => DeleteKeeps(w, uid);
  }

  lemma {:induction false} RunKeeps(steps: seq<Step>)
    ensures Inv(Run(steps))
  {
    if steps != [] {
      RunKeeps(steps[..|steps| - 1]);
      StepKeeps(Run(steps[..|steps| - 1]), steps[|steps| - 1]);
    }
  }

  // ---------- Counting bumps ----------

  predicate Bumping(c: Call, uid: string) {
    c.task == EndSessions(uid) && (c.stage.Ended? || c.stage.Unsure?)
  }

  lemma SameBumps(calls: map<nat, Call>, id: nat, c: Call, uid: string)
    requires !Bumping(c, uid) && (id in calls ==> !Bumping(calls[id], uid))
    ensures Bumps(calls[id := c], uid) == Bumps(calls, uid)
  {
  }

  lemma OneMoreBump(calls: map<nat, Call>, id: nat, c: Call, uid: string)
    requires Bumping(c, uid) && (id in calls ==> !Bumping(calls[id], uid))
    ensures |Bumps(calls[id := c], uid)| == |Bumps(calls, uid)| + 1
  {
    assert Bumps(calls[id := c], uid) == Bumps(calls, uid) + {id};
    assert id !in Bumps(calls, uid);
  }

  predicate Over(s: Stage) {
    s.Ended? || s.Unsure?
  }

  lemma MoveCounts(w: World, id: nat, stage: Stage)
    requires EpochsSound(w) && id in w.calls && !Over(w.calls[id].stage) && !Over(stage)
    ensures EpochsSound(Move(w, id, stage))
    ensures forall uid :: Bumps(Move(w, id, stage).calls, uid) == Bumps(w.calls, uid)
  {
    forall uid
      ensures Bumps(Move(w, id, stage).calls, uid) == Bumps(w.calls, uid)
    {
      SameBumps(w.calls, id, w.calls[id].(stage := stage), uid);
    }
    assert forall uid | uid in w.users :: EpochSound(w, uid);
  }

  lemma WriteCounts(w: World, uid: string, u: User)
    requires EpochsSound(w) && uid in w.users && u.epoch == w.users[uid].epoch
    ensures EpochsSound(w.(users := w.users[uid := u]))
  {
    assert forall x | x in w.users :: EpochSound(w, x);
  }

  lemma CreateCounts(w: World, uid: string, u: User)
    requires EpochsSound(w) && 0 <= u.epoch < EPOCH_LIMIT
    ensures EpochsSound(w.(users := w.users[uid := u], born := w.born[uid := (u.epoch, |Bumps(w.calls, uid)|)]))
  {
    assert forall x | x in w.users :: EpochSound(w, x);
  }

  lemma CreateUserCounts(w: World, id: nat, ch: Chance)
    requires EpochsSound(w) && id in w.calls && w.calls[id].stage.CreateUser? && w.calls[id].task.Ensure?
    ensures EpochsSound(DoCreateUser(w, id, ch))
  {
    var c := w.calls[id];
    var uid := c.stage.uid;
    MoveCounts(w, id, Failed(StoreError));
    MoveCounts(w, id, Get(uid, 0, Report));
    if 0 <= ch.epoch < EPOCH_LIMIT {
      CreateCounts(w, uid, NewUser(c, ch));
      var written := w.(users := w.users[uid := NewUser(c, ch)], born := w.born[uid := (ch.epoch, |Bumps(w.calls, uid)|)]);
      MoveCounts(written, id, if ch.fate == Works then Returned(NewUser(c, ch)) else Failed(StoreError));
    }
  }

  lemma StripCounts(w: World, id: nat, ch: Chance)
    requires EpochsSound(w) && id in w.calls && w.calls[id].stage.Strip?
    ensures EpochsSound(DoStrip(w, id, ch))
  {
    var s := w.calls[id].stage;
    var bare := s.seen.(email := "");
    MoveCounts(w, id, Failed(StoreError));
    if Current(w, s.uid, s.seen) {
      WriteCounts(w, s.uid, bare);
      MoveCounts(w.(users := w.users[s.uid := bare]), id, if ch.fate == Works then Returned(bare) else Failed(StoreError));
    } else {
      MoveCounts(w, id, if s.tries + 1 < READ_ATTEMPTS then Get(s.uid, s.tries + 1, s.missing) else Failed(Busy));
    }
  }

  lemma BumpCounts(w: World, id: nat, ch: Chance)
    requires EpochsSound(w) && id in w.calls && w.calls[id].stage.Bump? && StageSound(w, w.calls[id])
    ensures EpochsSound(DoBump(w, id, ch))
  {
    var c := w.calls[id];
    var s := c.stage;
    MoveCounts(w, id, Failed(StoreError));
    if ch.fate != Fails && Current(w, s.uid, s.seen) {
      var stage := if ch.fate == Works then Ended else Unsure;
      BumpedCounts(w, id, stage);
    } else {
      MoveCounts(w, id, if s.tries + 1 < MUTATE_ATTEMPTS then Fetch(s.uid, s.tries + 1) else Failed(Busy));
    }
  }

  lemma BumpedCounts(w: World, id: nat, stage: Stage)
    requires EpochsSound(w) && id in w.calls && w.calls[id].stage.Bump? && w.calls[id].task == EndSessions(w.calls[id].stage.uid)
    requires Current(w, w.calls[id].stage.uid, w.calls[id].stage.seen) && Over(stage)
    ensures var c := w.calls[id]; EpochsSound(Move(w.(users := w.users[c.stage.uid := Bumped(c)]), id, stage))
  {
    var c := w.calls[id];
    var uid := c.stage.uid;
    var after := Move(w.(users := w.users[uid := Bumped(c)]), id, stage);
    forall x | x in after.users
      ensures EpochSound(after, x)
    {
      assert EpochSound(w, x);
      if x == uid {
        OneMoreBump(w.calls, id, c.(stage := stage), x);
      } else {
        SameBumps(w.calls, id, c.(stage := stage), x);
      }
    }
  }

  lemma AdvanceCounts(w: World, id: nat, ch: Chance)
    requires EpochsSound(w) && CallsSound(w)
    ensures EpochsSound(DoAdvance(w, id, ch))
  {
    if id in w.calls {
      var c := w.calls[id];
      match c.stage
      case ReadClaim(_) => if c.task.Ensure? { ReadClaimCounts(w, id, ch); }
      case CreateClaim(_, _) => if c.task.Ensure? { CreateClaimCounts(w, id, ch); }
      case CreateUser(_) => if c.task.Ensure? { CreateUserCounts(w, id, ch); }
      case Get(_, _, _) => GetCounts(w, id, ch);
      case Strip(_, _, _, _) => StripCounts(w, id, ch);
      case Fetch(_, _) => FetchCounts(w, id, ch);
      case Bump(_, _, _) => BumpCounts(w, id, ch);
      case _ =>
    }
  }

  lemma ReadClaimCounts(w: World, id: nat, ch: Chance)
    requires EpochsSound(w) && id in w.calls && w.calls[id].stage.ReadClaim? && w.calls[id].task.Ensure?
    ensures EpochsSound(DoReadClaim(w, id, ch))
  {
    var after := DoReadClaim(w, id, ch);
    MoveCounts(w, id, after.calls[id].stage);
    assert forall uid | uid in w.users :: EpochSound(Move(w, id, after.calls[id].stage), uid);
  }

  lemma CreateClaimCounts(w: World, id: nat, ch: Chance)
    requires EpochsSound(w) && id in w.calls && w.calls[id].stage.CreateClaim? && w.calls[id].task.Ensure?
    ensures EpochsSound(DoCreateClaim(w, id, ch))
  {
    var after := DoCreateClaim(w, id, ch);
    MoveCounts(w, id, after.calls[id].stage);
    assert forall uid | uid in w.users :: EpochSound(Move(w, id, after.calls[id].stage), uid);
  }

  lemma GetCounts(w: World, id: nat, ch: Chance)
    requires EpochsSound(w) && id in w.calls && w.calls[id].stage.Get?
    ensures EpochsSound(DoGet(w, id, ch))
  {
    MoveCounts(w, id, DoGet(w, id, ch).calls[id].stage);
  }

  lemma FetchCounts(w: World, id: nat, ch: Chance)
    requires EpochsSound(w) && id in w.calls && w.calls[id].stage.Fetch?
    ensures EpochsSound(DoFetch(w, id, ch))
  {
    MoveCounts(w, id, DoFetch(w, id, ch).calls[id].stage);
  }

  lemma {:induction false} RunCounts(steps: seq<Step>)
    ensures EpochsSound(Run(steps))
  {
    if steps != [] {
      var front, s := steps[..|steps| - 1], steps[|steps| - 1];
      RunCounts(front);
      RunKeeps(front);
      match s
      case Begin(id, task, blind) =>
        if id !in Run(front).calls {
          BeginCounts(Run(front), id, task, blind);
        }
      case Advance(id, ch) => AdvanceCounts(Run(front), id, ch);
      case DeleteUser(uid) => DeleteCounts(Run(front), uid);
    }
  }

  lemma BeginCounts(w: World, id: nat, task: Task, blind: bool)
    requires EpochsSound(w) && id !in w.calls
    ensures EpochsSound(w.(calls := w.calls[id := Call(task, blind, Start(task))]))
  {
    forall uid | uid in w.users
      ensures EpochSound(w.(calls := w.calls[id := Call(task, blind, Start(task))]), uid)
    {
      assert EpochSound(w, uid);
      SameBumps(w.calls, id, Call(task, blind, Start(task)), uid);
    }
  }

  lemma DeleteCounts(w: World, uid: string)
    requires EpochsSound(w)
    ensures EpochsSound(Apply(w, DeleteUser(uid)))
  {
    assert forall x | x in w.users :: EpochSound(w, x);
  }

  // ---------- A record never deleted ----------

  /** No bump before the first record, and the first record counts from
      none. */
  predicate FirstLife(w: World, uid: string) {
    if uid in w.users then uid in w.born && w.born[uid].1 == 0 else Bumps(w.calls, uid) == {}
  }

  lemma MoveFirst(w: World, id: nat, stage: Stage, uid: string)
    requires FirstLife(w, uid) && id in w.calls && !Over(w.calls[id].stage) && !Over(stage)
    ensures FirstLife(Move(w, id, stage), uid)
  {
    SameBumps(w.calls, id, w.calls[id].(stage := stage), uid);
  }

  lemma CreateFirst(w: World, id: nat, ch: Chance, uid: string)
    requires FirstLife(w, uid) && id in w.calls && w.calls[id].stage.CreateUser? && w.calls[id].task.Ensure?
    ensures FirstLife(DoCreateUser(w, id, ch), uid)
  {
    MoveFirst(w, id, DoCreateUser(w, id, ch).calls[id].stage, uid);
  }

  lemma StripFirst(w: World, id: nat, ch: Chance, uid: string)
    requires FirstLife(w, uid) && id in w.calls && w.calls[id].stage.Strip?
    ensures FirstLife(DoStrip(w, id, ch), uid)
  {
    MoveFirst(w, id, DoStrip(w, id, ch).calls[id].stage, uid);
  }

  lemma BumpFirst(w: World, id: nat, ch: Chance, uid: string)
    requires FirstLife(w, uid) && id in w.calls && w.calls[id].stage.Bump? && StageSound(w, w.calls[id])
    ensures FirstLife(DoBump(w, id, ch), uid)
  {
    var c := w.calls[id];
    if !Over(DoBump(w, id, ch).calls[id].stage) {
      MoveFirst(w, id, DoBump(w, id, ch).calls[id].stage, uid);
    } else if uid != c.stage.uid {
      SameBumps(w.calls, id, DoBump(w, id, ch).calls[id], uid);
    }
  }

  lemma ReadClaimFirst(w: World, id: nat, ch: Chance, uid: string)
    requires FirstLife(w, uid) && id in w.calls && w.calls[id].stage.ReadClaim? && w.calls[id].task.Ensure?
    ensures FirstLife(DoReadClaim(w, id, ch), uid)
  {
    MoveFirst(w, id, DoReadClaim(w, id, ch).calls[id].stage, uid);
  }

  lemma CreateClaimFirst(w: World, id: nat, ch: Chance, uid: string)
    requires FirstLife(w, uid) && id in w.calls && w.calls[id].stage.CreateClaim? && w.calls[id].task.Ensure?
    ensures FirstLife(DoCreateClaim(w, id, ch), uid)
  {
    MoveFirst(w, id, DoCreateClaim(w, id, ch).calls[id].stage, uid);
  }

  lemma AdvanceFirst(w: World, id: nat, ch: Chance, uid: string)
    requires FirstLife(w, uid) && CallsSound(w)
    ensures FirstLife(DoAdvance(w, id, ch), uid)
  {
    if id in w.calls {
      var c := w.calls[id];
      match c.stage
      case ReadClaim(_) => if c.task.Ensure? { ReadClaimFirst(w, id, ch, uid); }
      case CreateClaim(_, _) => if c.task.Ensure? { CreateClaimFirst(w, id, ch, uid); }
      case CreateUser(_) => if c.task.Ensure? { CreateFirst(w, id, ch, uid); }
      case Get(_, _, _) => MoveFirst(w, id, DoGet(w, id, ch).calls[id].stage, uid);
      case Strip(_, _, _, _) => StripFirst(w, id, ch, uid);
      case Fetch(_, _) => MoveFirst(w, id, DoFetch(w, id, ch).calls[id].stage, uid);
      case Bump(_, _, _) => BumpFirst(w, id, ch, uid);
      case _ =>
    }
  }

  lemma {:induction false} RunFirst(steps: seq<Step>, uid: string)
    requires DeleteUser(uid) !in steps
    ensures FirstLife(Run(steps), uid)
  {
    if steps == [] {
      assert Bumps(map[], uid) == {};
    } else {
      var front, s := steps[..|steps| - 1], steps[|steps| - 1];
      assert s in steps && forall x | x in front :: x in steps;
      RunFirst(front, uid);
      RunKeeps(front);
      match s
      case Begin(id, task, blind) =>
        if id !in Run(front).calls {
          SameBumps(Run(front).calls, id, Call(task, blind, Start(task)), uid);
        }
      case Advance(id, ch) => AdvanceFirst(Run(front), id, ch, uid);
      case DeleteUser(other) => assert other != uid;
    }
  }

  // ---------- What it is for ----------

  /** One address never gets two users: in every run, with any deletions of
      user records and any failures of the store, all calls that succeed for
      one address return the same uid, and calls for two addresses never
      do. */
  lemma OneUserPerAddress(steps: seq<Step>, i: nat, j: nat)
    requires var w := Run(steps);
             && i in w.calls && j in w.calls && w.calls[i].task.Ensure? && w.calls[j].task.Ensure?
             && w.calls[i].stage.Returned? && w.calls[j].stage.Returned?
    ensures var w := Run(steps);
            w.calls[i].stage.user.id == w.calls[j].stage.user.id <==> w.calls[i].task.eh == w.calls[j].task.eh
  {
    RunKeeps(steps);
    assert StageSound(Run(steps), Run(steps).calls[i]) && StageSound(Run(steps), Run(steps).calls[j]);
  }

  /** users/<uid> always holds the record for the claim on that uid, and no
      sign-in ever ends because a claim changed. */
  lemma RecordsMatchClaims(steps: seq<Step>)
    ensures var w := Run(steps);
            && (forall uid | uid in w.users :: w.users[uid].id == uid && Claimed(w, w.users[uid].eh, uid))
            && forall id | id in w.calls :: w.calls[id].stage != Failed(ClaimChanged)
  {
    RunKeeps(steps);
    var w := Run(steps);
    forall id | id in w.calls
      ensures w.calls[id].stage != Failed(ClaimChanged)
    {
      assert StageSound(w, w.calls[id]);
    }
  }

  /** In blind mode no call returns a user with an address. */
  lemma BlindReturnsNoAddress(steps: seq<Step>, id: nat)
    requires id in Run(steps).calls && Run(steps).calls[id].blind && Run(steps).calls[id].stage.Returned?
    ensures Run(steps).calls[id].stage.user.email == ""
  {
    RunKeeps(steps);
    assert StageSound(Run(steps), Run(steps).calls[id]);
  }

  /** No epoch bump is lost: a stored epoch is the record's first one plus the
      bumps made since, whatever reads and strips ran among them; for a record
      never deleted, plus all of them, and below 2^62 bumps it never
      overflows. */
  lemma NoBumpIsLost(steps: seq<Step>, uid: string)
    requires uid in Run(steps).users
    ensures var w := Run(steps);
            && uid in w.born
            && w.users[uid].epoch == w.born[uid].0 + |Bumps(w.calls, uid)| - w.born[uid].1
            && (DeleteUser(uid) !in steps ==> w.users[uid].epoch == w.born[uid].0 + |Bumps(w.calls, uid)|)
            && (DeleteUser(uid) !in steps && |Bumps(w.calls, uid)| <= EPOCH_LIMIT ==> 0 <= w.users[uid].epoch <= MAX_I64)
  {
    RunCounts(steps);
    assert EpochSound(Run(steps), uid);
    if DeleteUser(uid) !in steps {
      RunFirst(steps, uid);
    }
  }

  /** And when no update both took effect and reported an error, those are
      exactly the calls that succeeded. */
  lemma BumpsAreSuccesses(steps: seq<Step>, uid: string)
    requires var w := Run(steps); forall id | id in w.calls :: !w.calls[id].stage.Unsure?
    ensures var w := Run(steps);
            Bumps(w.calls, uid) == set id | id in w.calls && w.calls[id].task == EndSessions(uid) && w.calls[id].stage.Ended?
  {
  }
}
