/** People kept as records in an object store (auth/users.go, Mutate in
    objrec/objrec.go): sign-ins, reads that strip addresses, and epoch bumps,
    each a program of single store operations run among any number of
    others. */
module AuthUsers {
  import opened Digits

  // ---------- Records ----------

  /** users/<uid>.json. */
  datatype User = User(id: string, email: string, eh: string, created: int, epoch: int)

  /** What a call is for. Blind is the setting of the instance it runs on. */
  datatype Task = Ensure(eh: string, address: string) | Read(who: string) | EndSessions(who: string)

  datatype Missing = Repair | Report

  datatype Why = StoreError | ClaimChanged | Gone | Busy

  /** Where a call stands: the store operation it is about to make, or how it
      ended. Unsure is an update that took effect and reported an error. */
  datatype Stage =
    | ReadClaim(tries: nat)
    | CreateClaim(tries: nat, uid: string)
    | CreateUser(uid: string)
    | Get(uid: string, tries: nat, missing: Missing)
    | Strip(uid: string, seen: User, tries: nat, missing: Missing)
    | Fetch(uid: string, tries: nat)
    | Bump(uid: string, seen: User, tries: nat)
    | Returned(user: User)
    | Ended
    | Unsure
    | Failed(why: Why)

  datatype Call = Call(task: Task, blind: bool, stage: Stage)

  /** born remembers each record's first epoch, and how many bumps its uid had
      had by then; minted, every uid made. */
  datatype World = World(
    claims: map<string, string>, users: map<string, User>,
    born: map<string, (int, nat)>, minted: set<string>, calls: map<nat, Call>)

  /** readAttempts and mutateAttempts. */
  const READ_ATTEMPTS := 8
  const MUTATE_ATTEMPTS := 64

  /** randomEpoch is below 2^62. */
  const EPOCH_LIMIT := 0x4000_0000_0000_0000

  datatype Fate = Works | Fails | WorksButFails

  /** What a step may need from outside: a fresh uid, a random epoch, the
      clock, and how the store operation goes. */
  datatype Chance = Chance(uid: string, epoch: int, created: int, fate: Fate)

  datatype Step =
    | Begin(id: nat, task: Task, blind: bool)
    | Advance(id: nat, chance: Chance)
    | DeleteUser(uid: string)

  // ---------- Steps ----------

  function Start(t: Task): Stage {
    match t
    case Ensure(_, _) => ReadClaim(0)
    case Read(who) => Get(who, 0, Report)
    case EndSessions(who) => Fetch(who, 0)
  }

  function Move(w: World, id: nat, stage: Stage): World
    requires id in w.calls
  {
    w.(calls := w.calls[id := w.calls[id].(stage := stage)])
  }

  /** The EndSessions calls that bumped a uid's epoch. */
  function Bumps(calls: map<nat, Call>, uid: string): set<nat> {
    set id | id in calls && calls[id].task == EndSessions(uid) && (calls[id].stage.Ended? || calls[id].stage.Unsure?)
  }

  function DoReadClaim(w: World, id: nat, ch: Chance): World
    requires id in w.calls && w.calls[id].stage.ReadClaim? && w.calls[id].task.Ensure?
  {
    var c := w.calls[id];
    if ch.fate != Works then Move(w, id, Failed(StoreError))
    else if c.task.eh in w.claims then Move(w, id, Get(w.claims[c.task.eh], 0, Repair))
    else if ch.uid in w.minted then w
    else Move(w.(minted := w.minted + {ch.uid}), id, CreateClaim(c.stage.tries, ch.uid))
  }

  function DoCreateClaim(w: World, id: nat, ch: Chance): World
    requires id in w.calls && w.calls[id].stage.CreateClaim? && w.calls[id].task.Ensure?
  {
    var c := w.calls[id];
    if ch.fate == Fails then Move(w, id, Failed(StoreError))
    else if c.task.eh in w.claims then
      Move(w, id, if c.stage.tries + 1 < 2 then ReadClaim(c.stage.tries + 1) else Failed(ClaimChanged))
    else
      Move(w.(claims := w.claims[c.task.eh := c.stage.uid]), id,
           if ch.fate == Works then CreateUser(c.stage.uid) else Failed(StoreError))
  }

  function NewUser(c: Call, ch: Chance): User
    requires c.task.Ensure? && c.stage.CreateUser?
  {
    User(c.stage.uid, if c.blind then "" else c.task.address, c.task.eh, ch.created, ch.epoch)
  }

  function DoCreateUser(w: World, id: nat, ch: Chance): World
    requires id in w.calls && w.calls[id].stage.CreateUser? && w.calls[id].task.Ensure?
  {
    var c := w.calls[id];
    var uid := c.stage.uid;
    if ch.fate == Fails then Move(w, id, Failed(StoreError))
    else if uid in w.users then Move(w, id, Get(uid, 0, Report))
    else if !(0 <= ch.epoch < EPOCH_LIMIT) then w
    else
      Move(w.(users := w.users[uid := NewUser(c, ch)], born := w.born[uid := (ch.epoch, |Bumps(w.calls, uid)|)]), id,
           if ch.fate == Works then Returned(NewUser(c, ch)) else Failed(StoreError))
  }

  function DoGet(w: World, id: nat, ch: Chance): World
    requires id in w.calls && w.calls[id].stage.Get?
  {
    var c := w.calls[id];
    var s := c.stage;
    if ch.fate != Works then Move(w, id, Failed(StoreError))
    else if s.uid !in w.users then
      Move(w, id, if s.missing == Repair then CreateUser(s.uid) else Failed(Gone))
    else if !c.blind || w.users[s.uid].email == "" then Move(w, id, Returned(w.users[s.uid]))
    else Move(w, id, Strip(s.uid, w.users[s.uid], s.tries, s.missing))
  }

  /** An update conditional on the record still being the one read; versions
      are the record's own content. */
  predicate Current(w: World, uid: string, seen: User) {
    uid in w.users && w.users[uid] == seen
  }

  function DoStrip(w: World, id: nat, ch: Chance): World
    requires id in w.calls && w.calls[id].stage.Strip?
  {
    var s := w.calls[id].stage;
    var bare := s.seen.(email := "");
    if ch.fate == Fails then Move(w, id, Failed(StoreError))
    else if !Current(w, s.uid, s.seen) then
      Move(w, id, if s.tries + 1 < READ_ATTEMPTS then Get(s.uid, s.tries + 1, s.missing) else Failed(Busy))
    else
      Move(w.(users := w.users[s.uid := bare]), id, if ch.fate == Works then Returned(bare) else Failed(StoreError))
  }

  function DoFetch(w: World, id: nat, ch: Chance): World
    requires id in w.calls && w.calls[id].stage.Fetch?
  {
    var s := w.calls[id].stage;
    if ch.fate != Works then Move(w, id, Failed(StoreError))
    else if s.uid !in w.users then Move(w, id, Failed(Gone))
    else Move(w, id, Bump(s.uid, w.users[s.uid], s.tries))
  }

  function Bumped(c: Call): User
    requires c.stage.Bump?
  {
    var u := c.stage.seen.(epoch := c.stage.seen.epoch + 1);
    if c.blind then u.(email := "") else u
  }

  function DoBump(w: World, id: nat, ch: Chance): World
    requires id in w.calls && w.calls[id].stage.Bump?
  {
    var c := w.calls[id];
    var s := c.stage;
    if ch.fate == Fails then Move(w, id, Failed(StoreError))
    else if !Current(w, s.uid, s.seen) then
      Move(w, id, if s.tries + 1 < MUTATE_ATTEMPTS then Fetch(s.uid, s.tries + 1) else Failed(Busy))
    else Move(w.(users := w.users[s.uid := Bumped(c)]), id, if ch.fate == Works then Ended else Unsure)
  }

  function DoAdvance(w: World, id: nat, ch: Chance): World {
    if id !in w.calls then w
    else
      var c := w.calls[id];
      match c.stage
      case ReadClaim(_) => if c.task.Ensure? then DoReadClaim(w, id, ch) else w
      case CreateClaim(_, _) => if c.task.Ensure? then DoCreateClaim(w, id, ch) else w
      case CreateUser(_) => if c.task.Ensure? then DoCreateUser(w, id, ch) else w
      case Get(_, _, _) => DoGet(w, id, ch)
      case Strip(_, _, _, _) => DoStrip(w, id, ch)
      case Fetch(_, _) => DoFetch(w, id, ch)
      case Bump(_, _, _) => DoBump(w, id, ch)
      case _ => w
  }

  function Apply(w: World, s: Step): World {
    match s
    case Begin(id, task, blind) =>
      if id in w.calls then w else w.(calls := w.calls[id := Call(task, blind, Start(task))])
    case Advance(id, ch) => DoAdvance(w, id, ch)
    case DeleteUser(uid) => w.(users := w.users - {uid}, born := w.born - {uid})
  }

  function Empty(): World {
    World(map[], map[], map[], {}, map[])
  }

  function Run(steps: seq<Step>): World {
    if steps == [] then Empty() else Apply(Run(steps[..|steps| - 1]), steps[|steps| - 1])
  }
}
