/** What each call does when no other runs beside it: that a sign-in makes or
    finds its user, a read finds its record, and a bump raises its epoch. */
module AuthUsersAlone {
  import opened Digits
  import opened AuthUsers
  import opened AuthUsersLaws

  /** A call's next steps, one for each chance. */
  function Advances(w: World, id: nat, chances: seq<Chance>): World {
    if chances == [] then w
    else DoAdvance(Advances(w, id, chances[..|chances| - 1]), id, chances[|chances| - 1])
  }

  /** A call begun and advanced with nothing in between. */
  function Alone(w: World, id: nat, task: Task, blind: bool, chances: seq<Chance>): World {
    Advances(Apply(w, Begin(id, task, blind)), id, chances)
  }

  /** Nothing fails. */
  predicate Smooth(chances: seq<Chance>) {
    forall i | 0 <= i < |chances| :: chances[i].fate == Works
  }

  lemma OneMore(w: World, id: nat, chances: seq<Chance>, ch: Chance)
    ensures Advances(w, id, chances + [ch]) == DoAdvance(Advances(w, id, chances), id, ch)
  {
    assert (chances + [ch])[..|chances|] == chances;
  }

  /** The world with one call at a stage. */
  function At(w: World, id: nat, task: Task, blind: bool, stage: Stage): World {
    w.(calls := w.calls[id := Call(task, blind, stage)])
  }

  lemma MovesAt(w: World, id: nat, task: Task, blind: bool, a: Stage, b: Stage)
    ensures Move(At(w, id, task, blind, a), id, b) == At(w, id, task, blind, b)
  {
    assert w.calls[id := Call(task, blind, a)][id := Call(task, blind, b)] == w.calls[id := Call(task, blind, b)];
  }

  lemma Begun(w: World, id: nat, task: Task, blind: bool)
    requires id !in w.calls
    ensures Alone(w, id, task, blind, []) == At(w, id, task, blind, Start(task))
  {
  }

  // ---------- Reading ----------

  /** What reading a record leaves of it. */
  function Bare(u: User, blind: bool): User {
    if blind then u.(email := "") else u
  }

  /** From its read of the record on: a call that is to see a record that is
      there gets it, stripped on a blind instance, in the store too. */
  lemma Gets(w: World, id: nat, task: Task, blind: bool, uid: string, tries: nat, missing: Missing, a: Chance, b: Chance)
    requires uid in w.users && a.fate == Works && b.fate == Works
    ensures var u := w.users[uid];
            Advances(At(w, id, task, blind, Get(uid, tries, missing)), id, [a, b])
            == At(w.(users := w.users[uid := Bare(u, blind)]), id, task, blind, Returned(Bare(u, blind)))
  {
    var u := w.users[uid];
    var w0 := At(w, id, task, blind, Get(uid, tries, missing));
    assert w.users[uid := u] == w.users;
    assert Advances(w0, id, []) == w0;
    OneMore(w0, id, [], a);
    OneMore(w0, id, [a], b);
    assert [] + [a] == [a] && [a] + [b] == [a, b];
    if !blind || u.email == "" {
      MovesAt(w, id, task, blind, Get(uid, tries, missing), Returned(u));
      assert Bare(u, blind) == u;
    } else {
      MovesAt(w, id, task, blind, Get(uid, tries, missing), Strip(uid, u, tries, missing));
      MovesAt(w.(users := w.users[uid := Bare(u, blind)]), id, task, blind, Strip(uid, u, tries, missing), Returned(Bare(u, blind)));
    }
  }

  lemma Split(w: World, id: nat, a: seq<Chance>, b: seq<Chance>)
    ensures Advances(w, id, a + b) == Advances(Advances(w, id, a), id, b)
  {
    if b == [] {
      assert a + b == a;
    } else {
      assert (a + b)[..|a + b| - 1] == a + b[..|b| - 1];
      Split(w, id, a, b[..|b| - 1]);
    }
  }

  lemma OneStep(w: World, id: nat, ch: Chance)
    ensures Advances(w, id, [ch]) == DoAdvance(w, id, ch)
  {
    assert [ch][..0] == [] && Advances(w, id, []) == w;
  }

  /** A read returns the record, without its address on a blind instance, and
      a record that is not there is reported gone; nothing else changes. */
  lemma ReadAlone(w: World, id: nat, who: string, blind: bool, a: Chance, b: Chance)
    requires id !in w.calls && a.fate == Works && b.fate == Works
    ensures Alone(w, id, Read(who), blind, [a, b])
         == if who in w.users
            then At(w.(users := w.users[who := Bare(w.users[who], blind)]), id, Read(who), blind,
                    Returned(Bare(w.users[who], blind)))
            else At(w, id, Read(who), blind, Failed(Gone))
  {
    var w0 := At(w, id, Read(who), blind, Get(who, 0, Report));
    if who in w.users {
      Gets(w, id, Read(who), blind, who, 0, Report, a, b);
    } else {
      Split(w0, id, [a], [b]);
      OneStep(w0, id, a);
      MovesAt(w, id, Read(who), blind, Get(who, 0, Report), Failed(Gone));
      OneStep(At(w, id, Read(who), blind, Failed(Gone)), id, b);
      assert [a] + [b] == [a, b];
    }
  }

  // ---------- Ending sessions ----------

  lemma BumpsAlone(w: World, id: nat, who: string, blind: bool, a: Chance, b: Chance)
    requires who in w.users && a.fate == Works && b.fate == Works
    ensures Advances(At(w, id, EndSessions(who), blind, Fetch(who, 0)), id, [a, b])
         == At(w.(users := w.users[who := Bare(w.users[who], blind).(epoch := w.users[who].epoch + 1)]), id,
               EndSessions(who), blind, Ended)
  {
    var task, u := EndSessions(who), w.users[who];
    var w0 := At(w, id, task, blind, Fetch(who, 0));
    Split(w0, id, [a], [b]);
    assert [a] + [b] == [a, b];
    OneStep(w0, id, a);
    MovesAt(w, id, task, blind, Fetch(who, 0), Bump(who, u, 0));
    OneStep(At(w, id, task, blind, Bump(who, u, 0)), id, b);
    MovesAt(w.(users := w.users[who := Bare(u, blind).(epoch := u.epoch + 1)]), id, task, blind, Bump(who, u, 0), Ended);
  }

  lemma FindsNone(w: World, id: nat, who: string, blind: bool, a: Chance, b: Chance)
    requires who !in w.users && a.fate == Works && b.fate == Works
    ensures Advances(At(w, id, EndSessions(who), blind, Fetch(who, 0)), id, [a, b])
         == At(w, id, EndSessions(who), blind, Failed(Gone))
  {
    var task := EndSessions(who);
    var w0 := At(w, id, task, blind, Fetch(who, 0));
    Split(w0, id, [a], [b]);
    assert [a] + [b] == [a, b];
    OneStep(w0, id, a);
    MovesAt(w, id, task, blind, Fetch(who, 0), Failed(Gone));
    OneStep(At(w, id, task, blind, Failed(Gone)), id, b);
  }

  /** EndSessions raises the record's epoch by one, and on a blind instance
      leaves no address; a user with no record is reported gone and nothing is
      written. */
  lemma EndSessionsAlone(w: World, id: nat, who: string, blind: bool, a: Chance, b: Chance)
    requires id !in w.calls && a.fate == Works && b.fate == Works
    ensures Alone(w, id, EndSessions(who), blind, [a, b])
         == if who in w.users
            then At(w.(users := w.users[who := Bare(w.users[who], blind).(epoch := w.users[who].epoch + 1)]), id,
                    EndSessions(who), blind, Ended)
            else At(w, id, EndSessions(who), blind, Failed(Gone))
  {
    if who in w.users {
      BumpsAlone(w, id, who, blind, a, b);
    } else {
      FindsNone(w, id, who, blind, a, b);
    }
  }

  // ---------- Signing in ----------

  /** The first sign-in for an address claims a new uid and makes its
      record. */
  lemma FirstSignIn(w: World, id: nat, eh: string, address: string, blind: bool, a: Chance, b: Chance, c: Chance)
    requires Inv(w) && id !in w.calls && eh !in w.claims
    requires a.fate == Works && b.fate == Works && c.fate == Works && a.uid !in w.minted && 0 <= c.epoch < EPOCH_LIMIT
    ensures var u := User(a.uid, if blind then "" else address, eh, c.created, c.epoch);
            var after := Alone(w, id, Ensure(eh, address), blind, [a, b, c]);
            && after.claims == w.claims[eh := a.uid] && after.users == w.users[a.uid := u]
            && after.calls == w.calls[id := Call(Ensure(eh, address), blind, Returned(u))]
  {
    var task := Ensure(eh, address);
    var w0 := At(w, id, task, blind, ReadClaim(0));
    assert a.uid !in w.users;
    assert [a] + [b] == [a, b] && [a, b] + [c] == [a, b, c];
    Split(w0, id, [a], [b]);
    Split(w0, id, [a, b], [c]);
    OneStep(w0, id, a);
    var w1 := w.(minted := w.minted + {a.uid});
    MovesAt(w1, id, task, blind, ReadClaim(0), CreateClaim(0, a.uid));
    OneStep(At(w1, id, task, blind, CreateClaim(0, a.uid)), id, b);
    var w2 := w1.(claims := w.claims[eh := a.uid]);
    MovesAt(w2, id, task, blind, CreateClaim(0, a.uid), CreateUser(a.uid));
    Creates(w2, id, task, blind, a.uid, c);
  }

  /** From its create on: a sign-in makes the record that is not there. */
  lemma Creates(w: World, id: nat, task: Task, blind: bool, uid: string, c: Chance)
    requires task.Ensure? && uid !in w.users && c.fate == Works && 0 <= c.epoch < EPOCH_LIMIT
    ensures var u := User(uid, if blind then "" else task.address, task.eh, c.created, c.epoch);
            var after := Advances(At(w, id, task, blind, CreateUser(uid)), id, [c]);
            && after.claims == w.claims && after.users == w.users[uid := u]
            && after.calls == w.calls[id := Call(task, blind, Returned(u))]
  {
    OneStep(At(w, id, task, blind, CreateUser(uid)), id, c);
    assert w.calls[id := Call(task, blind, CreateUser(uid))][id := Call(task, blind, Returned(User(uid, if blind then "" else task.address, task.eh, c.created, c.epoch)))]
        == w.calls[id := Call(task, blind, Returned(User(uid, if blind then "" else task.address, task.eh, c.created, c.epoch)))];
  }

  /** A later one returns the record of its claim. */
  lemma LaterSignIn(w: World, id: nat, eh: string, address: string, blind: bool, a: Chance, b: Chance, c: Chance)
    requires id !in w.calls && eh in w.claims && w.claims[eh] in w.users
    requires a.fate == Works && b.fate == Works && c.fate == Works
    ensures var uid := w.claims[eh];
            Alone(w, id, Ensure(eh, address), blind, [a] + [b, c])
            == At(w.(users := w.users[uid := Bare(w.users[uid], blind)]), id, Ensure(eh, address), blind,
                  Returned(Bare(w.users[uid], blind)))
  {
    var task := Ensure(eh, address);
    var w0 := At(w, id, task, blind, ReadClaim(0));
    Split(w0, id, [a], [b, c]);
    OneStep(w0, id, a);
    MovesAt(w, id, task, blind, ReadClaim(0), Get(w.claims[eh], 0, Repair));
    Gets(w, id, task, blind, w.claims[eh], 0, Repair, b, c);
  }

  /** A claim whose record is missing is repaired: the record is made again,
      on the same uid. */
  lemma RepairingSignIn(w: World, id: nat, eh: string, address: string, blind: bool, a: Chance, b: Chance, c: Chance)
    requires id !in w.calls && eh in w.claims && w.claims[eh] !in w.users
    requires a.fate == Works && b.fate == Works && c.fate == Works && 0 <= c.epoch < EPOCH_LIMIT
    ensures var uid := w.claims[eh];
            var u := User(uid, if blind then "" else address, eh, c.created, c.epoch);
            var after := Alone(w, id, Ensure(eh, address), blind, [a, b, c]);
            && after.claims == w.claims && after.users == w.users[uid := u]
            && after.calls == w.calls[id := Call(Ensure(eh, address), blind, Returned(u))]
  {
    var task := Ensure(eh, address);
    var uid := w.claims[eh];
    var w0 := At(w, id, task, blind, ReadClaim(0));
    assert [a] + [b] == [a, b] && [a, b] + [c] == [a, b, c];
    Split(w0, id, [a], [b]);
    Split(w0, id, [a, b], [c]);
    OneStep(w0, id, a);
    MovesAt(w, id, task, blind, ReadClaim(0), Get(uid, 0, Repair));
    OneStep(At(w, id, task, blind, Get(uid, 0, Repair)), id, b);
    MovesAt(w, id, task, blind, Get(uid, 0, Repair), CreateUser(uid));
    Creates(w, id, task, blind, uid, c);
  }

  /** A sign-in that loses the race for the claim reads the claim again, and
      so returns the winner's record or repairs it. */
  lemma LoserReadsAgain(w: World, id: nat, a: Chance, b: Chance)
    requires Inv(w) && id in w.calls && w.calls[id].task.Ensure? && w.calls[id].stage.CreateClaim?
    requires w.calls[id].task.eh in w.claims && a.fate != Fails && b.fate == Works
    ensures Advances(w, id, [a, b])
         == w.(calls := w.calls[id := w.calls[id].(stage := Get(w.claims[w.calls[id].task.eh], 0, Repair))])
  {
    var c := w.calls[id];
    assert [a] + [b] == [a, b];
    Split(w, id, [a], [b]);
    OneStep(w, id, a);
    OneStep(DoAdvance(w, id, a), id, b);
    LastStageStands(w, id, ReadClaim(1), Get(w.claims[c.task.eh], 0, Repair));
  }

  /** An operation that fails is reported, and a failed one that had no effect
      leaves every record and claim as it was. */
  lemma FailureIsReported(w: World, id: nat, ch: Chance)
    requires id in w.calls && ch.fate == Fails
    requires !(w.calls[id].stage.Returned? || Over(w.calls[id].stage) || w.calls[id].stage.Failed?)
    requires w.calls[id].task.Ensure? || !(w.calls[id].stage.ReadClaim? || w.calls[id].stage.CreateClaim? || w.calls[id].stage.CreateUser?)
    ensures DoAdvance(w, id, ch) == Move(w, id, Failed(StoreError))
  {
  }
}
