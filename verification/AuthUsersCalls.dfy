/** The retry loops of auth/users.go and of objrec's Mutate as they run, on a
    store that anyone else may write before each operation. */
module AuthUsersCalls {
  import opened AuthUsers

  type Users = map<string, User>

  /** What the rest of the world does to the records before the n-th
      operation. */
  type Others = (nat, Users) -> Users

  datatype At = At(users: Users, n: nat)

  datatype Result = Found(user: User) | NotFound | GaveUp

  function Meanwhile(others: Others, at: At): At {
    At(others(at.n, at.users), at.n + 1)
  }

  predicate Unchanged(at: At, uid: string, seen: User) {
    uid in at.users && at.users[uid] == seen
  }

  /** read, from its tries-th attempt on. */
  function ReadFrom(others: Others, blind: bool, at: At, uid: string, tries: nat): (At, Result)
    requires tries <= READ_ATTEMPTS
    decreases READ_ATTEMPTS - tries
  {
    if tries == READ_ATTEMPTS then (at, GaveUp)
    else
      var got := Meanwhile(others, at);
      if uid !in got.users then (got, NotFound)
      else
        var u := got.users[uid];
        if !blind || u.email == "" then (got, Found(u))
        else
          var now := Meanwhile(others, got);
          var bare := u.(email := "");
          if Unchanged(now, uid, u) then (now.(users := now.users[uid := bare]), Found(bare))
          else ReadFrom(others, blind, now, uid, tries + 1)
  }

  /** EndSessions' change to a record. */
  function Raised(blind: bool, u: User): User {
    u.(epoch := u.epoch + 1, email := if blind then "" else u.email)
  }

  /** Mutate with that change, from its tries-th attempt on. */
  function RaiseFrom(others: Others, blind: bool, at: At, uid: string, tries: nat): (At, Result)
    requires tries <= MUTATE_ATTEMPTS
    decreases MUTATE_ATTEMPTS - tries
  {
    if tries == MUTATE_ATTEMPTS then (at, GaveUp)
    else
      var got := Meanwhile(others, at);
      if uid !in got.users then (got, NotFound)
      else
        var u := got.users[uid];
        var now := Meanwhile(others, got);
        if Unchanged(now, uid, u) then (now.(users := now.users[uid := Raised(blind, u)]), Found(Raised(blind, u)))
        else RaiseFrom(others, blind, now, uid, tries + 1)
  }

  class Records {
    var users: Users
    var n: nat
    const others: Others
    const blind: bool

    constructor (users: Users, others: Others, blind: bool)
      ensures Value() == At(users, 0) && this.others == others && this.blind == blind
    {
      this.users, this.n, this.others, this.blind := users, 0, others, blind;
    }

    function Value(): At
      reads this
    {
      At(users, n)
    }

    /** GetJSON. */
    method GetUser(uid: string) returns (found: bool, u: User)
      modifies this
      ensures Value() == Meanwhile(others, old(Value()))
      ensures found == (uid in users) && (found ==> u == users[uid])
    {
      users, n := others(n, users), n + 1;
      if uid in users {
        return true, users[uid];
      }
      return false, User("", "", "", 0, 0);
    }

    /** UpdateJSON: false is ErrChanged or ErrNotFound. */
    method Update(uid: string, next: User, seen: User) returns (ok: bool)
      modifies this
      ensures var now := Meanwhile(others, old(Value()));
              && ok == Unchanged(now, uid, seen)
              && Value() == if ok then now.(users := now.users[uid := next]) else now
    {
      users, n := others(n, users), n + 1;
      if uid in users && users[uid] == seen {
        users := users[uid := next];
        return true;
      }
      return false;
    }

    method ReadUser(uid: string) returns (r: Result)
      modifies this
      ensures (Value(), r) == ReadFrom(others, blind, old(Value()), uid, 0)
    {
      var tries := 0;
      while tries < READ_ATTEMPTS
        invariant tries <= READ_ATTEMPTS
        invariant ReadFrom(others, blind, Value(), uid, tries) == ReadFrom(others, blind, old(Value()), uid, 0)
      {
        var found, u := GetUser(uid);
        if !found {
          return NotFound;
        }
        if !blind || u.email == "" {
          return Found(u);
        }
        var bare := u.(email := "");
        var swapped := Update(uid, bare, u);
        if swapped {
          return Found(bare);
        }
        tries := tries + 1;
      }
      r := GaveUp;
    }

    method EndSessions(uid: string) returns (r: Result)
      modifies this
      ensures (Value(), r) == RaiseFrom(others, blind, old(Value()), uid, 0)
    {
      var tries := 0;
      while tries < MUTATE_ATTEMPTS
        invariant tries <= MUTATE_ATTEMPTS
        invariant RaiseFrom(others, blind, Value(), uid, tries) == RaiseFrom(others, blind, old(Value()), uid, 0)
      {
        var found, u := GetUser(uid);
        if !found {
          return NotFound;
        }
        var next := Raised(blind, u);
        var swapped := Update(uid, next, u);
        if swapped {
          return Found(next);
        }
        tries := tries + 1;
      }
      r := GaveUp;
    }

    /** stripAll over the uids the store lists: false when a read failed. */
    method StripAll(listed: seq<string>) returns (ok: bool)
      modifies this
      ensures (Value(), ok) == StripFrom(others, blind, old(Value()), listed)
    {
      assert listed[0..] == listed;
      for i := 0 to |listed|
        invariant StripFrom(others, blind, Value(), listed[i..]) == StripFrom(others, blind, old(Value()), listed)
      {
        assert listed[i..][0] == listed[i] && listed[i..][1..] == listed[i + 1..];
        var r := ReadUser(listed[i]);
        if r.GaveUp? {
          return false;
        }
      }
      assert listed[|listed|..] == [];
      return true;
    }
  }

  /** Each listed user read, until a read fails. */
  function StripFrom(others: Others, blind: bool, at: At, listed: seq<string>): (At, bool)
    decreases |listed|
  {
    if listed == [] then (at, true)
    else
      var (after, r) := ReadFrom(others, blind, at, listed[0], 0);
      if r.GaveUp? then (after, false) else StripFrom(others, blind, after, listed[1..])
  }

  /** The records with the addresses of some removed. */
  function Stripped(users: Users, uids: set<string>): Users {
    map uid | uid in users :: if uid in uids then users[uid].(email := "") else users[uid]
  }

  ghost predicate Quiet(others: Others) {
    forall k: nat, m: Users :: others(k, m) == m
  }

  lemma QuietRead(others: Others, at: At, uid: string)
    requires Quiet(others)
    ensures var (after, r) := ReadFrom(others, true, at, uid, 0);
            after.users == Stripped(at.users, {uid}) && !r.GaveUp?
  {
    if uid in at.users && at.users[uid].email != "" {
      assert Stripped(at.users, {uid}) == at.users[uid := at.users[uid].(email := "")];
    } else {
      assert uid in at.users ==> at.users[uid] == at.users[uid].(email := "");
      assert Stripped(at.users, {uid}) == at.users;
    }
  }

  /** Undisturbed, the pass removes exactly the listed users' addresses and
      changes nothing else. */
  lemma {:induction false} QuietStrip(others: Others, at: At, listed: seq<string>)
    requires Quiet(others)
    ensures var (after, ok) := StripFrom(others, true, at, listed);
            ok && after.users == Stripped(at.users, set uid | uid in listed)
    decreases |listed|
  {
    if listed == [] {
      assert Stripped(at.users, {}) == at.users;
    } else {
      var (after, r) := ReadFrom(others, true, at, listed[0], 0);
      QuietRead(others, at, listed[0]);
      QuietStrip(others, after, listed[1..]);
      StrippedTwice(at.users, {listed[0]}, set uid | uid in listed[1..]);
      assert (set uid | uid in listed) == {listed[0]} + (set uid | uid in listed[1..]);
    }
  }

  lemma StrippedTwice(users: Users, a: set<string>, b: set<string>)
    ensures Stripped(Stripped(users, a), b) == Stripped(users, a + b)
  {
  }

  // ---------- The pass among other writers ----------

  /** The users with an address in the store. */
  function Addressed(users: Users): set<string> {
    set uid | uid in users && users[uid].email != ""
  }

  /** Nobody else gives a user an address: every instance is blind. */
  ghost predicate AllBlind(others: Others) {
    forall k: nat, m: Users :: Addressed(others(k, m)) <= Addressed(m)
  }

  lemma {:induction false} ReadAddsNone(others: Others, blind: bool, at: At, uid: string, tries: nat)
    requires tries <= READ_ATTEMPTS && AllBlind(others)
    ensures Addressed(ReadFrom(others, blind, at, uid, tries).0.users) <= Addressed(at.users)
    decreases READ_ATTEMPTS - tries
  {
    if tries < READ_ATTEMPTS {
      var got := Meanwhile(others, at);
      if uid in got.users && blind && got.users[uid].email != "" {
        var now := Meanwhile(others, got);
        if !Unchanged(now, uid, got.users[uid]) {
          ReadAddsNone(others, blind, now, uid, tries + 1);
        }
      }
    }
  }

  lemma ReadRemoves(others: Others, at: At, uid: string)
    requires AllBlind(others)
    ensures var (after, r) := ReadFrom(others, true, at, uid, 0);
            !r.GaveUp? ==> Addressed(after.users) <= Addressed(at.users) - {uid}
  {
    ReadAddsNone(others, true, at, uid, 0);
    ReadReturnsStored(others, true, at, uid, 0);
  }

  /** Among any other writers that are blind too, sign-ins, epoch bumps and
      removals at every moment, a pass that succeeds over a list with every
      user who had an address leaves no address in the store. */
  lemma {:induction false} StripLeavesNone(others: Others, at: At, listed: seq<string>)
    requires AllBlind(others) && forall uid | uid in Addressed(at.users) :: uid in listed
    ensures var (after, ok) := StripFrom(others, true, at, listed); ok ==> Addressed(after.users) == {}
    decreases |listed|
  {
    if listed != [] {
      var (after, r) := ReadFrom(others, true, at, listed[0], 0);
      ReadRemoves(others, at, listed[0]);
      if !r.GaveUp? {
        forall uid | uid in Addressed(after.users)
          ensures uid in listed[1..]
        {
          assert uid in listed && uid != listed[0];
        }
        StripLeavesNone(others, after, listed[1..]);
      }
    } else {
      assert Addressed(at.users) == {};
    }
  }

  /** A read in blind mode returns no address, and what it returns is what it
      left, or found, in the store at that moment. */
  lemma {:induction false} ReadReturnsStored(others: Others, blind: bool, at: At, uid: string, tries: nat)
    requires tries <= READ_ATTEMPTS
    ensures var (after, r) := ReadFrom(others, blind, at, uid, tries);
            && (r.Found? ==> uid in after.users && after.users[uid] == r.user && (blind ==> r.user.email == ""))
            && (r.NotFound? ==> uid !in after.users)
    decreases READ_ATTEMPTS - tries
  {
    if tries < READ_ATTEMPTS {
      var got := Meanwhile(others, at);
      if uid in got.users && blind && got.users[uid].email != "" {
        var now := Meanwhile(others, got);
        if !Unchanged(now, uid, got.users[uid]) {
          ReadReturnsStored(others, blind, now, uid, tries + 1);
        }
      }
    }
  }

  /** A successful EndSessions raised the epoch that was stored at the very
      moment it wrote, and changed no other record then; one that fails wrote
      nothing at all. */
  lemma {:induction false} RaiseIsAtomic(others: Others, blind: bool, at: At, uid: string, tries: nat) returns (before: At)
    requires tries <= MUTATE_ATTEMPTS
    ensures var (after, r) := RaiseFrom(others, blind, at, uid, tries);
            && (r.Found? ==> uid in before.users && r.user == Raised(blind, before.users[uid])
                             && after == before.(users := before.users[uid := r.user]))
            && (!r.Found? ==> after == before)
    ensures before.n >= at.n
    decreases MUTATE_ATTEMPTS - tries
  {
    before := at;
    if tries < MUTATE_ATTEMPTS {
      var got := Meanwhile(others, at);
      before := got;
      if uid in got.users {
        var now := Meanwhile(others, got);
        before := now;
        if !Unchanged(now, uid, got.users[uid]) {
          before := RaiseIsAtomic(others, blind, now, uid, tries + 1);
        }
      }
    }
  }
}
