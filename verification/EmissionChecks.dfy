/** The checks a handler registers with Disclosed, and that no chunk goes out
    past one of them (api/gate.go). */
module EmissionChecks {
  import opened Digits
  import opened ByteText
  import opened Emission
  import opened EmissionTrace

  /** A registered check: what it answers each time it is rerun, and when. */
  type Registered = nat -> Disclosure

  /** One request's disclosures. */
  class Disclosures {
    var checks: seq<Registered>

    constructor ()
      ensures checks == []
    {
      checks := [];
    }

    /** Disclosed: false is the panic for no check at all. */
    method Disclosed(check: Option<Registered>) returns (ok: bool)
      modifies this
      ensures ok == check.Some?
      ensures checks == if check.Some? then old(checks) + [check.value] else old(checks)
    {
      if check.None? {
        return false;
      }
      checks := checks + [check.value];
      return true;
    }

    method Snapshot() returns (s: seq<Registered>)
      ensures s == checks
    {
      s := checks;
    }
  }

  /** The list as the n-th recheck finds it, when the handler registers
      arrivals(k) before the k-th and after the one before it. */
  function Listed(arrivals: nat -> seq<Registered>, n: nat): seq<Registered> {
    (if n == 0 then [] else Listed(arrivals, n - 1)) + arrivals(n)
  }

  /** Each recheck reruns the list it finds. */
  ghost predicate Fed(w: World, arrivals: nat -> seq<Registered>) {
    forall n: nat ::
      && |w.rounds(n).checks| == |Listed(arrivals, n)|
      && forall x | 0 <= x < |Listed(arrivals, n)| :: w.rounds(n).checks[x] == Listed(arrivals, n)[x](n)
  }

  /** In the round-th recheck this check passed, in time. */
  ghost predicate Reran(w: World, was: Actor, window: int, check: Registered, round: nat) {
    var r := w.rounds(round);
    Timely(r, window, check(round).returned) && check(round).verdict(Refreshed(was, r.now)).None?
  }

  lemma {:induction false} StaysListed(arrivals: nat -> seq<Registered>, n: nat, m: nat)
    requires n <= m
    ensures |Listed(arrivals, n)| <= |Listed(arrivals, m)|
    ensures forall x | 0 <= x < |Listed(arrivals, n)| :: Listed(arrivals, n)[x] == Listed(arrivals, m)[x]
  {
    if n < m {
      StaysListed(arrivals, n, m - 1);
    }
  }

  lemma PassedReran(w: World, arrivals: nat -> seq<Registered>, was: Actor, window: int, n: nat, m: nat, x: nat)
    requires Fed(w, arrivals) && Passes(was, window, w.rounds(m)) && n <= m && x < |Listed(arrivals, n)|
    ensures Reran(w, was, window, Listed(arrivals, n)[x], m)
  {
    StaysListed(arrivals, n, m);
    assert w.rounds(m).checks[x] == Listed(arrivals, m)[x](m);
    assert w.rounds(m).checks[x] in w.rounds(m).checks;
  }

  /** The acts at i are behind a recheck that every check registered by then
      passed. */
  ghost predicate BehindChecks(acts: seq<Act>, i: nat, w: World, arrivals: nat -> seq<Registered>, was: Actor, window: int) {
    exists j: nat :: j < i < |acts| && i <= j + 2 && acts[j].Check? && AllReran(w, arrivals, was, window, acts[j].round)
  }

  ghost predicate AllReran(w: World, arrivals: nat -> seq<Registered>, was: Actor, window: int, m: nat) {
    forall n: nat, x: nat | n <= m && x < |Listed(arrivals, n)| :: Reran(w, was, window, Listed(arrivals, n)[x], m)
  }

  lemma VouchedReran(a: Act, w: World, arrivals: nat -> seq<Registered>, was: Actor, window: int)
    requires Fed(w, arrivals) && Vouched(a, w, was, window)
    ensures AllReran(w, arrivals, was, window, a.round)
  {
    forall n: nat, x: nat | n <= a.round && x < |Listed(arrivals, n)|
      ensures Reran(w, was, window, Listed(arrivals, n)[x], a.round)
    {
      PassedReran(w, arrivals, was, window, n, a.round, x);
    }
  }

  /** Headers and every chunk go out only behind a recheck in which every
      check passed that the handler had registered by then, in that round or
      any before it: a check once registered is never left out. */
  lemma RegisteredIsRerun(w: World, arrivals: nat -> seq<Registered>, was: Actor, window: int, body: Bytes, takesDeadline: bool)
    requires Fed(w, arrivals)
    ensures var acts := Guarded(w, was, window, body, takesDeadline);
            forall i: nat | i < |acts| && (acts[i].Send? || acts[i].Commit?) ::
              BehindChecks(acts, i, w, arrivals, was, window)
  {
    var acts := Guarded(w, was, window, body, takesDeadline);
    GuardedIsSafe(w, was, window, body, takesDeadline);
    forall i: nat | i < |acts| && (acts[i].Send? || acts[i].Commit?)
      ensures BehindChecks(acts, i, w, arrivals, was, window)
    {
      assert EmissionTrace.Behind(acts, i, w, was, window);
      var j := if Vouched(acts[i - 1], w, was, window) then i - 1 else i - 2;
      VouchedReran(acts[j], w, arrivals, was, window);
    }
  }
}
