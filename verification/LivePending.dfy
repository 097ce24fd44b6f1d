/** What NotifyAt keeps of the times it is asked for: pairs told apart by a
    key, and a bound past which the latest go (live/schedule.go). */
module LivePending {
  import opened Digits

  /** A pair waiting. The time is in nanoseconds from 1970, of any size: the
      heap compares times as they are. */
  datatype Pending = Pending(at: int, topic: string)

  /** What the set of pairs knows of one. */
  datatype PendingKey = PendingKey(unixNano: I64, topic: string)

  const SPAN: int := 0x1_0000_0000_0000_0000

  /** UnixNano: the nanoseconds as an int64, which wraps before 1678 and
      after 2262. */
  function UnixNano(at: int): I64 {
    (at - MIN_I64) % SPAN + MIN_I64
  }

  function KeyOf(p: Pending): PendingKey {
    PendingKey(UnixNano(p.at), p.topic)
  }

  // ---------- Keys ----------

  function KeysOf(s: set<Pending>): set<PendingKey> {
    set p | p in s :: KeyOf(p)
  }

  /** No two pairs have one key. */
  ghost predicate KeysApart(s: set<Pending>) {
    forall p, x | p in s && x in s && KeyOf(p) == KeyOf(x) :: p == x
  }

  lemma KeysMore(s: set<Pending>, p: Pending)
    requires KeysApart(s) && KeyOf(p) !in KeysOf(s)
    ensures KeysApart(s + {p}) && KeysOf(s + {p}) == KeysOf(s) + {KeyOf(p)} && p !in s
  {
  }

  lemma KeysLess(s: set<Pending>, d: Pending)
    requires KeysApart(s) && d in s
    ensures KeysApart(s - {d}) && KeysOf(s - {d}) == KeysOf(s) - {KeyOf(d)}
  {
  }

  // ---------- One pair ----------

  /** What adding one pair to a bounded schedule promises: past the bound, one
      latest-due pair is dropped, the new one or one already waiting. */
  ghost predicate Adds(kept: set<Pending>, p: Pending, max: nat, after: set<Pending>, ok: bool) {
    if p in kept || |kept| < max then ok && after == kept + {p}
    else DropsLatest(kept, p, after) && !ok
  }

  ghost predicate DropsLatest(kept: set<Pending>, p: Pending, after: set<Pending>) {
    exists d :: d in kept + {p} && after == kept + {p} - {d} && forall x | x in after :: x.at <= d.at
  }

  /** What it does: a pair whose key waits already is taken to be there. */
  ghost predicate AddsByKey(kept: set<Pending>, p: Pending, max: nat, after: set<Pending>, ok: bool) {
    if KeyOf(p) in KeysOf(kept) then ok && after == kept else Adds(kept, p, max, after, ok)
  }

  /** No pair of another time has p's key. */
  ghost predicate Clear(kept: set<Pending>, p: Pending) {
    forall x | x in kept && KeyOf(x) == KeyOf(p) :: x == p
  }

  /** The schedule does as it promises exactly when no pair of another time
      has the new pair's key. */
  lemma AddsExactlyWhenClear(kept: set<Pending>, p: Pending, max: nat, after: set<Pending>, ok: bool)
    requires KeysApart(kept) && AddsByKey(kept, p, max, after, ok)
    ensures Adds(kept, p, max, after, ok) <==> Clear(kept, p)
  {
    if p in kept {
      assert KeyOf(p) in KeysOf(kept);
    } else if KeyOf(p) in KeysOf(kept) {
      var x :| x in kept && KeyOf(x) == KeyOf(p);
      assert !Clear(kept, p);
      assert p !in after;
    }
  }

  lemma ClearAdds(kept: set<Pending>, p: Pending, max: nat, after: set<Pending>, ok: bool)
    requires Clear(kept, p) && AddsByKey(kept, p, max, after, ok)
    ensures Adds(kept, p, max, after, ok)
  {
    if KeyOf(p) in KeysOf(kept) {
      var x :| x in kept && KeyOf(x) == KeyOf(p);
      assert kept + {p} == kept;
    }
  }

  /** An int64 of nanoseconds holds the time. */
  predicate Representable(p: Pending) {
    MIN_I64 <= p.at <= MAX_I64
  }

  /** So it does while every time can be held in an int64 of nanoseconds. */
  lemma RepresentableIsClear(kept: set<Pending>, p: Pending)
    requires Representable(p) && forall x | x in kept :: Representable(x)
    ensures Clear(kept, p)
  {
    forall x | x in kept && KeyOf(x) == KeyOf(p)
      ensures x == p
    {
      KeyIsPair(x);
      KeyIsPair(p);
    }
  }

  lemma KeyIsPair(p: Pending)
    requires Representable(p)
    ensures KeyOf(p) == PendingKey(p.at, p.topic)
  {
  }

  /** kept is a soonest part of everything asked for, as large as the bound
      allows. */
  ghost predicate Soonest(asked: set<Pending>, kept: set<Pending>, max: nat) {
    && kept <= asked && |kept| <= max && (kept == asked || |kept| == max)
    && forall d, x | d in asked - kept && x in kept :: x.at <= d.at
  }

  /** Whatever a full schedule drops, over any number of additions, is no
      earlier than everything it keeps. */
  lemma AddKeepsSoonest(asked: set<Pending>, kept: set<Pending>, p: Pending, max: nat, after: set<Pending>, ok: bool)
    requires Soonest(asked, kept, max) && Adds(kept, p, max, after, ok)
    ensures Soonest(asked + {p}, after, max)
  {
    if p in kept {
      assert after == kept && asked + {p} == asked;
    } else if |kept| < max {
      assert kept == asked;
    } else {
      var d :| d in kept + {p} && after == kept + {p} - {d} && forall x | x in after :: x.at <= d.at;
      assert |kept + {p}| == max + 1;
      assert |after| == max;
      assert d in kept || after == kept;
      forall e, x | e in asked + {p} - after && x in after
        ensures x.at <= e.at
      {
        if e != d {
          assert e in asked - kept;
          if x == p && max > 0 {
            assert d in kept;
          }
        }
      }
    }
  }

  /** A time an int64's span further off hides a sooner one: the sooner pair
      is taken to be there and lost, with room to spare. */
  lemma FarTimeHidesSooner(at: int, topic: string, max: nat)
    requires max >= 2
    ensures var far, p := Pending(at + SPAN, topic), Pending(at, topic);
            && (forall after, ok :: AddsByKey({far}, p, max, after, ok) <==> after == {far} && ok)
            && !Soonest({far, p}, {far}, max)
  {
    var far, p := Pending(at + SPAN, topic), Pending(at, topic);
    assert UnixNano(at + SPAN) == UnixNano(at);
    assert far in {far} && KeyOf(far) == KeyOf(p);
    assert KeyOf(p) in KeysOf({far});
    assert p in {far, p} && p !in {far};
  }

  // ---------- Several topics at one time ----------

  function AllAt(at: int, topics: seq<string>): set<Pending> {
    set t | t in topics :: Pending(at, t)
  }

  lemma AllAtMore(asked: set<Pending>, at: int, topics: seq<string>, t: string)
    ensures asked + AllAt(at, topics) + {Pending(at, t)} == asked + AllAt(at, topics + [t])
  {
    var more := topics + [t];
    assert more[|topics|] == t;
    assert forall u :: u in more <==> u in topics || u == t;
  }

  lemma AllAtStep(asked: set<Pending>, at: int, topics: seq<string>, i: nat)
    requires i < |topics|
    ensures asked + AllAt(at, topics[..i]) + {Pending(at, topics[i])} == asked + AllAt(at, topics[..i + 1])
  {
    AllAtMore(asked, at, topics[..i], topics[i]);
    assert topics[..i + 1] == topics[..i] + [topics[i]];
  }

  ghost predicate AddsOne(kept: set<Pending>, p: Pending, max: nat, after: set<Pending>) {
    AddsByKey(kept, p, max, after, true) || AddsByKey(kept, p, max, after, false)
  }

  /** The topics added one after another, and what waited after each. */
  ghost predicate Additions(trace: seq<set<Pending>>, at: int, topics: seq<string>, max: nat) {
    |trace| == |topics| + 1 && forall i | 0 <= i < |topics| :: AddsOne(trace[i], Pending(at, topics[i]), max, trace[i + 1])
  }

  ghost predicate AddsEach(kept: set<Pending>, at: int, topics: seq<string>, max: nat, after: set<Pending>) {
    exists trace: seq<set<Pending>> :: Additions(trace, at, topics, max) && trace[0] == kept && trace[|topics|] == after
  }

  lemma AdditionsStep(trace: seq<set<Pending>>, at: int, topics: seq<string>, i: nat, max: nat, after: set<Pending>)
    requires i < |topics| && Additions(trace, at, topics[..i], max)
    requires AddsOne(trace[i], Pending(at, topics[i]), max, after)
    ensures Additions(trace + [after], at, topics[..i + 1], max)
  {
    var more, longer := topics[..i + 1], trace + [after];
    forall k | 0 <= k < |more|
      ensures AddsOne(longer[k], Pending(at, more[k]), max, longer[k + 1])
    {
      if k < i {
        assert AddsOne(trace[k], Pending(at, topics[..i][k]), max, trace[k + 1]);
      }
    }
  }

  /** No pair waiting has the key of one to come at another time. */
  ghost predicate AllClear(kept: set<Pending>, at: int, topics: seq<string>) {
    forall x | x in kept && x.topic in topics && UnixNano(x.at) == UnixNano(at) :: x.at == at
  }

  lemma AddStaysClear(kept: set<Pending>, p: Pending, max: nat, after: set<Pending>, topics: seq<string>)
    requires AllClear(kept, p.at, topics) && AddsOne(kept, p, max, after)
    ensures AllClear(after, p.at, topics)
  {
    assert after <= kept + {p};
  }

  lemma AddKeepsClearSoonest(asked: set<Pending>, kept: set<Pending>, p: Pending, max: nat, after: set<Pending>,
                             topics: seq<string>)
    requires Soonest(asked, kept, max) && AllClear(kept, p.at, topics) && p.topic in topics && AddsOne(kept, p, max, after)
    ensures Soonest(asked + {p}, after, max)
  {
    assert Clear(kept, p);
    var ok := AddsByKey(kept, p, max, after, true);
    ClearAdds(kept, p, max, after, ok);
    AddKeepsSoonest(asked, kept, p, max, after, ok);
  }

  /** However many topics come at one time, what stays is soonest, where that
      time is clear. */
  lemma {:induction false} AddsEachKeepsSoonest(asked: set<Pending>, trace: seq<set<Pending>>, at: int,
                                                topics: seq<string>, max: nat, i: nat)
    requires Additions(trace, at, topics, max) && i <= |topics|
    requires Soonest(asked, trace[0], max) && AllClear(trace[0], at, topics)
    ensures Soonest(asked + AllAt(at, topics[..i]), trace[i], max) && AllClear(trace[i], at, topics)
  {
    if i == 0 {
      assert asked + AllAt(at, topics[..0]) == asked;
    } else {
      AddsEachKeepsSoonest(asked, trace, at, topics, max, i - 1);
      var p := Pending(at, topics[i - 1]);
      assert AddsOne(trace[i - 1], p, max, trace[i - 1 + 1]);
      AddKeepsClearSoonest(asked + AllAt(at, topics[..i - 1]), trace[i - 1], p, max, trace[i], topics);
      AddStaysClear(trace[i - 1], p, max, trace[i], topics);
      AllAtStep(asked, at, topics, i - 1);
    }
  }
}
