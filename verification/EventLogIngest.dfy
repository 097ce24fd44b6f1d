/** Ingest: what a batch does to a table, and why logs that have met the same
    events read alike. */
module EventLogIngest {
  import opened ByteText
  import opened Digits
  import opened PrefixRange
  import opened EventLog
  import opened EventLogLaws

  // ---------- When a batch is taken ----------

  /** Nothing in the batch contradicts the table or the rest of the batch. */
  ghost predicate Consistent(t: Table, events: seq<Event>) {
    && (forall e | e in events ::
          && e.key.stream != [] && e.key.writer != [] && e.key.seqNo >= 1
          && (e.key in t ==> Agrees(t[e.key], e.row)))
    && forall a, b | a in events && b in events && a.key == b.key :: Agrees(a.row, b.row)
  }

  /** Every row the table gains is some event's. */
  ghost predicate Gained(t: Table, events: seq<Event>, u: Table) {
    && (forall k | k in t :: k in u && u[k] == t[k])
    && (forall e | e in events :: e.key in u && Agrees(u[e.key], e.row))
    && forall k | k in u && k !in t :: Event(k, u[k]) in events
  }

  lemma OneMoreEvent(t: Table, front: seq<Event>, u: Table, e: Event)
    requires Gained(t, front, u) && IngestOne(u, e).Ok?
    ensures Gained(t, front + [e], IngestOne(u, e).value)
  {
  }

  lemma LastOne(events: seq<Event>)
    requires events != []
    ensures events == events[..|events| - 1] + [events[|events| - 1]]
    ensures forall e | e in events[..|events| - 1] :: e in events
  {
  }

  lemma {:induction false} BatchGains(t: Table, events: seq<Event>)
    requires IngestAll(t, events).Ok?
    ensures Gained(t, events, IngestAll(t, events).value)
  {
    if events != [] {
      var front, e := events[..|events| - 1], events[|events| - 1];
      BatchGains(t, front);
      LastOne(events);
      OneMoreEvent(t, front, IngestAll(t, front).value, e);
    }
  }

  lemma {:induction false} BatchWellFormed(t: Table, events: seq<Event>)
    requires IngestAll(t, events).Ok?
    ensures forall e | e in events :: WellFormed(e)
  {
    if events != [] {
      BatchWellFormed(t, events[..|events| - 1]);
      LastOne(events);
    }
  }

  lemma {:induction false} ConsistentIsTaken(t: Table, events: seq<Event>)
    requires Consistent(t, events)
    ensures IngestAll(t, events).Ok?
  {
    if events != [] {
      var front, e := events[..|events| - 1], events[|events| - 1];
      LastOne(events);
      ConsistentIsTaken(t, front);
      BatchGains(t, front);
      var u := IngestAll(t, front).value;
      assert e in events;
      if e.key in u && e.key !in t {
        assert Event(e.key, u[e.key]) in front;
      }
    }
  }

  /** A batch is taken exactly when nothing in it is malformed or contradicts
      the table or itself in lamport, ts, kind or payload; otherwise Ingest
      leaves the table as it was. */
  lemma TakenExactlyWhen(t: Table, events: seq<Event>)
    ensures IngestAll(t, events).Ok? <==> Consistent(t, events)
    ensures IngestAll(t, events).Ok? ==> Gained(t, events, IngestAll(t, events).value)
    ensures !Consistent(t, events) ==> Committed(t, IngestAll(t, events)) == t
  {
    if IngestAll(t, events).Ok? {
      BatchGains(t, events);
      BatchWellFormed(t, events);
    }
    if Consistent(t, events) {
      ConsistentIsTaken(t, events);
    }
  }

  // ---------- Convergence ----------

  /** t holds nothing but what truth holds. */
  predicate Within(t: Table, truth: Table) {
    forall k | k in t :: k in truth && t[k] == truth[k]
  }

  /** Each event is well formed and as truth has it: in the four compared
      fields where t already has a row, wholly where it has none. */
  predicate Honest(t: Table, events: seq<Event>, truth: Table) {
    forall e | e in events ::
      WellFormed(e) && e.key in truth && Agrees(truth[e.key], e.row) && (e.key in t || truth[e.key] == e.row)
  }

  function Keys(events: seq<Event>): set<Key> {
    set e | e in events :: e.key
  }

  /** What truth says at some positions. */
  function Restricted(truth: Table, keys: set<Key>): Table {
    map k | k in truth && k in keys :: truth[k]
  }

  lemma HonestIsConsistent(t: Table, events: seq<Event>, truth: Table)
    requires Within(t, truth) && Honest(t, events, truth)
    ensures Consistent(t, events)
  {
  }

  lemma GainedIsRestricted(t: Table, events: seq<Event>, u: Table, truth: Table)
    requires Within(t, truth) && Honest(t, events, truth) && Gained(t, events, u)
    ensures u == Restricted(truth, t.Keys + Keys(events))
  {
    var keys := t.Keys + Keys(events);
    forall k
      ensures k in u <==> k in truth && k in keys
      ensures k in u ==> u[k] == truth[k]
    {
      if k in u && k !in t {
        assert Event(k, u[k]) in events && Event(k, u[k]).key in Keys(events);
      }
    }
  }

  lemma HonestBatch(t: Table, events: seq<Event>, truth: Table)
    requires Within(t, truth) && Honest(t, events, truth)
    ensures IngestAll(t, events) == Ok(Restricted(truth, t.Keys + Keys(events)))
  {
    HonestIsConsistent(t, events, truth);
    TakenExactlyWhen(t, events);
    GainedIsRestricted(t, events, IngestAll(t, events).value, truth);
  }

  /** Batches one after another, each its own transaction. */
  function IngestBatches(t: Table, batches: seq<seq<Event>>): Table {
    if batches == [] then t
    else
      var u := IngestBatches(t, batches[..|batches| - 1]);
      Committed(u, IngestAll(u, batches[|batches| - 1]))
  }

  function AllEvents(batches: seq<seq<Event>>): set<Event> {
    set b, e | b in batches && e in b :: e
  }

  function AllKeys(batches: seq<seq<Event>>): set<Key> {
    set e | e in AllEvents(batches) :: e.key
  }

  lemma LastBatch(batches: seq<seq<Event>>)
    requires batches != []
    ensures var front, last := batches[..|batches| - 1], batches[|batches| - 1];
            last in batches && (forall b | b in front :: b in batches) && AllKeys(batches) == AllKeys(front) + Keys(last)
  {
    var front, last := batches[..|batches| - 1], batches[|batches| - 1];
    assert batches == front + [last];
    forall k
      ensures k in AllKeys(batches) <==> k in AllKeys(front) || k in Keys(last)
    {
      if k in AllKeys(batches) {
        var e :| e in AllEvents(batches) && e.key == k;
        assert e in AllEvents(front) || e in last;
      }
    }
  }

  predicate AllHonest(t: Table, batches: seq<seq<Event>>, truth: Table) {
    forall b | b in batches :: Honest(t, b, truth)
  }

  lemma {:induction false} HonestBatches(t: Table, batches: seq<seq<Event>>, truth: Table)
    requires Within(t, truth) && AllHonest(t, batches, truth)
    ensures IngestBatches(t, batches) == Restricted(truth, t.Keys + AllKeys(batches))
  {
    if batches == [] {
      assert t == Restricted(truth, t.Keys + AllKeys(batches));
    } else {
      var front, last := batches[..|batches| - 1], batches[|batches| - 1];
      LastBatch(batches);
      HonestBatches(t, front, truth);
      var u := IngestBatches(t, front);
      assert Within(u, truth) && Honest(u, last, truth);
      HonestBatch(u, last, truth);
      assert Restricted(truth, u.Keys + Keys(last)) == Restricted(truth, t.Keys + AllKeys(batches));
    }
  }

  /** Replicas converge: whatever each began with, and in whatever order,
      batches and repetition the events came, two logs that between beginning
      and batches have met the same positions hold the same table. So they
      read every stream alike and derive the same state. */
  lemma ReplicasConverge(truth: Table, t1: Table, b1: seq<seq<Event>>, t2: Table, b2: seq<seq<Event>>, stream: Bytes)
    requires Within(t1, truth) && Within(t2, truth) && AllHonest(t1, b1, truth) && AllHonest(t2, b2, truth)
    requires t1.Keys + AllKeys(b1) == t2.Keys + AllKeys(b2)
    ensures IngestBatches(t1, b1) == IngestBatches(t2, b2)
    ensures Events(IngestBatches(t1, b1), stream) == Events(IngestBatches(t2, b2), stream)
  {
    HonestBatches(t1, b1, truth);
    HonestBatches(t2, b2, truth);
  }

  /** A batch met again changes nothing. */
  lemma IngestIsIdempotent(t: Table, events: seq<Event>)
    requires IngestAll(t, events).Ok?
    ensures IngestAll(IngestAll(t, events).value, events) == IngestAll(t, events)
  {
    var u := IngestAll(t, events).value;
    TakenExactlyWhen(t, events);
    TakenExactlyWhen(u, events);
    var v := IngestAll(u, events).value;
    assert forall k | k in v && k !in u :: Event(k, v[k]).key in u;
    assert v == u;
  }

  // ---------- Agreement that leaves the actor out ----------

  /** Two events that differ in the actor alone are taken in either order,
      and the table keeps whichever came first: Ingest does not compare
      actors, so here two logs do not converge. */
  lemma ActorsMayDiffer(a: Event, b: Event)
    requires WellFormed(a) && a.key == b.key && Agrees(a.row, b.row) && a.row.actor != b.row.actor
    ensures IngestAll(map[], [a, b]).Ok? && IngestAll(map[], [b, a]).Ok?
    ensures IngestAll(map[], [a, b]).value[a.key] == a.row && IngestAll(map[], [b, a]).value[a.key] == b.row
    ensures IngestAll(map[], [a, b]) != IngestAll(map[], [b, a])
  {
    FirstComeStays(map[], [a, b]);
    FirstComeStays(map[], [b, a]);
  }

  /** The first of a batch at a new position is the one kept there. */
  lemma {:induction false} FirstComeStays(t: Table, events: seq<Event>)
    requires Consistent(t, events) && events != [] && events[0].key !in t
    ensures var r := IngestAll(t, events); r.Ok? && events[0].key in r.value && r.value[events[0].key] == events[0].row
  {
    TakenExactlyWhen(t, events);
    if |events| == 1 {
      assert events[..0] == [] && IngestAll(t, []) == Ok(t);
    } else {
      LastOne(events);
      FirstComeStays(t, events[..|events| - 1]);
    }
  }

  /** At each position the table does not hold yet, the events name one
      actor. */
  ghost predicate OneActor(t: Table, events: seq<Event>) {
    forall a, b | a in events && b in events && a.key == b.key && a.key !in t :: a.row.actor == b.row.actor
  }

  /** In any order, the events make one table. */
  ghost predicate AnyOrder(t: Table, events: seq<Event>) {
    forall p | multiset(p) == multiset(events) :: IngestAll(t, p) == IngestAll(t, events)
  }

  /** In any order, batches and repetition, they do. */
  ghost predicate AnyBatching(t: Table, events: seq<Event>) {
    forall b | AllEvents(b) == AllEvents([events]) :: Ok(IngestBatches(t, b)) == IngestAll(t, events)
  }

  /** The events with one of them moved to the front. */
  lemma BroughtForward(events: seq<Event>, e: Event) returns (p: seq<Event>)
    requires e in events
    ensures multiset(p) == multiset(events) && p != [] && p[0] == e
  {
    var i :| 0 <= i < |events| && events[i] == e;
    p := [e] + (events[..i] + events[i + 1..]);
    assert events == events[..i] + ([e] + events[i + 1..]);
  }

  lemma SameMembers(t: Table, p: seq<Event>, events: seq<Event>)
    requires Consistent(t, events) && multiset(p) == multiset(events)
    ensures Consistent(t, p)
  {
    forall e
      ensures e in p <==> e in events
    {
      assert e in multiset(p) <==> e in multiset(events);
    }
  }

  lemma OrderMatters(t: Table, events: seq<Event>, a: Event, b: Event)
    requires Consistent(t, events) && a in events && b in events
    requires a.key == b.key && a.key !in t && a.row.actor != b.row.actor
    ensures !AnyOrder(t, events)
  {
    var p := BroughtForward(events, a);
    var q := BroughtForward(events, b);
    SameMembers(t, p, events);
    SameMembers(t, q, events);
    FirstComeStays(t, p);
    FirstComeStays(t, q);
    assert IngestAll(t, p) != IngestAll(t, q);
  }

  lemma BatchingNotMatters(t: Table, events: seq<Event>, b: seq<seq<Event>>)
    requires Consistent(t, events) && OneActor(t, events) && AllEvents(b) == AllEvents([events])
    ensures Ok(IngestBatches(t, b)) == IngestAll(t, events)
  {
    TakenExactlyWhen(t, events);
    var truth := IngestAll(t, events).value;
    assert Honest(t, events, truth);
    assert forall x | x in b :: forall e | e in x :: e in AllEvents(b);
    assert AllEvents([events]) == set e | e in events;
    HonestBatches(t, b, truth);
    HonestBatch(t, events, truth);
    assert AllKeys(b) == AllKeys([events]) == Keys(events);
  }

  lemma OneBatch(t: Table, events: seq<Event>, p: seq<Event>)
    requires multiset(p) == multiset(events) && Consistent(t, events)
    ensures AllEvents([p]) == AllEvents([events]) && Ok(IngestBatches(t, [p])) == IngestAll(t, p)
  {
    SameMembers(t, p, events);
    TakenExactlyWhen(t, p);
    assert [p][..0] == [] && IngestBatches(t, []) == t;
    forall e
      ensures e in AllEvents([p]) <==> e in AllEvents([events])
    {
      assert e in multiset(p) <==> e in multiset(events);
      assert e in AllEvents([p]) <==> e in p;
      assert e in AllEvents([events]) <==> e in events;
    }
  }

  /** Events Ingest finds no fault with make one table in every order, and in
      every batching and repetition, exactly when those at one new position
      name one actor. */
  lemma ConvergesExactlyWhen(t: Table, events: seq<Event>)
    requires Consistent(t, events)
    ensures AnyOrder(t, events) <==> OneActor(t, events)
    ensures AnyBatching(t, events) <==> OneActor(t, events)
  {
    if !OneActor(t, events) {
      var a, b :| a in events && b in events && a.key == b.key && a.key !in t && a.row.actor != b.row.actor;
      OrderMatters(t, events, a, b);
    } else {
      forall b | AllEvents(b) == AllEvents([events])
        ensures Ok(IngestBatches(t, b)) == IngestAll(t, events)
      {
        BatchingNotMatters(t, events, b);
      }
    }
    if AnyBatching(t, events) {
      forall p | multiset(p) == multiset(events)
        ensures IngestAll(t, p) == IngestAll(t, events)
      {
        OneBatch(t, events, p);
      }
    }
  }

  /** Two tables with the same positions and the same rows but for actors. */
  predicate SameButActors(t1: Table, t2: Table) {
    t1.Keys == t2.Keys && forall k | k in t1 :: Agrees(t1[k], t2[k])
  }

  function Moved(t: Table, e: Event): Event
    requires e.key in t
  {
    Event(e.key, t[e.key])
  }

  function MovedAll(t: Table, xs: seq<Event>): (r: seq<Event>)
    requires forall e | e in xs :: e.key in t
    ensures |r| == |xs| && forall i | 0 <= i < |xs| :: r[i] == Moved(t, xs[i])
  {
    seq(|xs|, i requires 0 <= i < |xs| => Moved(t, xs[i]))
  }

  /** Such logs still read every stream in the same order, event for event,
      with the same kinds and payloads: only the actors may differ. */
  lemma ReadAlikeButActors(t1: Table, t2: Table, stream: Bytes)
    requires SameButActors(t1, t2)
    ensures var xs, ys := Events(t1, stream), Events(t2, stream);
            |xs| == |ys| && forall i | 0 <= i < |xs| :: xs[i].key == ys[i].key && Agrees(xs[i].row, ys[i].row)
  {
    var xs := Events(t1, stream);
    OrderedIsOrdered(StreamEvents(t1, stream), stream);
    var ys := MovedAll(t2, xs);
    MovedInOrder(t1, t2, stream, xs);
    MovedIsAll(t1, t2, stream, xs);
    OrderedIsUnique(ys, StreamEvents(t2, stream), stream);
    forall i | 0 <= i < |xs|
      ensures xs[i].key == ys[i].key && Agrees(xs[i].row, ys[i].row)
    {
      assert xs[i] in xs;
    }
  }

  lemma MovedInOrder(t1: Table, t2: Table, stream: Bytes, xs: seq<Event>)
    requires SameButActors(t1, t2) && InOrder(xs)
    requires forall e | e in xs :: e.key in t2 && e in StreamEvents(t1, stream)
    ensures InOrder(MovedAll(t2, xs))
  {
    var ys := MovedAll(t2, xs);
    forall i, j | 0 <= i < j < |ys|
      ensures Earlier(ys[i], ys[j])
    {
      assert xs[i] in xs && xs[j] in xs && Earlier(xs[i], xs[j]);
    }
  }

  lemma MovedIsAll(t1: Table, t2: Table, stream: Bytes, xs: seq<Event>)
    requires SameButActors(t1, t2) && (forall e | e in xs :: e.key in t2)
    requires forall e :: e in xs <==> e in StreamEvents(t1, stream)
    ensures forall e :: e in MovedAll(t2, xs) <==> e in StreamEvents(t2, stream)
  {
    var ys := MovedAll(t2, xs);
    forall e
      ensures e in ys <==> e in StreamEvents(t2, stream)
    {
      if e in ys {
        var i :| 0 <= i < |ys| && ys[i] == e;
        assert xs[i] in xs;
      }
      if e in StreamEvents(t2, stream) {
        var was := Event(e.key, t1[e.key]);
        assert was in xs;
        var i :| 0 <= i < |xs| && xs[i] == was;
        assert ys[i] == e;
      }
    }
  }

  // ---------- What agreement in four fields is enough for ----------

  /** Whatever t holds agrees with truth in the compared fields. */
  predicate AgreesWithin(t: Table, truth: Table) {
    forall k | k in t :: k in truth && Agrees(t[k], truth[k])
  }

  predicate Agreeing(events: seq<Event>, truth: Table) {
    forall e | e in events :: WellFormed(e) && e.key in truth && Agrees(e.row, truth[e.key])
  }

  predicate AllAgreeing(batches: seq<seq<Event>>, truth: Table) {
    forall b | b in batches :: Agreeing(b, truth)
  }

  lemma AgreeingBatch(t: Table, events: seq<Event>, truth: Table)
    requires AgreesWithin(t, truth) && Agreeing(events, truth)
    ensures IngestAll(t, events).Ok?
    ensures var u := IngestAll(t, events).value; AgreesWithin(u, truth) && u.Keys == t.Keys + Keys(events)
  {
    assert Consistent(t, events);
    TakenExactlyWhen(t, events);
    var u := IngestAll(t, events).value;
    forall k
      ensures k in u <==> k in t || k in Keys(events)
    {
      if k in u && k !in t {
        assert Event(k, u[k]).key in Keys(events);
      }
    }
  }

  lemma {:induction false} AgreeingBatches(t: Table, batches: seq<seq<Event>>, truth: Table)
    requires AgreesWithin(t, truth) && AllAgreeing(batches, truth)
    ensures var u := IngestBatches(t, batches); AgreesWithin(u, truth) && u.Keys == t.Keys + AllKeys(batches)
  {
    if batches == [] {
      assert AllKeys(batches) == {};
    } else {
      var front := batches[..|batches| - 1];
      LastBatch(batches);
      AgreeingBatches(t, front, truth);
      AgreeingBatch(IngestBatches(t, front), batches[|batches| - 1], truth);
    }
  }

  /** Where events agree in what Ingest compares and no more, logs that have
      met the same positions still hold the same positions, and read every
      stream in one order, event for event, the same but for actors. */
  lemma ConvergeButActors(truth: Table, t1: Table, b1: seq<seq<Event>>, t2: Table, b2: seq<seq<Event>>, stream: Bytes)
    requires AgreesWithin(t1, truth) && AgreesWithin(t2, truth) && AllAgreeing(b1, truth) && AllAgreeing(b2, truth)
    requires t1.Keys + AllKeys(b1) == t2.Keys + AllKeys(b2)
    ensures SameButActors(IngestBatches(t1, b1), IngestBatches(t2, b2))
    ensures var xs, ys := Events(IngestBatches(t1, b1), stream), Events(IngestBatches(t2, b2), stream);
            |xs| == |ys| && forall i | 0 <= i < |xs| :: xs[i].key == ys[i].key && Agrees(xs[i].row, ys[i].row)
  {
    AgreeingBatches(t1, b1, truth);
    AgreeingBatches(t2, b2, truth);
    ReadAlikeButActors(IngestBatches(t1, b1), IngestBatches(t2, b2), stream);
  }
}
