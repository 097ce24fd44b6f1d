/** Many databases, each with its own writer, appending and exchanging events
    in any order. */
module EventLogReplicas {
  import opened ByteText
  import opened Digits
  import opened PrefixRange
  import opened EventLog
  import opened EventLogLaws
  import Ingest = EventLogIngest

  /** Each replica's table, by the writer it appends as. */
  type Net = map<Bytes, Table>

  datatype Step =
    | AppendAt(writer: Bytes, draft: Draft)
    | Deliver(to: Bytes, events: seq<Event>)

  /** Some replica holds the event. */
  predicate Sent(net: Net, e: Event) {
    exists w :: w in net && e.key in net[w] && net[w][e.key] == e.row
  }

  /** A delivery carries any events the replicas hold, in any order, with any
      of them left out or repeated. */
  ghost predicate Deliverable(net: Net, to: Bytes, events: seq<Event>) {
    to in net && forall e | e in events :: Sent(net, e)
  }

  ghost function Apply(net: Net, s: Step): Net {
    match s
    case AppendAt(w, d) => if w in net then net[w := Committed(net[w], Append(net[w], w, d))] else net
    case Deliver(to, events) =>
      if Deliverable(net, to, events) then net[to := Committed(net[to], IngestAll(net[to], events))] else net
  }

  function Begin(writers: set<Bytes>): Net {
    map w | w in writers :: map[]
  }

  ghost function Run(net: Net, steps: seq<Step>): Net {
    if steps == [] then net else Apply(Run(net, steps[..|steps| - 1]), steps[|steps| - 1])
  }

  // ---------- What every run keeps ----------

  /** A row is its writer's own: the writer's replica has it too. */
  predicate Owned(net: Net, k: Key, r: Row) {
    k.writer in net && k in net[k.writer] && net[k.writer][k] == r
  }

  predicate AllOwned(net: Net) {
    forall w, k | w in net && k in net[w] :: Owned(net, k, net[w][k])
  }

  predicate Previous(t: Table, k: Key)
    requires k in t
  {
    k.seqNo > 1 ==>
      var p := Key(k.stream, k.writer, k.seqNo - 1);
      p in t && t[p].lamport < t[k].lamport
  }

  /** A writer's own history has no gaps and its stamps climb. */
  predicate Dense(net: Net) {
    forall w, k | w in net && k in net[w] && k.writer == w :: Previous(net[w], k)
  }

  predicate Fits(k: Key, r: Row, n: int) {
    k.stream != [] && k.writer != [] && 1 <= k.seqNo <= n && 1 <= r.lamport <= n
  }

  predicate Stamps(net: Net, n: int) {
    forall w, k | w in net && k in net[w] :: Fits(k, net[w][k], n)
  }

  ghost predicate Inv(net: Net, n: int) {
    AllOwned(net) && Dense(net) && Stamps(net, n) && [] !in net
  }

  /** The last of a writer's own events carries its highest seq. */
  lemma LastOwn(t: Table, stream: Bytes, w: Bytes, n: int)
    requires forall k | k in t :: 1 <= k.seqNo <= n
    requires MaxSeq(t, stream, w) >= 1
    ensures Key(stream, w, MaxSeq(t, stream, w)) in t
  {
    var column := Seqs(t, stream, w);
    var k :| k in column && column[k] == MaxSeq(t, stream, w);
  }

  lemma AppendFollows(t: Table, w: Bytes, d: Draft, n: int)
    requires 0 <= n < MAX_I64 && forall k | k in t :: 1 <= k.seqNo <= n && 1 <= t[k].lamport <= n
    ensures var e := Stamped(t, w, d);
            && 1 <= e.key.seqNo <= n + 1 && 1 <= e.row.lamport <= n + 1 && Insert(t, w, d).Ok?
            && Previous(t[e.key := e.row], e.key)
  {
    var e := Stamped(t, w, d);
    WithinTops(t, n, d.stream, w);
    NeverCollides(t, w, d);
    if e.key.seqNo > 1 {
      LastOwn(t, d.stream, w, n);
      var p := Key(d.stream, w, MaxSeq(t, d.stream, w));
      LamportSeen(t, Event(p, t[p]));
    }
  }

  lemma PreviousStays(t: Table, k: Key, e: Event)
    requires e.key !in t && k in t && Previous(t, k)
    ensures Previous(t[e.key := e.row], k)
  {
  }

  lemma AppendOwned(net: Net, w: Bytes, e: Event)
    requires AllOwned(net) && w in net && e.key.writer == w && e.key !in net[w]
    ensures AllOwned(net[w := net[w][e.key := e.row]])
  {
    var after: Net := net[w := net[w][e.key := e.row]];
    forall x, k: Key | x in after && k in after[x]
      ensures Owned(after, k, after[x][k])
    {
      if x != w || k != e.key {
        assert Owned(net, k, net[x][k]);
      }
    }
  }

  lemma AppendDense(net: Net, w: Bytes, e: Event)
    requires Dense(net) && w in net && e.key.writer == w && e.key !in net[w]
    requires Previous(net[w][e.key := e.row], e.key)
    ensures Dense(net[w := net[w][e.key := e.row]])
  {
    var after: Net := net[w := net[w][e.key := e.row]];
    forall x, k: Key | x in after && k in after[x] && k.writer == x
      ensures Previous(after[x], k)
    {
      if x == w && k != e.key {
        PreviousStays(net[w], k, e);
      }
    }
  }

  lemma AppendStamps(net: Net, w: Bytes, e: Event, n: int)
    requires Stamps(net, n) && w in net && w != [] && e.key.stream != [] && e.key.writer == w
    requires 1 <= e.key.seqNo <= n + 1 && 1 <= e.row.lamport <= n + 1
    ensures Stamps(net[w := net[w][e.key := e.row]], n + 1)
  {
    var after: Net := net[w := net[w][e.key := e.row]];
    forall x, k: Key | x in after && k in after[x]
      ensures Fits(k, after[x][k], n + 1)
    {
      if x != w || k != e.key {
        assert Fits(k, net[x][k], n);
      }
    }
  }

  lemma AppendKeeps(net: Net, w: Bytes, d: Draft, n: int)
    requires Inv(net, n) && 0 <= n < MAX_I64 && w in net && d.stream != [] && d.kind != []
    ensures Inv(Apply(net, AppendAt(w, d)), n + 1)
  {
    var t, e := net[w], Stamped(net[w], w, d);
    assert forall k | k in t :: Fits(k, t[k], n);
    AppendFollows(t, w, d, n);
    AppendOwned(net, w, e);
    AppendDense(net, w, e);
    AppendStamps(net, w, e, n);
    assert Append(t, w, d) == Insert(t, w, d);
    assert Apply(net, AppendAt(w, d)) == net[w := t[e.key := e.row]];
  }

  lemma SentIsOwned(net: Net, e: Event, n: int)
    requires Inv(net, n) && Sent(net, e)
    ensures Owned(net, e.key, e.row) && WellFormed(e) && Fits(e.key, e.row, n)
  {
    var w :| w in net && e.key in net[w] && net[w][e.key] == e.row;
    assert Fits(e.key, net[w][e.key], n);
  }

  lemma DeliveryIsConsistent(net: Net, to: Bytes, events: seq<Event>, n: int)
    requires Inv(net, n) && Deliverable(net, to, events)
    ensures Ingest.Consistent(net[to], events)
  {
    forall e | e in events
      ensures WellFormed(e) && Owned(net, e.key, e.row) && (e.key in net[to] ==> Agrees(net[to][e.key], e.row))
    {
      SentIsOwned(net, e, n);
      assert e.key in net[to] ==> Owned(net, e.key, net[to][e.key]);
    }
  }

  lemma DeliverKeeps(net: Net, to: Bytes, events: seq<Event>, n: int)
    requires Inv(net, n) && Deliverable(net, to, events)
    ensures IngestAll(net[to], events).Ok? && Inv(Apply(net, Deliver(to, events)), n)
  {
    DeliveryIsConsistent(net, to, events, n);
    Ingest.TakenExactlyWhen(net[to], events);
    var u := IngestAll(net[to], events).value;
    forall k | k in u && k !in net[to]
      ensures k.writer != to && Owned(net, k, u[k]) && Fits(k, u[k], n)
    {
      SentIsOwned(net, Event(k, u[k]), n);
    }
    GainsKeep(net, to, u, n);
  }

  lemma GainsKeep(net: Net, to: Bytes, u: Table, n: int)
    requires Inv(net, n) && to in net && forall k | k in net[to] :: k in u && u[k] == net[to][k]
    requires forall k | k in u && k !in net[to] ::
               k.writer != to && Owned(net, k, u[k]) && Fits(k, u[k], n)
    ensures Inv(net[to := u], n)
  {
    var after := net[to := u];
    forall x, k: Key | x in after && k in after[x]
      ensures Owned(after, k, after[x][k])
    {
      if x != to || k in net[to] {
        assert Owned(net, k, net[x][k]);
      } else {
        assert Owned(net, k, u[k]);
      }
    }
    forall x, k: Key | x in after && k in after[x] && k.writer == x
      ensures Previous(after[x], k)
    {
      assert Previous(net[x], k);
    }
  }

  lemma InvGrows(net: Net, n: int)
    requires Inv(net, n)
    ensures Inv(net, n + 1)
  {
  }

  lemma {:induction false} RunKeeps(writers: set<Bytes>, steps: seq<Step>)
    requires [] !in writers && |steps| <= MAX_I64
    ensures Inv(Run(Begin(writers), steps), |steps|)
  {
    if steps != [] {
      var front, s := steps[..|steps| - 1], steps[|steps| - 1];
      RunKeeps(writers, front);
      var net := Run(Begin(writers), front);
      InvGrows(net, |front|);
      match s
      case AppendAt(w, d) =>
        if w in net && d.stream != [] && d.kind != [] {
          AppendKeeps(net, w, d, |front|);
        } else if w in net {
          assert net[w := net[w]] == net;
        }
      case Deliver(to, events) =>
        if Deliverable(net, to, events) {
          DeliverKeeps(net, to, events, |front|);
          InvGrows(Apply(net, s), |front|);
        }
    }
  }

  // ---------- What it is for ----------

  /** Between replicas with writers of their own, no delivery is ever refused:
      ErrDiverged means a writer's identity was shared. */
  lemma NeverDiverges(writers: set<Bytes>, steps: seq<Step>, to: Bytes, events: seq<Event>)
    requires [] !in writers && |steps| <= MAX_I64
    requires Deliverable(Run(Begin(writers), steps), to, events)
    ensures IngestAll(Run(Begin(writers), steps)[to], events).Ok?
  {
    RunKeeps(writers, steps);
    DeliverKeeps(Run(Begin(writers), steps), to, events, |steps|);
  }

  /** Two replicas never disagree about an event, so once they hold the same
      positions they hold one table and read every stream alike. */
  lemma SamePositionsSameLog(writers: set<Bytes>, steps: seq<Step>, a: Bytes, b: Bytes, stream: Bytes)
    requires [] !in writers && |steps| <= MAX_I64
    ensures var net := Run(Begin(writers), steps);
            a in net && b in net ==>
              && (forall k | k in net[a] && k in net[b] :: net[a][k] == net[b][k])
              && (net[a].Keys == net[b].Keys ==> net[a] == net[b] && Events(net[a], stream) == Events(net[b], stream))
  {
    RunKeeps(writers, steps);
    var net := Run(Begin(writers), steps);
    if a in net && b in net {
      forall k | k in net[a] && k in net[b]
        ensures net[a][k] == net[b][k]
      {
        assert Owned(net, k, net[a][k]) && Owned(net, k, net[b][k]);
      }
    }
  }

  /** Down a writer's own history. */
  lemma {:induction false} Climbs(t: Table, k: Key, seqNo: I64)
    requires forall j | j in t && j.writer == k.writer :: Previous(t, j)
    requires k in t && 1 <= seqNo < k.seqNo
    ensures var p := Key(k.stream, k.writer, seqNo); p in t && t[p].lamport < t[k].lamport
    decreases k.seqNo - seqNo
  {
    assert Previous(t, k);
    var p := Key(k.stream, k.writer, k.seqNo - 1);
    if seqNo < p.seqNo {
      Climbs(t, p, seqNo);
    }
  }

  /** A writer's own history, complete and climbing. */
  lemma OwnHistory(t: Table, a: Key, b: Key)
    requires forall j: Key | j in t && j.writer == b.writer :: Previous(t, j)
    requires a in t && b in t && a.stream == b.stream && a.writer == b.writer && 1 <= a.seqNo < b.seqNo
    ensures t[a].lamport < t[b].lamport
    ensures forall n: I64 | 1 <= n <= b.seqNo :: Key(a.stream, a.writer, n) in t
  {
    Climbs(t, b, a.seqNo);
    forall n: I64 | 1 <= n < b.seqNo
      ensures Key(a.stream, a.writer, n) in t
    {
      Climbs(t, b, n);
    }
  }

  lemma InOrderEverywhere(net: Net, n: int, w: Bytes, a: Key, b: Key)
    requires Inv(net, n) && w in net && a in net[w] && b in net[w]
    requires a.stream == b.stream && a.writer == b.writer && a.seqNo < b.seqNo
    ensures Earlier(Event(a, net[w][a]), Event(b, net[w][b]))
    ensures a.writer in net && forall n: I64 | 1 <= n <= b.seqNo :: Key(a.stream, a.writer, n) in net[a.writer]
  {
    assert Owned(net, a, net[w][a]) && Owned(net, b, net[w][b]);
    OwnHistory(net[a.writer], a, b);
  }

  /** On every replica, however its events arrived, each writer's events read
      in seq order; and the writer's own replica misses none of them. */
  lemma WritersInOrder(writers: set<Bytes>, steps: seq<Step>, w: Bytes, a: Key, b: Key)
    requires [] !in writers && |steps| <= MAX_I64
    requires var net := Run(Begin(writers), steps); w in net && a in net[w] && b in net[w]
    requires a.stream == b.stream && a.writer == b.writer && a.seqNo < b.seqNo
    ensures var net := Run(Begin(writers), steps);
            && Earlier(Event(a, net[w][a]), Event(b, net[w][b]))
            && a.writer in net && forall n: I64 | 1 <= n <= b.seqNo :: Key(a.stream, a.writer, n) in net[a.writer]
  {
    RunKeeps(writers, steps);
    InOrderEverywhere(Run(Begin(writers), steps), |steps|, w, a, b);
  }

  // ---------- And they can agree ----------

  /** What is delivered arrives, and nothing that was there goes. */
  lemma DeliveryArrives(writers: set<Bytes>, steps: seq<Step>, to: Bytes, events: seq<Event>)
    requires [] !in writers && |steps| <= MAX_I64
    requires Deliverable(Run(Begin(writers), steps), to, events)
    ensures var net := Run(Begin(writers), steps); var after := Apply(net, Deliver(to, events));
            && after.Keys == net.Keys && (forall w | w in net && w != to :: after[w] == net[w])
            && (forall k | k in net[to] :: k in after[to] && after[to][k] == net[to][k])
            && after[to].Keys == net[to].Keys + Ingest.Keys(events)
  {
    NeverDiverges(writers, steps, to, events);
    var net := Run(Begin(writers), steps);
    Ingest.TakenExactlyWhen(net[to], events);
    var u := IngestAll(net[to], events).value;
    forall k
      ensures k in u <==> k in net[to] || k in Ingest.Keys(events)
    {
      if k in u && k !in net[to] {
        assert Event(k, u[k]).key in Ingest.Keys(events);
      }
    }
  }

  /** Everything a table holds, in some order. */
  lemma {:induction false} Everything(t: Table) returns (xs: seq<Event>)
    ensures forall e :: e in xs <==> e.key in t && t[e.key] == e.row
    decreases |t.Keys|
  {
    if t.Keys == {} {
      xs := [];
    } else {
      var k :| k in t.Keys;
      var rest := t - {k};
      assert rest.Keys == t.Keys - {k};
      var ys := Everything(rest);
      xs := ys + [Event(k, t[k])];
    }
  }

  lemma EverythingKeys(t: Table, xs: seq<Event>)
    requires forall e :: e in xs <==> e.key in t && t[e.key] == e.row
    ensures Ingest.Keys(xs) == t.Keys
  {
    forall k
      ensures k in Ingest.Keys(xs) <==> k in t
    {
      if k in t {
        assert Event(k, t[k]) in xs;
      }
    }
  }

  lemma AllDeliverable(net: Net, a: Bytes, to: Bytes, xs: seq<Event>)
    requires a in net && to in net && forall e :: e in xs <==> e.key in net[a] && net[a][e.key] == e.row
    ensures Deliverable(net, to, xs)
  {
    forall e | e in xs
      ensures Sent(net, e)
    {
      assert e.key in net[a] && net[a][e.key] == e.row;
    }
  }

  lemma RunMore(net: Net, steps: seq<Step>, s: Step)
    ensures Run(net, steps + [s]) == Apply(Run(net, steps), s)
  {
    assert (steps + [s])[..|steps|] == steps;
  }

  /** Whatever has happened, two replicas that send each other what they have
      hold one log. */
  lemma CanConverge(writers: set<Bytes>, steps: seq<Step>, a: Bytes, b: Bytes) returns (more: seq<Step>)
    requires [] !in writers && |steps| + 2 <= MAX_I64
    requires a in Run(Begin(writers), steps) && b in Run(Begin(writers), steps)
    ensures var net := Run(Begin(writers), steps + more); a in net && b in net && net[a] == net[b]
  {
    var start, net := Begin(writers), Run(Begin(writers), steps);
    var there := Everything(net[a]);
    AllDeliverable(net, a, b, there);
    DeliveryArrives(writers, steps, b, there);
    EverythingKeys(net[a], there);
    RunMore(start, steps, Deliver(b, there));
    var once := steps + [Deliver(b, there)];
    var mid := Run(start, once);
    var back := Everything(mid[b]);
    AllDeliverable(mid, b, a, back);
    DeliveryArrives(writers, once, a, back);
    EverythingKeys(mid[b], back);
    RunMore(start, once, Deliver(a, back));
    more := [Deliver(b, there), Deliver(a, back)];
    assert steps + more == once + [Deliver(a, back)];
    SamePositionsSameLog(writers, steps + more, a, b, []);
  }
}
