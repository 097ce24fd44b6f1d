/** Many single-writer streams of immutable events in one table, read back in
    one total order (eventlog/eventlog.go). */
module EventLog {
  import opened ByteText
  import opened Digits
  import opened PrefixRange

  // ---------- Data ----------

  /** A row's primary key. */
  datatype Key = Key(stream: Bytes, writer: Bytes, seqNo: I64)

  /** The rest of a row. Timestamps are kept, and ordered, as text. */
  datatype Row = Row(lamport: I64, ts: Bytes, actor: Bytes, kind: Bytes, payload: Bytes)

  datatype Event = Event(key: Key, row: Row)

  type Table = map<Key, Row>

  /** What an append is given; its stamps come from the table. */
  datatype Draft = Draft(stream: Bytes, ts: Bytes, actor: Bytes, kind: Bytes, payload: Bytes)

  datatype Error = EmptyName | KeyExists | Refused | Malformed | Diverged | NotUnder

  datatype Result<+T> = Ok(value: T) | Err(error: Error)

  // ---------- The order ----------

  /** The merge order: lamport, then ts as text, then writer, then seq. */
  predicate Earlier(a: Event, b: Event) {
    || a.row.lamport < b.row.lamport
    || (a.row.lamport == b.row.lamport
        && (|| Before(a.row.ts, b.row.ts)
            || (a.row.ts == b.row.ts
                && (|| Before(a.key.writer, b.key.writer)
                    || (a.key.writer == b.key.writer && a.key.seqNo < b.key.seqNo)))))
  }

  lemma EarlierIsStrict(a: Event)
    ensures !Earlier(a, a)
  {
    BeforeIsStrict(a.row.ts);
    BeforeIsStrict(a.key.writer);
  }

  lemma EarlierIsTransitive(a: Event, b: Event, c: Event)
    requires Earlier(a, b) && Earlier(b, c)
    ensures Earlier(a, c)
  {
    if a.row.lamport == b.row.lamport == c.row.lamport {
      if Before(a.row.ts, b.row.ts) && Before(b.row.ts, c.row.ts) {
        BeforeIsTransitive(a.row.ts, b.row.ts, c.row.ts);
      }
      if Before(a.key.writer, b.key.writer) && Before(b.key.writer, c.key.writer) {
        BeforeIsTransitive(a.key.writer, b.key.writer, c.key.writer);
      }
    }
  }

  /** Two events of one stream are always ordered, because their keys
      differ. */
  lemma EarlierIsTotal(a: Event, b: Event)
    requires a.key.stream == b.key.stream && a.key != b.key
    ensures Earlier(a, b) || Earlier(b, a)
  {
    BeforeIsTotal(a.row.ts, b.row.ts);
    BeforeIsTotal(a.key.writer, b.key.writer);
  }

  /** Two events are unordered exactly when all four fields are the same:
      only across streams, for one event, can that be. */
  lemma TiesExactlyWhen(a: Event, b: Event)
    ensures !Earlier(a, b) && !Earlier(b, a) <==>
              a.row.lamport == b.row.lamport && a.row.ts == b.row.ts
              && a.key.writer == b.key.writer && a.key.seqNo == b.key.seqNo
  {
    BeforeIsTotal(a.row.ts, b.row.ts);
    BeforeIsTotal(a.key.writer, b.key.writer);
    BeforeIsStrict(a.row.ts);
    BeforeIsStrict(a.key.writer);
  }

  // ---------- Reading ----------

  /** One stream's events, and no two at one position. */
  predicate OneStream(s: set<Event>, stream: Bytes) {
    && (forall e | e in s :: e.key.stream == stream)
    && forall a, b | a in s && b in s && a.key == b.key :: a == b
  }

  function StreamEvents(t: Table, stream: Bytes): (s: set<Event>)
    ensures OneStream(s, stream)
  {
    set k | k in t && k.stream == stream :: Event(k, t[k])
  }

  predicate IsFirst(s: set<Event>, e: Event) {
    e in s && forall o | o in s && o != e :: Earlier(e, o)
  }

  lemma {:induction false} SomeFirst(s: set<Event>, stream: Bytes) returns (e: Event)
    requires s != {} && OneStream(s, stream)
    ensures IsFirst(s, e)
  {
    assert |s| != 0;
    var x :| x in s;
    var rest := s - {x};
    assert forall o | o in s && o != x :: o in rest;
    if rest == {} {
      e := x;
    } else {
      var m := SomeFirst(rest, stream);
      EarlierIsTotal(x, m);
      e := if Earlier(x, m) then x else m;
      forall o | o in s && o != e
        ensures Earlier(e, o)
      {
        if e == x && o != m {
          EarlierIsTransitive(x, m, o);
        }
      }
    }
  }

  lemma OneFirst(s: set<Event>, a: Event, b: Event)
    requires IsFirst(s, a) && IsFirst(s, b)
    ensures a == b
  {
    if a != b {
      EarlierIsTransitive(a, b, a);
      EarlierIsStrict(a);
    }
  }

  /** A stream's events in the merge order. */
  ghost function Ordered(s: set<Event>, stream: Bytes): seq<Event>
    requires OneStream(s, stream)
  {
    if s == {} then []
    else
      FirstExists(s, stream);
      var e :| IsFirst(s, e);
      [e] + Ordered(s - {e}, stream)
  }

  lemma FirstExists(s: set<Event>, stream: Bytes)
    requires s != {} && OneStream(s, stream)
    ensures exists e :: IsFirst(s, e)
  {
    var e := SomeFirst(s, stream);
  }

  lemma OrderedStep(s: set<Event>, stream: Bytes, e: Event)
    requires OneStream(s, stream) && IsFirst(s, e)
    ensures Ordered(s, stream) == [e] + Ordered(s - {e}, stream)
  {
    var first := Ordered(s, stream)[0];
    OneFirst(s, e, first);
  }

  lemma AssociateEvents(a: seq<Event>, b: seq<Event>, c: seq<Event>)
    ensures (a + b) + c == a + (b + c)
  {
  }

  /** Events: a stream's full merged history. */
  ghost function Events(t: Table, stream: Bytes): seq<Event> {
    Ordered(StreamEvents(t, stream), stream)
  }

  predicate InOrder(xs: seq<Event>) {
    forall i, j | 0 <= i < j < |xs| :: Earlier(xs[i], xs[j])
  }

  lemma {:induction false} OrderedIsOrdered(s: set<Event>, stream: Bytes)
    requires OneStream(s, stream)
    ensures InOrder(Ordered(s, stream)) && forall e :: e in Ordered(s, stream) <==> e in s
  {
    if s != {} {
      var xs := Ordered(s, stream);
      var e := xs[0];
      OrderedIsOrdered(s - {e}, stream);
      assert xs == [e] + Ordered(s - {e}, stream) && xs[1..] == Ordered(s - {e}, stream);
      FirstAhead(xs);
    }
  }

  lemma FirstAhead(xs: seq<Event>)
    requires xs != [] && InOrder(xs[1..]) && forall e | e in xs[1..] :: Earlier(xs[0], e)
    ensures InOrder(xs)
  {
    forall i, j | 0 <= i < j < |xs|
      ensures Earlier(xs[i], xs[j])
    {
      assert xs[j] == xs[1..][j - 1] && xs[j] in xs[1..];
      if i > 0 {
        assert xs[i] == xs[1..][i - 1];
      }
    }
  }

  lemma HeadIsFirst(xs: seq<Event>, s: set<Event>)
    requires xs != [] && InOrder(xs) && forall e :: e in xs <==> e in s
    ensures IsFirst(s, xs[0])
  {
    assert xs[0] in xs;
  }

  /** There is one way to list a stream's events in the merge order. */
  lemma {:induction false} OrderedIsUnique(xs: seq<Event>, s: set<Event>, stream: Bytes)
    requires OneStream(s, stream) && InOrder(xs) && forall e :: e in xs <==> e in s
    ensures xs == Ordered(s, stream)
  {
    if xs == [] {
      assert s == {};
    } else {
      HeadIsFirst(xs, s);
      var tail, rest := xs[1..], s - {xs[0]};
      TailIsRest(xs, s);
      OrderedIsUnique(tail, rest, stream);
      var ys := Ordered(s, stream);
      OneFirst(s, xs[0], ys[0]);
      assert xs == [xs[0]] + tail;
    }
  }

  lemma TailIsRest(xs: seq<Event>, s: set<Event>)
    requires xs != [] && InOrder(xs) && forall e :: e in xs <==> e in s
    ensures InOrder(xs[1..]) && forall e :: e in xs[1..] <==> e in s - {xs[0]}
  {
    var tail := xs[1..];
    forall e
      ensures e in tail <==> e in s - {xs[0]}
    {
      if e in tail {
        var k :| 0 <= k < |tail| && tail[k] == e;
        assert xs[k + 1] == e && Earlier(xs[0], xs[k + 1]);
        EarlierIsStrict(e);
      }
      if e in s && e != xs[0] {
        var k :| 0 <= k < |xs| && xs[k] == e;
        assert tail[k - 1] == e;
      }
    }
  }

  // ---------- Stamps ----------

  /** The number of each row of a selection. */
  type Column = map<Key, int>

  predicate IsMax(c: Column, m: int) {
    (exists k :: k in c && c[k] == m) && forall k | k in c :: c[k] <= m
  }

  lemma {:induction false} MaxExists(c: Column)
    requires c.Keys != {}
    ensures exists m :: IsMax(c, m)
    decreases |c.Keys|
  {
    var k :| k in c.Keys;
    var rest := c - {k};
    assert rest.Keys == c.Keys - {k};
    if rest.Keys == {} {
      assert forall j | j in c :: j == k || j in rest;
      assert IsMax(c, c[k]);
    } else {
      MaxExists(rest);
      var m :| IsMax(rest, m);
      var j :| j in rest && rest[j] == m;
      assert c[j] == m && forall i | i in c :: i == k || i in rest;
      assert IsMax(c, if c[k] > m then c[k] else m);
    }
  }

  /** COALESCE(MAX(x), 0). */
  ghost function MaxOr0(c: Column): (m: int)
    ensures c.Keys != {} ==> IsMax(c, m)
    ensures c.Keys == {} ==> m == 0
  {
    if c.Keys == {} then 0
    else
      MaxExists(c);
      var m :| IsMax(c, m);
      m
  }

  function Lamports(t: Table, stream: Bytes): Column {
    map k | k in t && k.stream == stream :: t[k].lamport
  }

  function Seqs(t: Table, stream: Bytes, writer: Bytes): Column {
    map k | k in t && k.stream == stream && k.writer == writer :: k.seqNo
  }

  /** The next int64, which wraps. */
  function Next(n: I64): I64 {
    if n == MAX_I64 then MIN_I64 else n + 1
  }

  lemma StampsFit(t: Table, stream: Bytes, writer: Bytes)
    ensures MIN_I64 <= MaxOr0(Lamports(t, stream)) <= MAX_I64
    ensures MIN_I64 <= MaxOr0(Seqs(t, stream, writer)) <= MAX_I64
  {
  }

  ghost function MaxLamport(t: Table, stream: Bytes): I64 {
    StampsFit(t, stream, []);
    MaxOr0(Lamports(t, stream))
  }

  ghost function MaxSeq(t: Table, stream: Bytes, writer: Bytes): I64 {
    StampsFit(t, stream, writer);
    MaxOr0(Seqs(t, stream, writer))
  }

  /** The event an append writes. */
  ghost function Stamped(t: Table, writer: Bytes, d: Draft): Event {
    Event(Key(d.stream, writer, Next(MaxSeq(t, d.stream, writer))),
          Row(Next(MaxLamport(t, d.stream)), d.ts, d.actor, d.kind, d.payload))
  }

  // ---------- Writing ----------

  /** insert: stamped and written, or refused by the primary key. */
  ghost function Insert(t: Table, writer: Bytes, d: Draft): Result<Table> {
    var e := Stamped(t, writer, d);
    if e.key in t then Err(KeyExists) else Ok(t[e.key := e.row])
  }

  ghost function Append(t: Table, writer: Bytes, d: Draft): Result<Table> {
    if d.stream == [] || d.kind == [] then Err(EmptyName) else Insert(t, writer, d)
  }

  /** AppendChecked: the check sees the history the event will land on. */
  ghost function AppendChecked(t: Table, writer: Bytes, d: Draft, check: seq<Event> -> bool): Result<Table> {
    if d.stream == [] || d.kind == [] then Err(EmptyName)
    else if !check(Events(t, d.stream)) then Err(Refused)
    else Insert(t, writer, d)
  }

  /** The streams the range query lists. */
  function StreamsUnder(t: Table, prefix: Bytes): set<Bytes> {
    set k | k in t && InRange(prefix, k.stream) :: k.stream
  }

  /** AppendUnder: the stream is named once the streams under the prefix are
      known. */
  ghost function AppendUnder(t: Table, writer: Bytes, prefix: Bytes, d: Draft, name: set<Bytes> -> Option<Bytes>): Result<Table> {
    if prefix == [] || d.kind == [] then Err(EmptyName)
    else
      match name(StreamsUnder(t, prefix))
      case None => Err(Refused)
      case Some(stream) =>
        if !StartsWith(stream, prefix) then Err(NotUnder) else Insert(t, writer, d.(stream := stream))
  }

  /** What Ingest compares: everything but the actor. */
  predicate Agrees(a: Row, b: Row) {
    a.lamport == b.lamport && a.ts == b.ts && a.kind == b.kind && a.payload == b.payload
  }

  predicate WellFormed(e: Event) {
    e.key.stream != [] && e.key.writer != [] && e.key.seqNo > 0
  }

  function IngestOne(t: Table, e: Event): Result<Table> {
    if !WellFormed(e) then Err(Malformed)
    else if e.key !in t then Ok(t[e.key := e.row])
    else if Agrees(t[e.key], e.row) then Ok(t)
    else Err(Diverged)
  }

  /** A batch, event by event, until one is refused. */
  function IngestAll(t: Table, events: seq<Event>): Result<Table> {
    if events == [] then Ok(t)
    else
      match IngestAll(t, events[..|events| - 1])
      case Err(e) => Err(e)
      case Ok(u) => IngestOne(u, events[|events| - 1])
  }

  /** A transaction's outcome: its table, or the table it began with. */
  function Committed(t: Table, r: Result<Table>): Table {
    if r.Ok? then r.value else t
  }

  lemma {:induction false} BatchErrorStays(t: Table, events: seq<Event>, n: nat)
    requires n <= |events| && IngestAll(t, events[..n]).Err?
    ensures IngestAll(t, events) == IngestAll(t, events[..n])
  {
    if n == |events| {
      assert events[..n] == events;
    } else {
      assert events[..|events| - 1][..n] == events[..n];
      BatchErrorStays(t, events[..|events| - 1], n);
    }
  }

  /** One writer's view of the shared table. */
  class Log {
    var table: Table
    const writer: Bytes

    /** Open; the writer is never empty. */
    constructor (writer: Bytes)
      requires writer != []
      ensures this.writer == writer && table == map[]
    {
      this.writer := writer;
      table := map[];
    }

    /** SELECT COALESCE(MAX(lamport), 0), row by row; none is SQL's NULL. */
    method TopLamport(stream: Bytes) returns (m: I64)
      ensures m == MaxLamport(table, stream)
    {
      var keys, none := table.Keys, true;
      ghost var seen: Column := map[];
      m := 0;
      while keys != {}
        invariant keys <= table.Keys
        invariant seen == map k | k in table && k !in keys && k.stream == stream :: table[k].lamport
        invariant none == (seen.Keys == {}) && m == MaxOr0(seen)
        decreases |keys|
      {
        var k :| k in keys;
        keys := keys - {k};
        if k.stream == stream {
          MaxGrows(seen, k, table[k].lamport);
          m, none := if none || m < table[k].lamport then table[k].lamport else m, false;
          seen := seen[k := table[k].lamport];
        }
      }
      assert seen == Lamports(table, stream);
    }

    method TopSeq(stream: Bytes) returns (m: I64)
      ensures m == MaxSeq(table, stream, writer)
    {
      var keys, none := table.Keys, true;
      ghost var seen: Column := map[];
      m := 0;
      while keys != {}
        invariant keys <= table.Keys
        invariant seen == map k | k in table && k !in keys && k.stream == stream && k.writer == writer :: k.seqNo
        invariant none == (seen.Keys == {}) && m == MaxOr0(seen)
        decreases |keys|
      {
        var k :| k in keys;
        keys := keys - {k};
        if k.stream == stream && k.writer == writer {
          MaxGrows(seen, k, k.seqNo);
          m, none := if none || m < k.seqNo then k.seqNo else m, false;
          seen := seen[k := k.seqNo];
        }
      }
      assert seen == Seqs(table, stream, writer);
    }

    /** insert, inside the caller's transaction: the new event. */
    method InsertRow(d: Draft) returns (r: Result<Event>)
      modifies this`table
      ensures Insert(old(table), writer, d).Ok? ==>
                r == Ok(Stamped(old(table), writer, d)) && Ok(table) == Insert(old(table), writer, d)
      ensures Insert(old(table), writer, d).Err? ==> r == Err(KeyExists) && table == old(table)
    {
      var lamport := TopLamport(d.stream);
      var seqNo := TopSeq(d.stream);
      var e := Event(Key(d.stream, writer, Next(seqNo)), Row(Next(lamport), d.ts, d.actor, d.kind, d.payload));
      if e.key in table {
        return Err(KeyExists);
      }
      table := table[e.key := e.row];
      return Ok(e);
    }

    method AppendEvent(d: Draft) returns (r: Result<Event>)
      modifies this`table
      ensures table == Committed(old(table), Append(old(table), writer, d))
      ensures r == if Append(old(table), writer, d).Ok? then Ok(Stamped(old(table), writer, d))
                   else Err(Append(old(table), writer, d).error)
    {
      if d.stream == [] || d.kind == [] {
        return Err(EmptyName);
      }
      r := InsertRow(d);
    }

    /** eventsSQL's ORDER BY: the earliest of what is left, again and again. */
    method ReadEvents(stream: Bytes) returns (xs: seq<Event>)
      ensures xs == Events(table, stream)
    {
      var rest := StreamEvents(table, stream);
      xs := [];
      while rest != {}
        invariant OneStream(rest, stream)
        invariant xs + Ordered(rest, stream) == Events(table, stream)
        decreases |rest|
      {
        FirstExists(rest, stream);
        var e :| e in rest && IsFirst(rest, e);
        OrderedStep(rest, stream, e);
        AssociateEvents(xs, [e], Ordered(rest - {e}, stream));
        xs, rest := xs + [e], rest - {e};
      }
      assert xs + [] == xs;
    }

    /** The whole transaction of AppendChecked. */
    method AppendAfterCheck(d: Draft, check: seq<Event> -> bool) returns (r: Result<Event>)
      modifies this`table
      ensures table == Committed(old(table), AppendChecked(old(table), writer, d, check))
      ensures r == if AppendChecked(old(table), writer, d, check).Ok? then Ok(Stamped(old(table), writer, d))
                   else Err(AppendChecked(old(table), writer, d, check).error)
    {
      if d.stream == [] || d.kind == [] {
        return Err(EmptyName);
      }
      var history := ReadEvents(d.stream);
      if !check(history) {
        return Err(Refused);
      }
      r := InsertRow(d);
    }

    /** The whole transaction of AppendUnder. */
    method AppendNamed(prefix: Bytes, d: Draft, name: set<Bytes> -> Option<Bytes>) returns (r: Result<Event>)
      modifies this`table
      ensures table == Committed(old(table), AppendUnder(old(table), writer, prefix, d, name))
      ensures r.Ok? <==> AppendUnder(old(table), writer, prefix, d, name).Ok?
      ensures r.Ok? ==> (var stream := name(StreamsUnder(old(table), prefix));
                         stream.Some? && r.value == Stamped(old(table), writer, d.(stream := stream.value)))
      ensures r.Err? ==> r == Err(AppendUnder(old(table), writer, prefix, d, name).error)
    {
      if prefix == [] || d.kind == [] {
        return Err(EmptyName);
      }
      var stream := name(StreamsUnder(table, prefix));
      if stream.None? {
        return Err(Refused);
      }
      if !StartsWith(stream.value, prefix) {
        return Err(NotUnder);
      }
      r := InsertRow(d.(stream := stream.value));
    }

    /** Ingest: the batch in one transaction, rolled back at the first event
        refused. */
    method Ingest(events: seq<Event>) returns (r: Option<Error>)
      modifies this`table
      ensures table == Committed(old(table), IngestAll(old(table), events))
      ensures r == if IngestAll(old(table), events).Ok? then None else Some(IngestAll(old(table), events).error)
    {
      var before := table;
      for i := 0 to |events|
        invariant IngestAll(before, events[..i]) == Ok(table)
      {
        var e := events[i];
        assert events[..i + 1][..i] == events[..i];
        if !WellFormed(e) {
          BatchErrorStays(before, events, i + 1);
          table := before;
          return Some(Malformed);
        }
        if e.key !in table {
          table := table[e.key := e.row];
        } else if !Agrees(table[e.key], e.row) {
          BatchErrorStays(before, events, i + 1);
          table := before;
          return Some(Diverged);
        }
      }
      assert events[..|events|] == events;
      r := None;
    }
  }

  lemma MaxIsOne(c: Column, m: int)
    requires IsMax(c, m)
    ensures MaxOr0(c) == m
  {
    var k :| k in c && c[k] == m;
    assert k in c.Keys;
  }

  lemma MaxGrows(c: Column, k: Key, x: int)
    requires k !in c
    ensures MaxOr0(c[k := x]) == if c.Keys == {} || MaxOr0(c) < x then x else MaxOr0(c)
  {
    var bigger := c[k := x];
    assert k in bigger && bigger[k] == x;
    if c.Keys != {} && x <= MaxOr0(c) {
      var j :| j in c && c[j] == MaxOr0(c);
      assert bigger[j] == MaxOr0(c);
      MaxIsOne(bigger, MaxOr0(c));
    } else {
      MaxIsOne(bigger, x);
    }
  }

  /** The fold over a history. */
  function Derive<S>(events: seq<Event>, reduce: (S, Event) -> S, start: S): S {
    if events == [] then start
    else reduce(Derive(events[..|events| - 1], reduce, start), events[|events| - 1])
  }

  method Fold<S>(events: seq<Event>, reduce: (S, Event) -> S, start: S) returns (s: S)
    ensures s == Derive(events, reduce, start)
  {
    s := start;
    for i := 0 to |events|
      invariant s == Derive(events[..i], reduce, start)
    {
      assert events[..i + 1][..i] == events[..i];
      s := reduce(s, events[i]);
    }
    assert events[..|events|] == events;
  }
}
