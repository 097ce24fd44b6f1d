/** What a log promises of any mix of appends and ingests, on one database or
    on many. */
module EventLogLaws {
  import opened ByteText
  import opened Digits
  import opened PrefixRange
  import opened EventLog

  // ---------- An append lands last ----------

  lemma InOrderSnoc(xs: seq<Event>, e: Event)
    requires InOrder(xs) && forall x | x in xs :: Earlier(x, e)
    ensures InOrder(xs + [e])
  {
  }

  lemma AddedEvents(t: Table, e: Event)
    requires e.key !in t
    ensures StreamEvents(t[e.key := e.row], e.key.stream) == StreamEvents(t, e.key.stream) + {e}
    ensures forall s | s != e.key.stream :: StreamEvents(t[e.key := e.row], s) == StreamEvents(t, s)
  {
  }

  lemma SeqSeen(t: Table, k: Key)
    requires k in t
    ensures k.seqNo <= MaxSeq(t, k.stream, k.writer)
  {
    assert k in Seqs(t, k.stream, k.writer).Keys;
  }

  lemma LamportSeen(t: Table, e: Event)
    requires e.key in t && t[e.key] == e.row
    ensures e.row.lamport <= MaxLamport(t, e.key.stream)
  {
    assert e.key in Lamports(t, e.key.stream).Keys;
  }

  /** What a draft says, whatever it is stamped with. */
  predicate Drafted(e: Event, d: Draft) {
    && e.key.stream == d.stream && e.row.ts == d.ts && e.row.actor == d.actor
    && e.row.kind == d.kind && e.row.payload == d.payload
  }

  /** While the stream's counter has not run out, an append is read back at
      the very end of the history, saying what its draft says, stamped above
      every event there and numbered above its writer's; nothing else moves. */
  lemma LandsLast(t: Table, writer: Bytes, d: Draft)
    requires Insert(t, writer, d).Ok? && MaxLamport(t, d.stream) < MAX_I64
    ensures var after := Insert(t, writer, d).value;
            && Events(after, d.stream) == Events(t, d.stream) + [Stamped(t, writer, d)]
            && (forall s | s != d.stream :: Events(after, s) == Events(t, s))
            && Drafted(Stamped(t, writer, d), d) && Stamped(t, writer, d).key.writer == writer
    ensures forall x | x in Events(t, d.stream) ::
              && x.row.lamport < Stamped(t, writer, d).row.lamport
              && (x.key.writer == writer && MaxSeq(t, d.stream, writer) < MAX_I64 ==>
                    x.key.seqNo < Stamped(t, writer, d).key.seqNo)
  {
    var e, before := Stamped(t, writer, d), Events(t, d.stream);
    AddedEvents(t, e);
    OrderedIsOrdered(StreamEvents(t, d.stream), d.stream);
    forall x | x in before
      ensures Earlier(x, e) && x.row.lamport < e.row.lamport
      ensures x.key.writer == writer && MaxSeq(t, d.stream, writer) < MAX_I64 ==> x.key.seqNo < e.key.seqNo
    {
      LamportSeen(t, x);
      SeqSeen(t, x.key);
    }
    InOrderSnoc(before, e);
    OrderedIsUnique(before + [e], StreamEvents(t[e.key := e.row], d.stream), d.stream);
  }

  /** A history is read by lamport; among equal lamports by timestamp text;
      among equal timestamps by writer; and one writer's by seq. It holds each
      of the stream's rows, once, and no other. */
  lemma ReadsInOrder(t: Table, stream: Bytes)
    ensures var xs := Events(t, stream);
            && (forall i, j | 0 <= i < j < |xs| ::
                  var a, b := xs[i], xs[j];
                  && a.row.lamport <= b.row.lamport
                  && (a.row.lamport == b.row.lamport ==> !Before(b.row.ts, a.row.ts))
                  && (a.row.lamport == b.row.lamport && a.row.ts == b.row.ts ==> !Before(b.key.writer, a.key.writer))
                  && (a.row.lamport == b.row.lamport && a.row.ts == b.row.ts && a.key.writer == b.key.writer ==>
                        a.key.seqNo < b.key.seqNo))
            && (forall e :: e in xs <==> e.key in t && t[e.key] == e.row && e.key.stream == stream)
            && forall i, j | 0 <= i < j < |xs| :: xs[i].key != xs[j].key
  {
    var xs := Events(t, stream);
    OrderedIsOrdered(StreamEvents(t, stream), stream);
    forall i, j | 0 <= i < j < |xs|
      ensures xs[i].row.lamport == xs[j].row.lamport ==> !Before(xs[j].row.ts, xs[i].row.ts)
      ensures xs[i].row.lamport == xs[j].row.lamport && xs[i].row.ts == xs[j].row.ts ==>
                !Before(xs[j].key.writer, xs[i].key.writer)
      ensures xs[i].key != xs[j].key
    {
      BeforeOneWay(xs[i].row.ts, xs[j].row.ts);
      BeforeOneWay(xs[i].key.writer, xs[j].key.writer);
      EarlierIsStrict(xs[i]);
      assert xs[i] in xs && xs[j] in xs;
    }
  }

  lemma BeforeOneWay(a: Bytes, b: Bytes)
    ensures Before(a, b) ==> !Before(b, a)
    ensures !Before(a, a)
  {
    BeforeIsStrict(a);
    if Before(a, b) && Before(b, a) {
      BeforeIsTransitive(a, b, a);
    }
  }

  lemma NotLast(xs: seq<Event>, a: Event, b: Event)
    requires InOrder(xs) && b in xs && Earlier(a, b)
    ensures xs[|xs| - 1] != a
  {
    var i :| 0 <= i < |xs| && xs[i] == b;
    var z := xs[|xs| - 1];
    EarlierIsStrict(a);
    if i < |xs| - 1 {
      EarlierIsTransitive(a, b, z);
    }
  }

  /** When it has run out the stamp wraps, and the append lands before an
      event it follows. */
  lemma WrapsToFront(t: Table, writer: Bytes, d: Draft)
    requires Insert(t, writer, d).Ok? && MaxLamport(t, d.stream) == MAX_I64
    ensures Events(Insert(t, writer, d).value, d.stream) != Events(t, d.stream) + [Stamped(t, writer, d)]
  {
    var e, after := Stamped(t, writer, d), Insert(t, writer, d).value;
    var column := Lamports(t, d.stream);
    assert IsMax(column, MAX_I64);
    var k :| k in column && column[k] == MAX_I64;
    var top := Event(k, t[k]);
    OrderedIsOrdered(StreamEvents(after, d.stream), d.stream);
    assert top in StreamEvents(after, d.stream);
    NotLast(Events(after, d.stream), e, top);
  }

  /** An append lands last exactly when the highest lamport stored on its
      stream is below the largest int64. */
  lemma LandsLastExactlyWhen(t: Table, writer: Bytes, d: Draft)
    requires Insert(t, writer, d).Ok?
    ensures Events(Insert(t, writer, d).value, d.stream) == Events(t, d.stream) + [Stamped(t, writer, d)]
       <==> MaxLamport(t, d.stream) < MAX_I64
  {
    if MaxLamport(t, d.stream) < MAX_I64 {
      LandsLast(t, writer, d);
    } else {
      WrapsToFront(t, writer, d);
    }
  }

  /** While its writer's counter has not run out, an append is taken exactly
      when its stream and kind are named. */
  lemma AppendsExactlyWhen(t: Table, writer: Bytes, d: Draft)
    requires MaxSeq(t, d.stream, writer) < MAX_I64
    ensures Append(t, writer, d).Ok? <==> d.stream != [] && d.kind != []
  {
    NeverCollides(t, writer, d);
  }

  /** And a checked one exactly when, besides, the check admits the history it
      will land on; what is refused was named. */
  lemma ChecksExactlyWhen(t: Table, writer: Bytes, d: Draft, check: seq<Event> -> bool)
    requires MaxSeq(t, d.stream, writer) < MAX_I64
    ensures AppendChecked(t, writer, d, check).Ok? <==> d.stream != [] && d.kind != [] && check(Events(t, d.stream))
    ensures AppendChecked(t, writer, d, check) == Err(Refused) <==>
              d.stream != [] && d.kind != [] && !check(Events(t, d.stream))
  {
    NeverCollides(t, writer, d);
  }

  /** And a named one exactly when prefix and kind are named and the name it is
      given lies under the prefix. */
  lemma NamesExactlyWhen(t: Table, writer: Bytes, prefix: Bytes, d: Draft, name: set<Bytes> -> Option<Bytes>)
    requires forall stream :: MaxSeq(t, stream, writer) < MAX_I64
    ensures var stream := name(StreamsUnder(t, prefix)); var r := AppendUnder(t, writer, prefix, d, name);
            && (r.Ok? <==> prefix != [] && d.kind != [] && stream.Some? && StartsWith(stream.value, prefix))
            && (r == Err(NotUnder) <==> prefix != [] && d.kind != [] && stream.Some? && !StartsWith(stream.value, prefix))
            && (r == Err(Refused) <==> prefix != [] && d.kind != [] && stream.None?)
  {
    var stream := name(StreamsUnder(t, prefix));
    if stream.Some? {
      NeverCollides(t, writer, d.(stream := stream.value));
    }
  }

  /** An append never collides while its writer's own counter has not run
      out. */
  lemma NeverCollides(t: Table, writer: Bytes, d: Draft)
    requires MaxSeq(t, d.stream, writer) < MAX_I64
    ensures Insert(t, writer, d).Ok?
  {
    var e := Stamped(t, writer, d);
    if e.key in t {
      SeqSeen(t, e.key);
    }
  }

  lemma {:induction false} DeriveConcat<S>(xs: seq<Event>, ys: seq<Event>, reduce: (S, Event) -> S, start: S)
    ensures Derive(xs + ys, reduce, start) == Derive(ys, reduce, Derive(xs, reduce, start))
  {
    if ys == [] {
      assert xs + ys == xs;
    } else {
      assert (xs + ys)[..|xs + ys| - 1] == xs + ys[..|ys| - 1];
      DeriveConcat(xs, ys[..|ys| - 1], reduce, start);
    }
  }

  /** So the read model moves by one reduce, and replaying a prefix of the
      history gives the state it had. */
  lemma DeriveMovesByOne<S>(t: Table, writer: Bytes, d: Draft, reduce: (S, Event) -> S, start: S)
    requires Insert(t, writer, d).Ok? && MaxLamport(t, d.stream) < MAX_I64
    ensures Derive(Events(Insert(t, writer, d).value, d.stream), reduce, start)
         == reduce(Derive(Events(t, d.stream), reduce, start), Stamped(t, writer, d))
  {
    LandsLast(t, writer, d);
    var e := Stamped(t, writer, d);
    DeriveConcat(Events(t, d.stream), [e], reduce, start);
    assert [e][..0] == [];
    assert Derive([], reduce, Derive(Events(t, d.stream), reduce, start)) == Derive(Events(t, d.stream), reduce, start);
  }

  // ---------- Checked appends ----------

  /** The check admits an event only where it keeps the rule. */
  ghost predicate Guards(check: (seq<Event>, Draft) -> bool, rule: seq<Event> -> bool) {
    forall history, e, d :: rule(history) && check(history, d) && Drafted(e, d) ==> rule(history + [e])
  }

  /** Appends by any writers on one database, one transaction after another. */
  ghost function CheckedRun(drafts: seq<(Bytes, Draft)>, check: (seq<Event>, Draft) -> bool): Table {
    if drafts == [] then map[]
    else
      var t := CheckedRun(drafts[..|drafts| - 1], check);
      var (writer, d) := drafts[|drafts| - 1];
      Committed(t, AppendChecked(t, writer, d, history => check(history, d)))
  }

  /** No counter has run out after n appends. */
  ghost predicate Within(t: Table, n: int) {
    && (forall k | k in t :: 1 <= t[k].lamport <= n && 1 <= k.seqNo <= n)
  }

  lemma WithinTops(t: Table, n: int, stream: Bytes, writer: Bytes)
    requires Within(t, n) && n >= 0
    ensures 0 <= MaxLamport(t, stream) <= n && 0 <= MaxSeq(t, stream, writer) <= n
  {
    var ls, ss := Lamports(t, stream), Seqs(t, stream, writer);
    assert ls.Keys != {} ==> IsMax(ls, MaxLamport(t, stream));
    assert ss.Keys != {} ==> IsMax(ss, MaxSeq(t, stream, writer));
  }

  lemma WithinGrows(t: Table, n: int, writer: Bytes, d: Draft)
    requires Within(t, n) && 0 <= n < MAX_I64
    ensures Insert(t, writer, d).Ok? && Within(Insert(t, writer, d).value, n + 1)
    ensures MaxLamport(t, d.stream) < MAX_I64
  {
    WithinTops(t, n, d.stream, writer);
    NeverCollides(t, writer, d);
  }

  /** A rule the check guards holds of every stream after every run of
      checked appends. */
  lemma {:induction false} CheckedKeepsRule(
      drafts: seq<(Bytes, Draft)>, check: (seq<Event>, Draft) -> bool, rule: seq<Event> -> bool, stream: Bytes)
    requires Guards(check, rule) && rule([]) && |drafts| <= MAX_I64
    ensures var t := CheckedRun(drafts, check); Within(t, |drafts|) && rule(Events(t, stream))
  {
    if drafts == [] {
      assert StreamEvents(map[], stream) == {};
    } else {
      var front := drafts[..|drafts| - 1];
      var t := CheckedRun(front, check);
      var (writer, d) := drafts[|drafts| - 1];
      CheckedKeepsRule(front, check, rule, stream);
      WithinGrows(t, |front|, writer, d);
      if AppendChecked(t, writer, d, history => check(history, d)).Ok? {
        CheckedKeepsRule(front, check, rule, d.stream);
        LandsLast(t, writer, d);
        assert Drafted(Stamped(t, writer, d), d);
      }
    }
  }

  // ---------- Naming a stream under the lock ----------

  /** What the name sees is exactly the streams that start with the prefix. */
  lemma SeesThePrefix(t: Table, prefix: Bytes, stream: Bytes)
    ensures stream in StreamsUnder(t, prefix) <==> StartsWith(stream, prefix) && exists k :: k in t && k.stream == stream
  {
    RangeIsPrefix(prefix, stream);
  }

  /** A name not among them is a stream nobody has written: its first event is
      numbered 1, stamped 1 and alone. So two creations that each pick a fresh
      name never share a stream. */
  lemma FreshNameIsNew(t: Table, writer: Bytes, prefix: Bytes, d: Draft, name: set<Bytes> -> Option<Bytes>)
    requires AppendUnder(t, writer, prefix, d, name).Ok?
    requires var stream := name(StreamsUnder(t, prefix)); stream.Some? && stream.value !in StreamsUnder(t, prefix)
    ensures var stream := name(StreamsUnder(t, prefix)).value; var after := AppendUnder(t, writer, prefix, d, name).value;
            && Events(t, stream) == []
            && Events(after, stream) == [Stamped(t, writer, d.(stream := stream))]
            && Events(after, stream)[0].key.seqNo == 1 && Events(after, stream)[0].row.lamport == 1
            && StreamsUnder(after, prefix) == StreamsUnder(t, prefix) + {stream}
  {
    var stream := name(StreamsUnder(t, prefix)).value;
    SeesThePrefix(t, prefix, stream);
    NothingThere(t, stream, writer);
    LandsLast(t, writer, d.(stream := stream));
    var e := Stamped(t, writer, d.(stream := stream));
    RangeIsPrefix(prefix, stream);
    StreamAdded(t, prefix, e);
  }

  lemma StreamAdded(t: Table, prefix: Bytes, e: Event)
    requires e.key !in t && InRange(prefix, e.key.stream)
    ensures StreamsUnder(t[e.key := e.row], prefix) == StreamsUnder(t, prefix) + {e.key.stream}
  {
    var after := t[e.key := e.row];
    assert e.key in after;
    forall s
      ensures s in StreamsUnder(after, prefix) <==> s in StreamsUnder(t, prefix) + {e.key.stream}
    {
      if s in StreamsUnder(t, prefix) {
        var k :| k in t && InRange(prefix, k.stream) && k.stream == s;
        assert k in after;
      }
    }
  }

  lemma NothingThere(t: Table, stream: Bytes, writer: Bytes)
    requires forall k | k in t :: k.stream != stream
    ensures Events(t, stream) == [] && MaxLamport(t, stream) == 0 && MaxSeq(t, stream, writer) == 0
  {
    assert StreamEvents(t, stream) == {};
    assert Lamports(t, stream).Keys == {} && Seqs(t, stream, writer).Keys == {};
  }
}
