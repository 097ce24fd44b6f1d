/** EventsByPrefix: every event under a prefix in one list, and how far that
    list is determined (eventlog/eventlog.go). */
module EventLogPrefix {
  import opened ByteText
  import opened Digits
  import opened PrefixRange
  import opened EventLog

  predicate Distinct(xs: seq<Event>) {
    forall i, j | 0 <= i < j < |xs| :: xs[i] != xs[j]
  }

  /** ORDER BY: nothing stands before what it follows. */
  predicate Sorted(xs: seq<Event>) {
    forall i, j | 0 <= i < j < |xs| :: !Earlier(xs[j], xs[i])
  }

  predicate Matches(t: Table, prefix: Bytes, e: Event) {
    e.key in t && t[e.key] == e.row && Like(LikePrefix(prefix), e.key.stream)
  }

  /** What the query may answer with. */
  ghost predicate Listing(t: Table, prefix: Bytes, xs: seq<Event>) {
    Distinct(xs) && Sorted(xs) && forall e :: e in xs <==> Matches(t, prefix, e)
  }

  // ---------- One stream of the list ----------

  function Of(xs: seq<Event>, stream: Bytes): seq<Event> {
    if xs == [] then []
    else Of(xs[..|xs| - 1], stream) + if xs[|xs| - 1].key.stream == stream then [xs[|xs| - 1]] else []
  }

  lemma {:induction false} OfHas(xs: seq<Event>, stream: Bytes)
    ensures forall e :: e in Of(xs, stream) <==> e in xs && e.key.stream == stream
  {
    if xs != [] {
      OfHas(xs[..|xs| - 1], stream);
      assert xs == xs[..|xs| - 1] + [xs[|xs| - 1]];
    }
  }

  lemma AheadInOrder(xs: seq<Event>, e: Event)
    requires InOrder(xs) && forall x | x in xs :: Earlier(x, e)
    ensures InOrder(xs + [e])
  {
  }

  /** Different events of one stream, none before what it follows, are in the
      merge order. */
  lemma {:induction false} OfInOrder(t: Table, xs: seq<Event>, stream: Bytes)
    requires Distinct(xs) && Sorted(xs) && forall e | e in xs :: e.key in t && t[e.key] == e.row
    ensures InOrder(Of(xs, stream))
  {
    if xs != [] {
      var front, last := xs[..|xs| - 1], xs[|xs| - 1];
      OfInOrder(t, front, stream);
      if last.key.stream == stream {
        OfHas(front, stream);
        forall x | x in Of(front, stream)
          ensures Earlier(x, last)
        {
          var i :| 0 <= i < |front| && front[i] == x;
          assert xs[i] == x && last in xs && x in xs;
          EarlierIsTotal(x, last);
        }
        AheadInOrder(Of(front, stream), last);
      }
    }
  }

  /** Each stream the pattern selects is there whole and in its own order:
      its part of the list is exactly what Events reads; and no other stream
      is there at all. */
  lemma EachStreamAsRead(t: Table, prefix: Bytes, xs: seq<Event>, stream: Bytes)
    requires Listing(t, prefix, xs)
    ensures Of(xs, stream) == if Like(LikePrefix(prefix), stream) then Events(t, stream) else []
  {
    OfHas(xs, stream);
    OfInOrder(t, xs, stream);
    if Like(LikePrefix(prefix), stream) {
      OrderedIsUnique(Of(xs, stream), StreamEvents(t, stream), stream);
    } else {
      NoneLeft(Of(xs, stream));
    }
  }

  lemma NoneLeft(xs: seq<Event>)
    ensures xs == [] || exists e :: e in xs
  {
    if xs != [] {
      assert xs[0] in xs;
    }
  }

  // ---------- How far the list is determined ----------

  /** Two different events that none of the four fields tells apart. */
  ghost predicate Tied(t: Table, prefix: Bytes, a: Event, b: Event) {
    a != b && Matches(t, prefix, a) && Matches(t, prefix, b) && !Earlier(a, b) && !Earlier(b, a)
  }

  lemma TiedStreams(t: Table, prefix: Bytes, a: Event, b: Event)
    requires Tied(t, prefix, a, b)
    ensures a.key.stream != b.key.stream
  {
    if a.key.stream == b.key.stream {
      EarlierIsTotal(a, b);
    }
  }

  lemma UntiedIsInOrder(t: Table, prefix: Bytes, xs: seq<Event>)
    requires Listing(t, prefix, xs) && forall a, b :: !Tied(t, prefix, a, b)
    ensures InOrder(xs)
  {
    forall i, j | 0 <= i < j < |xs|
      ensures Earlier(xs[i], xs[j])
    {
      assert xs[i] in xs && xs[j] in xs;
      assert !Tied(t, prefix, xs[i], xs[j]);
    }
  }

  lemma SameHead(xs: seq<Event>, ys: seq<Event>)
    requires InOrder(xs) && InOrder(ys) && xs != [] && ys != [] && xs[0] in ys && ys[0] in xs
    ensures xs[0] == ys[0]
  {
    if xs[0] != ys[0] {
      var i :| 0 <= i < |xs| && xs[i] == ys[0];
      var j :| 0 <= j < |ys| && ys[j] == xs[0];
      assert Earlier(xs[0], ys[0]) && Earlier(ys[0], xs[0]);
      EarlierIsTransitive(xs[0], ys[0], xs[0]);
      EarlierIsStrict(xs[0]);
    }
  }

  lemma TailHas(xs: seq<Event>)
    requires InOrder(xs) && xs != []
    ensures InOrder(xs[1..]) && forall e :: e in xs[1..] <==> e in xs && e != xs[0]
  {
    TailIsRest(xs, set e | e in xs);
  }

  lemma {:induction false} OneOrder(xs: seq<Event>, ys: seq<Event>)
    requires InOrder(xs) && InOrder(ys) && forall e :: e in xs <==> e in ys
    ensures xs == ys
  {
    if xs == [] {
      NoneLeft(ys);
    } else {
      assert xs[0] in ys && ys[0] in ys;
      SameHead(xs, ys);
      TailHas(xs);
      TailHas(ys);
      OneOrder(xs[1..], ys[1..]);
      assert xs == [xs[0]] + xs[1..] && ys == [ys[0]] + ys[1..];
    }
  }

  function Swapped(xs: seq<Event>, i: nat, j: nat): seq<Event>
    requires i < |xs| && j < |xs|
  {
    xs[i := xs[j]][j := xs[i]]
  }

  lemma TiedCompareAlike(a: Event, b: Event, x: Event)
    requires !Earlier(a, b) && !Earlier(b, a)
    ensures (Earlier(a, x) <==> Earlier(b, x)) && (Earlier(x, a) <==> Earlier(x, b))
  {
    TiesExactlyWhen(a, b);
  }

  lemma SwapSorted(xs: seq<Event>, i: nat, j: nat)
    requires Sorted(xs) && i < |xs| && j < |xs| && !Earlier(xs[i], xs[j]) && !Earlier(xs[j], xs[i])
    ensures Sorted(Swapped(xs, i, j))
  {
    var ys := Swapped(xs, i, j);
    forall k, l | 0 <= k < l < |xs|
      ensures !Earlier(ys[l], ys[k])
    {
      TiedCompareAlike(xs[i], xs[j], xs[k]);
      TiedCompareAlike(xs[i], xs[j], xs[l]);
      EarlierIsStrict(xs[i]);
      EarlierIsStrict(xs[j]);
    }
  }

  lemma SwapHas(xs: seq<Event>, i: nat, j: nat)
    requires Distinct(xs) && i < |xs| && j < |xs|
    ensures Distinct(Swapped(xs, i, j)) && forall e :: e in Swapped(xs, i, j) <==> e in xs
  {
    var ys := Swapped(xs, i, j);
    forall e
      ensures e in ys <==> e in xs
    {
      if e in xs {
        var k :| 0 <= k < |xs| && xs[k] == e;
        assert ys[if k == i then j else if k == j then i else k] == e;
      }
    }
  }

  /** The query's answer is determined exactly when no two events of different
      streams have the same lamport, timestamp, writer and seq: the four
      fields do not order those. */
  lemma DeterminedExactlyWhen(t: Table, prefix: Bytes, xs: seq<Event>)
    requires Listing(t, prefix, xs)
    ensures (forall ys | Listing(t, prefix, ys) :: ys == xs) <==> forall a, b :: !Tied(t, prefix, a, b)
    ensures forall a, b | Tied(t, prefix, a, b) :: a.key.stream != b.key.stream
  {
    if forall a, b :: !Tied(t, prefix, a, b) {
      forall ys | Listing(t, prefix, ys)
        ensures ys == xs
      {
        UntiedIsInOrder(t, prefix, xs);
        UntiedIsInOrder(t, prefix, ys);
        OneOrder(ys, xs);
      }
    } else {
      var a, b :| Tied(t, prefix, a, b);
      TiedHasTwo(t, prefix, xs, a, b);
    }
    forall a, b | Tied(t, prefix, a, b)
      ensures a.key.stream != b.key.stream
    {
      TiedStreams(t, prefix, a, b);
    }
  }

  lemma TiedHasTwo(t: Table, prefix: Bytes, xs: seq<Event>, a: Event, b: Event)
    requires Listing(t, prefix, xs) && Tied(t, prefix, a, b)
    ensures exists ys :: Listing(t, prefix, ys) && ys != xs
  {
    var i :| 0 <= i < |xs| && xs[i] == a;
    var j :| 0 <= j < |xs| && xs[j] == b;
    SwapSorted(xs, i, j);
    SwapHas(xs, i, j);
    assert Swapped(xs, i, j)[i] != xs[i];
    assert Listing(t, prefix, Swapped(xs, i, j));
  }
}
