/** What goes out on the connection, over every run of guarded: any body, any
    rechecks, any failing write. */
module EmissionTrace {
  import opened ByteText
  import opened Digits
  import opened Emission

  /** The bytes of the body that reached the connection. */
  function Out(acts: seq<Act>): Bytes {
    if acts == [] then []
    else (match acts[0] case Send(bytes) => bytes case _ => []) + Out(acts[1..])
  }

  predicate Ended(acts: seq<Act>) {
    Abort !in acts && forall a | a in acts :: !a.Refuse?
  }

  lemma {:induction false} OutConcat(a: seq<Act>, b: seq<Act>)
    ensures Out(a + b) == Out(a) + Out(b)
  {
    if a == [] {
      assert a + b == b;
    } else {
      assert (a + b)[1..] == a[1..] + b;
      OutConcat(a[1..], b);
      AssociateBytes(match a[0] case Send(bytes) => bytes case _ => [], Out(a[1..]), Out(b));
    }
  }

  lemma OutPassed(w: World, n: nat, chunk: Bytes)
    ensures Out(Passed(w, n, chunk)) == Sent(w, n, chunk) && Out(Passed(w, n, chunk) + [Abort]) == Sent(w, n, chunk)
  {
    var bytes := Sent(w, n, chunk);
    OutOne(Send(bytes));
    OutOne(Commit(w.head));
    OutOne(Abort);
    OutOne(Check(n, None));
    OutConcat([Check(n, None)] + (if n == 0 then [Commit(w.head)] else []), [Send(bytes)]);
    OutConcat([Check(n, None)], if n == 0 then [Commit(w.head)] else []);
    OutConcat(Passed(w, n, chunk), [Abort]);
    assert Out([]) == [];
  }

  lemma OutOne(a: Act)
    ensures Out([a]) == match a case Send(bytes) => bytes case _ => []
  {
    assert [a][1..] == [];
  }

  // ---------- Only the body goes out ----------

  lemma ChunkSplits(body: Bytes, offset: nat)
    requires offset <= |body|
    ensures body[offset..] == Chunk(body, offset) + body[offset + |Chunk(body, offset)|..]
  {
  }

  lemma EndedRest(a: seq<Act>, b: seq<Act>)
    requires Ended(a + b)
    ensures Ended(b)
  {
    assert forall x | x in b :: x in a + b;
  }

  /** What a piece of the way out has to show for itself. */
  predicate Tells(acts: seq<Act>, rest: Bytes) {
    Out(acts) <= rest && (Ended(acts) ==> Out(acts) == rest)
  }

  lemma PassedTells(w: World, n: nat, chunk: Bytes, more: seq<Act>, rest: Bytes)
    requires w.writes(n).None? && Tells(more, rest)
    ensures Tells(Passed(w, n, chunk) + more, chunk + rest)
  {
    OutPassed(w, n, chunk);
    OutConcat(Passed(w, n, chunk), more);
    if Ended(Passed(w, n, chunk) + more) {
      EndedRest(Passed(w, n, chunk), more);
    }
    PrefixBehind(chunk, Out(more), rest);
  }

  lemma CutTells(w: World, n: nat, chunk: Bytes, rest: Bytes)
    ensures Tells(Passed(w, n, chunk) + [Abort], chunk + rest)
  {
    OutPassed(w, n, chunk);
    CutIsNotEnded(Passed(w, n, chunk));
    SentIsPrefix(w, n, chunk);
    PrefixOfLonger(Sent(w, n, chunk), chunk, rest);
  }

  lemma CutIsNotEnded(acts: seq<Act>)
    ensures !Ended(acts + [Abort])
  {
    assert (acts + [Abort])[|acts|] == Abort;
  }

  lemma SentIsPrefix(w: World, n: nat, chunk: Bytes)
    ensures Sent(w, n, chunk) <= chunk
  {
  }

  lemma PrefixOfLonger(a: Bytes, b: Bytes, c: Bytes)
    requires a <= b
    ensures a <= b + c
  {
  }

  lemma {:induction false} OutIsPrefix(w: World, was: Actor, window: int, body: Bytes, offset: nat, n: nat)
    requires offset <= |body|
    ensures Tells(Rounds(w, was, window, body, offset, n), body[offset..])
    decreases |body| - offset, if n == 0 then 1 else 0
  {
    var error := Recheck(was, window, w.rounds(n));
    if n > 0 && offset == |body| {
    } else if error.Some? {
      FailedOut(n, error.value);
    } else {
      var chunk := Chunk(body, offset);
      ChunkSplits(body, offset);
      if w.writes(n).Some? {
        CutTells(w, n, chunk, body[offset + |chunk|..]);
      } else {
        OutIsPrefix(w, was, window, body, offset + |chunk|, n + 1);
        PassedTells(w, n, chunk, Rounds(w, was, window, body, offset + |chunk|, n + 1), body[offset + |chunk|..]);
      }
    }
  }

  lemma PrefixBehind(a: Bytes, b: Bytes, c: Bytes)
    requires b <= c
    ensures a + b <= a + c
  {
  }

  lemma FailedOut(n: nat, error: Error)
    ensures Out(Failed(n, error)) == [] && Failed(n, error)[1] in Failed(n, error)
  {
    var end := if n == 0 then Refuse(error) else Abort;
    OutOne(Check(n, Some(error)));
    OutOne(end);
    OutConcat([Check(n, Some(error))], [end]);
    assert [Check(n, Some(error))] + [end] == Failed(n, error);
  }

  // ---------- Every byte is behind a passed check ----------

  /** The act at i follows a recheck that passed, with nothing between them
      but the headers, and no other chunk shares that recheck. */
  ghost predicate Behind(acts: seq<Act>, i: nat, w: World, was: Actor, window: int)
    requires i < |acts|
  {
    || (i >= 1 && Vouched(acts[i - 1], w, was, window))
    || (i >= 2 && acts[i - 1].Commit? && Vouched(acts[i - 2], w, was, window))
  }

  ghost predicate Vouched(a: Act, w: World, was: Actor, window: int) {
    a.Check? && a.failed.None? && Passes(was, window, w.rounds(a.round))
  }

  ghost predicate AllBehind(acts: seq<Act>, w: World, was: Actor, window: int) {
    forall i | 0 <= i < |acts| && (acts[i].Send? || acts[i].Commit?) :: Behind(acts, i, w, was, window)
  }

  lemma BehindConcat(a: seq<Act>, b: seq<Act>, w: World, was: Actor, window: int)
    requires AllBehind(a, w, was, window) && AllBehind(b, w, was, window)
    ensures AllBehind(a + b, w, was, window)
  {
    forall i | 0 <= i < |a + b| && ((a + b)[i].Send? || (a + b)[i].Commit?)
      ensures Behind(a + b, i, w, was, window)
    {
      if i < |a| {
        assert Behind(a, i, w, was, window);
      } else {
        assert Behind(b, i - |a|, w, was, window);
      }
    }
  }

  lemma PassedBehind(w: World, was: Actor, window: int, n: nat, chunk: Bytes)
    requires Recheck(was, window, w.rounds(n)).None?
    ensures AllBehind(Passed(w, n, chunk), w, was, window)
  {
    RecheckIsPass(was, window, w.rounds(n));
    assert Vouched(Check(n, None), w, was, window);
    if n == 0 {
      assert Passed(w, n, chunk) == [Check(n, None), Commit(w.head), Send(Sent(w, n, chunk))];
    } else {
      assert Passed(w, n, chunk) == [Check(n, None), Send(Sent(w, n, chunk))];
    }
  }

  lemma {:induction false} RoundsBehind(w: World, was: Actor, window: int, body: Bytes, offset: nat, n: nat)
    requires offset <= |body|
    ensures AllBehind(Rounds(w, was, window, body, offset, n), w, was, window)
    decreases |body| - offset, if n == 0 then 1 else 0
  {
    if !(n > 0 && offset == |body|) {
      var error := Recheck(was, window, w.rounds(n));
      if error.None? {
        var chunk := Chunk(body, offset);
        PassedBehind(w, was, window, n, chunk);
        if w.writes(n).Some? {
          BehindConcat(Passed(w, n, chunk), [Abort], w, was, window);
        } else {
          RoundsBehind(w, was, window, body, offset + |chunk|, n + 1);
          BehindConcat(Passed(w, n, chunk), Rounds(w, was, window, body, offset + |chunk|, n + 1), w, was, window);
        }
      }
    }
  }

  // ---------- Each chunk has a check of its own ----------

  /** The rechecks of the acts, in order. */
  function CheckRounds(acts: seq<Act>): seq<nat> {
    if acts == [] then []
    else (match acts[0] case Check(n, _) => [n] case _ => []) + CheckRounds(acts[1..])
  }

  /** n, n + 1, and so on. */
  function Upward(n: nat, count: nat): seq<nat> {
    seq(count, i requires 0 <= i < count => n + i)
  }

  lemma AssociateRounds(a: seq<nat>, b: seq<nat>, c: seq<nat>)
    ensures (a + b) + c == a + (b + c)
  {
  }

  lemma {:induction false} RoundsConcat(a: seq<Act>, b: seq<Act>)
    ensures CheckRounds(a + b) == CheckRounds(a) + CheckRounds(b)
  {
    if a == [] {
      assert a + b == b;
    } else {
      assert (a + b)[1..] == a[1..] + b;
      RoundsConcat(a[1..], b);
      AssociateRounds(match a[0] case Check(n, _) => [n] case _ => [], CheckRounds(a[1..]), CheckRounds(b));
    }
  }

  /** The main result. Nothing of the answer, headers included, goes out but
      behind a recheck that passed just before it; what goes out is the
      beginning of the body; and when the emission is neither refused nor cut
      off, it is all of it, the empty body included. */
  lemma GuardedIsSafe(w: World, was: Actor, window: int, body: Bytes, takesDeadline: bool)
    ensures var acts := Guarded(w, was, window, body, takesDeadline);
            && AllBehind(acts, w, was, window)
            && Out(acts) <= body
            && (Ended(acts) ==> Out(acts) == body && Commit(w.head) in acts)
  {
    if takesDeadline {
      RoundsBehind(w, was, window, body, 0, 0);
      OutIsPrefix(w, was, window, body, 0, 0);
      assert body[0..] == body;
      EndedCommits(w, was, window, body);
    } else {
      OutOne(Refuse(Unavailable));
      assert Refuse(Unavailable) in [Refuse(Unavailable)];
    }
  }

  lemma EndedCommits(w: World, was: Actor, window: int, body: Bytes)
    ensures var acts := Rounds(w, was, window, body, 0, 0); Ended(acts) ==> Commit(w.head) in acts
  {
    var acts := Rounds(w, was, window, body, 0, 0);
    var error := Recheck(was, window, w.rounds(0));
    if error.Some? {
      assert Refuse(error.value) in acts;
    } else {
      assert acts[1] == Commit(w.head);
    }
  }

  /** When the first recheck fails, or the connection takes no deadline, the
      answer is refused and no part of it, nor its headers, goes out. */
  lemma FirstRefusalWithholds(w: World, was: Actor, window: int, body: Bytes, takesDeadline: bool)
    requires !takesDeadline || !Passes(was, window, w.rounds(0))
    ensures var acts := Guarded(w, was, window, body, takesDeadline);
            && (forall a | a in acts :: !a.Commit?) && Out(acts) == [] && (forall a | a in acts :: !a.Send?)
            && acts != [] && acts[|acts| - 1].Refuse?
  {
    RecheckIsPass(was, window, w.rounds(0));
    if takesDeadline {
      var e := Recheck(was, window, w.rounds(0));
      FailedOut(0, e.value);
    } else {
      OutOne(Refuse(Unavailable));
    }
  }

  lemma {:induction false} RoundsGoOut(w: World, was: Actor, window: int, body: Bytes, offset: nat, n: nat)
    requires offset <= |body| && forall k: nat :: Passes(was, window, w.rounds(k)) && w.writes(k).None?
    ensures Ended(Rounds(w, was, window, body, offset, n))
    decreases |body| - offset, if n == 0 then 1 else 0
  {
    RecheckIsPass(was, window, w.rounds(n));
    if !(n > 0 && offset == |body|) {
      RoundsGoOut(w, was, window, body, offset + |Chunk(body, offset)|, n + 1);
    }
  }

  /** And nothing is withheld without cause: where every recheck passes and
      every write does, the whole answer goes out. */
  lemma PassedGoesOut(w: World, was: Actor, window: int, body: Bytes)
    requires forall k: nat :: Passes(was, window, w.rounds(k)) && w.writes(k).None?
    ensures var acts := Guarded(w, was, window, body, true);
            Ended(acts) && Commit(w.head) in acts && Out(acts) == body
  {
    RoundsGoOut(w, was, window, body, 0, 0);
    GuardedIsSafe(w, was, window, body, true);
  }

  /** Headers go out exactly when the connection takes a deadline and the
      first recheck passes. */
  lemma HeadersExactlyWhen(w: World, was: Actor, window: int, body: Bytes, takesDeadline: bool)
    ensures Commit(w.head) in Guarded(w, was, window, body, takesDeadline) <==>
              takesDeadline && Passes(was, window, w.rounds(0))
  {
    var acts := Guarded(w, was, window, body, takesDeadline);
    RecheckIsPass(was, window, w.rounds(0));
    if takesDeadline && Passes(was, window, w.rounds(0)) {
      assert acts[1] == Commit(w.head);
    } else {
      FirstRefusalWithholds(w, was, window, body, takesDeadline);
    }
  }

  lemma PassedCounts(w: World, n: nat, chunk: Bytes)
    ensures CheckRounds(Passed(w, n, chunk)) == [n] && CheckRounds(Passed(w, n, chunk) + [Abort]) == [n]
  {
    var bytes := Sent(w, n, chunk);
    assert [Check(n, None)][1..] == [] && [Commit(w.head)][1..] == [] && [Send(bytes)][1..] == [] && [Abort][1..] == [];
    RoundsConcat([Check(n, None)] + (if n == 0 then [Commit(w.head)] else []), [Send(bytes)]);
    RoundsConcat([Check(n, None)], if n == 0 then [Commit(w.head)] else []);
    RoundsConcat(Passed(w, n, chunk), [Abort]);
  }

  lemma FailedCounts(n: nat, error: Error)
    ensures CheckRounds(Failed(n, error)) == [n]
  {
    var end := if n == 0 then Refuse(error) else Abort;
    assert Failed(n, error)[1..] == [end] && [end][1..] == [];
    assert CheckRounds([end]) == [];
  }

  /** Each recheck of the acts is the next one, from n on. */
  predicate InTurn(acts: seq<Act>, n: nat) {
    CheckRounds(acts) == Upward(n, |CheckRounds(acts)|)
  }

  lemma PassedInTurn(w: World, n: nat, chunk: Bytes, more: seq<Act>)
    requires InTurn(more, n + 1)
    ensures InTurn(Passed(w, n, chunk) + more, n)
  {
    PassedCounts(w, n, chunk);
    RoundsConcat(Passed(w, n, chunk), more);
    assert [n] + Upward(n + 1, |CheckRounds(more)|) == Upward(n, |CheckRounds(more)| + 1);
  }

  lemma CutInTurn(w: World, n: nat, chunk: Bytes)
    ensures InTurn(Passed(w, n, chunk) + [Abort], n)
  {
    PassedCounts(w, n, chunk);
  }

  /** The rechecks are the first, the second and so on, each made once, so no
      chunk goes out on the strength of an earlier chunk's recheck. */
  lemma {:induction false} ChecksAreFresh(w: World, was: Actor, window: int, body: Bytes, offset: nat, n: nat)
    requires offset <= |body|
    ensures InTurn(Rounds(w, was, window, body, offset, n), n)
    decreases |body| - offset, if n == 0 then 1 else 0
  {
    var error := Recheck(was, window, w.rounds(n));
    if n > 0 && offset == |body| {
    } else if error.Some? {
      FailedCounts(n, error.value);
    } else {
      var chunk := Chunk(body, offset);
      if w.writes(n).Some? {
        CutInTurn(w, n, chunk);
      } else {
        ChecksAreFresh(w, was, window, body, offset + |chunk|, n + 1);
        PassedInTurn(w, n, chunk, Rounds(w, was, window, body, offset + |chunk|, n + 1));
      }
    }
  }

  // ---------- The whole answer ----------

  /** commit's status and Content-Length, the latter set exactly for a status
      that carries a body. */
  function HeadOf(h: Held): Head {
    Head(StatusOrOK(h), if BodyAllowed(StatusOrOK(h)) then Some(|h.body|) else None)
  }

  /** emitting: an answer over the limit is refused, one whose verifier
      cannot recheck goes out at once, and every other is guarded. */
  function Emitting(w: World, was: Actor, window: int, h: Held, rechecks: bool, takesDeadline: bool): seq<Act>
    requires w.head == HeadOf(h)
  {
    if h.tooLarge then [Refuse(ResponseTooLarge)]
    else if !rechecks then [Commit(w.head), Send(Sent(w, 0, Sendable(h)))]
    else Guarded(w, was, window, Sendable(h), takesDeadline)
  }

  lemma AtOnce(w: World, body: Bytes)
    ensures Out([Commit(w.head), Send(Sent(w, 0, body))]) == Sent(w, 0, body)
  {
    OutOne(Send(Sent(w, 0, body)));
    assert [Commit(w.head), Send(Sent(w, 0, body))][1..] == [Send(Sent(w, 0, body))];
  }

  /** The one head that can go out. */
  predicate OneHead(acts: seq<Act>, head: Head) {
    forall a | a in acts && a.Commit? :: a.head == head
  }

  lemma {:induction false} RoundsHead(w: World, was: Actor, window: int, body: Bytes, offset: nat, n: nat)
    requires offset <= |body|
    ensures OneHead(Rounds(w, was, window, body, offset, n), w.head)
    decreases |body| - offset, if n == 0 then 1 else 0
  {
    if !(n > 0 && offset == |body|) && Recheck(was, window, w.rounds(n)).None? && w.writes(n).None? {
      RoundsHead(w, was, window, body, offset + |Chunk(body, offset)|, n + 1);
    }
  }

  /** A status whose answer has no body: section 15 of RFC 9110. */
  predicate Bodiless(status: int) {
    status == 204 || status == 304
  }

  /** Whatever the handler wrote, in however many calls, the client gets the
      status of its first settling call and the beginning of exactly what it
      wrote, and none of it when it is over the limit or the status has no
      body. A guarded answer that was neither refused nor cut off is all of
      it, and a body shorter than the length announced always shows. */
  lemma AnswerIsWhole(limit: nat, calls: seq<Call>, w: World, was: Actor, window: int, rechecks: bool, takesDeadline: bool)
    requires w.head == HeadOf(TakeAll(Held(0, [], limit, false, false), calls))
    ensures var h := TakeAll(Held(0, [], limit, false, false), calls);
            var acts := Emitting(w, was, window, h, rechecks, takesDeadline);
            var bodiless := Bodiless(AnswerStatus(calls));
            && Out(acts) <= Said(calls)
            && (|Said(calls)| > limit ==> acts == [Refuse(ResponseTooLarge)] && Out(acts) == [])
            && (bodiless ==> Out(acts) == [])
            && (|Said(calls)| <= limit ==>
                  && OneHead(acts, Head(AnswerStatus(calls), if bodiless then None else Some(|Said(calls)|)))
                  && acts != [Refuse(ResponseTooLarge)]
                  && (!rechecks && !bodiless && w.writes(0).None? ==> Out(acts) == Said(calls))
                  && (!bodiless ==> (|Out(acts)| == |Said(calls)| <==> Out(acts) == Said(calls)))
                  && (!bodiless && rechecks && Ended(acts) ==> Out(acts) == Said(calls)))
  {
    var h := TakeAll(Held(0, [], limit, false, false), calls);
    BufferIsExact(limit, calls);
    StatusIsExact(limit, calls);
    StatusIsFirst(limit, calls);
    OutOne(Refuse(ResponseTooLarge));
    AtOnce(w, Sendable(h));
    SentIsPrefix(w, 0, Sendable(h));
    GuardedIsSafe(w, was, window, Sendable(h), takesDeadline);
    RoundsHead(w, was, window, Sendable(h), 0, 0);
  }
}
