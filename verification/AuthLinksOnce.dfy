/** A link is redeemed at most once, in every interleaving of redemptions,
    requests for links and sweeps, exactly when a call may last no longer than
    a day less the link's lifetime. */
module AuthLinksOnce {
  import opened Digits
  import opened AuthLinks

  // ---------- What every run keeps ----------

  /** A link issued on a day has expired LinkTTL into the next one. */
  predicate Sound(day: int, exp: int) {
    exp * SECOND <= (day + 1) * DAY + LINK_TTL - SECOND
  }

  /** The link of this hash was issued once, with just this content. */
  predicate Issued(w: World, day: int, hash: string, purpose: string, exp: int) {
    hash in w.issued && w.issued[hash] == Putting(day, hash, purpose, exp)
  }

  predicate IssuedSound(w: World) {
    forall hash | hash in w.issued :: Sound(w.issued[hash].day, w.issued[hash].exp)
  }

  ghost predicate StoreSound(w: World) {
    forall day, hash | Holds(w.store, day, hash) ::
      Issued(w, day, hash, w.store[Link(day, hash)].purpose, w.store[Link(day, hash)].exp)
  }

  predicate PutsSound(w: World) {
    forall id | id in w.puts :: Issued(w, w.puts[id].day, w.puts[id].hash, w.puts[id].purpose, w.puts[id].exp)
  }

  /** The call has read its link. */
  predicate HasLink(c: Call) {
    c.stage.Marking? || c.stage.Removing? || c.stage == Returned(true)
  }

  predicate CallsSound(w: World) {
    forall id | id in w.calls && HasLink(w.calls[id]) ::
      Issued(w, w.calls[id].day, w.calls[id].hash, w.calls[id].purpose, w.calls[id].exp)
  }

  /** The call made the marker and will answer, or has answered, ok. */
  predicate Wins(c: Call) {
    (c.stage.Removing? && c.start <= c.exp * SECOND) || c.stage == Returned(true)
  }

  /** The marker stands until the day after tomorrow. */
  predicate Guarded(w: World, c: Call) {
    Used(c.day, c.hash) in w.store || w.clock >= (c.day + 2) * DAY
  }

  predicate WinnersGuarded(w: World) {
    forall id | id in w.calls && Wins(w.calls[id]) :: Guarded(w, w.calls[id])
  }

  predicate OneWinner(w: World) {
    forall i, j | i in w.calls && j in w.calls && Wins(w.calls[i]) && Wins(w.calls[j]) && w.calls[i].hash == w.calls[j].hash ::
      i == j
  }

  predicate ClocksPast(w: World) {
    && (forall id | id in w.calls :: w.calls[id].start <= w.clock)
    && forall id | id in w.sweeps :: w.sweeps[id] <= w.clock
  }

  ghost predicate Inv(w: World) {
    && IssuedSound(w) && StoreSound(w) && PutsSound(w) && CallsSound(w)
    && WinnersGuarded(w) && OneWinner(w) && ClocksPast(w)
  }

  /** How long a call may last. */
  const SAFE_LIMIT := DAY - LINK_TTL + SECOND

  // ---------- Each step keeps it ----------

  lemma IssuedIsSound(clock: int, expires: int)
    requires expires <= clock + LINK_TTL
    ensures Sound(LinkDay(clock), Unix(expires))
  {
  }

  lemma BeginPutKeeps(w: World, id: nat, hash: string, purpose: string, expires: int)
    requires Inv(w)
    ensures Inv(DoBeginPut(w, id, hash, purpose, expires))
  {
    if !(id in w.puts || hash in w.issued || expires > w.clock + LINK_TTL) {
      IssuedIsSound(w.clock, expires);
    }
  }

  lemma EndPutKeeps(w: World, id: nat, fate: Fate)
    requires Inv(w)
    ensures Inv(DoEndPut(w, id, fate))
  {
  }

  lemma BeginTakeKeeps(w: World, id: nat, hash: string, purpose: string)
    requires Inv(w)
    ensures Inv(DoBeginTake(w, id, hash, purpose))
  {
  }

  /** A call that moves on without its link and without a win. */
  lemma MoveKeeps(w: World, id: nat, stage: Stage)
    requires Inv(w) && id in w.calls && (stage == ReadYesterday || stage == Returned(false))
    ensures Inv(Move(w, id, stage))
  {
  }

  lemma TakesLinkKeeps(w: World, id: nat, c: Call)
    requires Inv(w) && c.stage.Marking? && c.start <= w.clock && Issued(w, c.day, c.hash, c.purpose, c.exp)
    ensures Inv(w.(calls := w.calls[id := c]))
  {
  }

  lemma ReadLinkKeeps(w: World, id: nat)
    requires Inv(w)
    ensures Inv(DoReadLink(w, id))
  {
    if Running(w, id) && (w.calls[id].stage.ReadToday? || w.calls[id].stage.ReadYesterday?) {
      var c := w.calls[id];
      var day := if c.stage.ReadToday? then LinkDay(c.start) else LinkDay(c.start) - 1;
      if !Holds(w.store, day, c.hash) {
        MoveKeeps(w, id, if c.stage.ReadToday? then ReadYesterday else Returned(false));
      } else if w.store[Link(day, c.hash)].purpose != c.purpose {
        MoveKeeps(w, id, Returned(false));
      } else {
        TakesLinkKeeps(w, id, c.(stage := Marking, day := day, exp := w.store[Link(day, c.hash)].exp));
      }
    }
  }

  /** A call that makes the marker of a link already redeemed would have to be
      older than a call may get. */
  lemma MarkedOnce(w: World, id: nat, other: nat)
    requires Inv(w) && w.limit < SAFE_LIMIT && Running(w, id) && w.calls[id].stage.Marking?
    requires Used(w.calls[id].day, w.calls[id].hash) !in w.store && w.calls[id].start <= w.calls[id].exp * SECOND
    requires other in w.calls && Wins(w.calls[other])
    ensures w.calls[other].hash != w.calls[id].hash
  {
    var c, o := w.calls[id], w.calls[other];
    if o.hash == c.hash {
      assert Issued(w, c.day, c.hash, c.purpose, c.exp) && Issued(w, o.day, o.hash, o.purpose, o.exp);
      assert Guarded(w, o);
    }
  }

  lemma MarkerKeeps(w: World, day: int, hash: string)
    requires Inv(w)
    ensures Inv(w.(store := w.store[Used(day, hash) := Marker]))
  {
  }

  /** A call goes on to delete its link, its marker made. */
  lemma WinKeeps(w: World, id: nat)
    requires Inv(w) && id in w.calls && w.calls[id].stage.Marking? && Used(w.calls[id].day, w.calls[id].hash) in w.store
    requires w.calls[id].start <= w.calls[id].exp * SECOND ==>
               forall other | other in w.calls && Wins(w.calls[other]) :: w.calls[other].hash != w.calls[id].hash
    ensures Inv(Move(w, id, Removing))
  {
  }

  lemma MarkKeeps(w: World, id: nat, fate: Fate)
    requires Inv(w) && w.limit < SAFE_LIMIT
    ensures Inv(DoMark(w, id, fate))
  {
    if Running(w, id) && w.calls[id].stage.Marking? {
      var c := w.calls[id];
      if fate == Fails || Used(c.day, c.hash) in w.store {
        MoveKeeps(w, id, Returned(false));
      } else {
        var marked := w.(store := w.store[Used(c.day, c.hash) := Marker]);
        MarkerKeeps(w, c.day, c.hash);
        if fate != Works {
          MoveKeeps(marked, id, Returned(false));
        } else {
          if c.start <= c.exp * SECOND {
            forall other | other in w.calls && Wins(w.calls[other])
              ensures w.calls[other].hash != c.hash
            {
              MarkedOnce(w, id, other);
            }
          }
          WinKeeps(marked, id);
        }
      }
    }
  }

  lemma RemoveKeeps(w: World, id: nat, fate: Fate)
    requires Inv(w)
    ensures Inv(DoRemove(w, id, fate))
  {
  }

  lemma AbandonKeeps(w: World, id: nat)
    requires Inv(w)
    ensures Inv(DoAbandon(w, id))
  {
  }

  lemma SweepKeyKeeps(w: World, id: nat, k: Key)
    requires Inv(w)
    ensures Inv(DoSweepKey(w, id, k))
  {
  }

  lemma StepKeeps(w: World, s: Step)
    requires Inv(w) && w.limit < SAFE_LIMIT
    ensures Inv(Apply(w, s)) && Apply(w, s).limit == w.limit
  {
    match s
    case Tick(passed) =>
    case BeginPut(id, hash, purpose, expires) => BeginPutKeeps(w, id, hash, purpose, expires);
    case EndPut(id, fate) => EndPutKeeps(w, id, fate);
    case BeginTake(id, hash, purpose) => BeginTakeKeeps(w, id, hash, purpose);
    case ReadLink(id) => ReadLinkKeeps(w, id);
    case Mark(id, fate) => MarkKeeps(w, id, fate);
    case Remove(id, fate) => RemoveKeeps(w, id, fate);
    case Abandon(id) => AbandonKeeps(w, id);
    case BeginSweep(id) =>
    case SweepKey(id, k) => SweepKeyKeeps(w, id, k);
  }

  lemma {:induction false} RunKeeps(w: World, steps: seq<Step>)
    requires Inv(w) && w.limit < SAFE_LIMIT
    ensures Inv(Run(w, steps)) && Run(w, steps).limit == w.limit
  {
    if steps != [] {
      RunKeeps(w, steps[..|steps| - 1]);
      StepKeeps(Run(w, steps[..|steps| - 1]), steps[|steps| - 1]);
    }
  }

  /** No two calls for one link have answered ok. */
  predicate RedeemedOnce(w: World) {
    forall i, j | i in w.calls && j in w.calls && w.calls[i].stage == Returned(true)
                  && w.calls[j].stage == Returned(true) && w.calls[i].hash == w.calls[j].hash :: i == j
  }

  /** At most one redemption of a link ever answers ok. */
  lemma AtMostOnce(limit: int, clock: int, steps: seq<Step>)
    requires limit < SAFE_LIMIT
    ensures RedeemedOnce(Run(Empty(limit, clock), steps))
  {
    RunKeeps(Empty(limit, clock), steps);
  }

  // ---------- A longer call breaks it ----------

  lemma {:induction false} RunConcat(w: World, a: seq<Step>, b: seq<Step>)
    ensures Run(w, a + b) == Run(Run(w, a), b)
  {
    if b == [] {
      assert a + b == a;
    } else {
      assert (a + b)[..|a + b| - 1] == a + b[..|b| - 1];
      RunConcat(w, a, b[..|b| - 1]);
    }
  }

  lemma RunTwo(w: World, s: Step, t: Step)
    ensures Run(w, [s, t]) == Apply(Apply(w, s), t)
  {
    assert [s, t][..1] == [s] && [s][..0] == [];
    assert Run(w, []) == w;
  }

  /** The late redemption: both calls read a link in its last second, and the
      second sleeps over the day after. */
  const LATE := DAY + LINK_TTL - SECOND

  lemma IssueLate(limit: int, h: string, p: string)
    ensures var steps := [Tick(DAY - 1), BeginPut(0, h, p, DAY - 1 + LINK_TTL)] + [EndPut(0, Works), Tick(LINK_TTL + 1 - SECOND)];
            var put := Putting(0, h, p, LATE / SECOND);
            Run(Empty(limit, 0), steps) ==
              World(limit, LATE, map[Link(0, h) := LinkRecord(p, LATE / SECOND)],
                    map[h := put], map[0 := put], map[], map[])
  {
    var a, b := [Tick(DAY - 1), BeginPut(0, h, p, DAY - 1 + LINK_TTL)], [EndPut(0, Works), Tick(LINK_TTL + 1 - SECOND)];
    RunConcat(Empty(limit, 0), a, b);
    RunTwo(Empty(limit, 0), a[0], a[1]);
    RunTwo(Run(Empty(limit, 0), a), b[0], b[1]);
  }

  lemma LastCallStands(m: map<nat, Call>, id: nat, a: Call, b: Call)
    ensures m[id := a][id := b] == m[id := b]
  {
  }

  /** What a call is after reading both days, nothing else having run. */
  function ReadAlone(s: Store, now: int, hash: string, purpose: string): Call {
    match Found(s, now, hash)
    case None => Call(now, hash, purpose, Returned(false), 0, 0)
    case Some(day) =>
      var r := s[Link(day, hash)];
      if r.purpose != purpose then Call(now, hash, purpose, Returned(false), 0, 0)
      else Call(now, hash, purpose, Marking, day, r.exp)
  }

  lemma ReadsToday(w: World, id: nat, hash: string, purpose: string)
    requires w.limit >= 0 && id in w.calls && w.calls[id] == Call(w.clock, hash, purpose, ReadToday, 0, 0)
    ensures DoReadLink(w, id) == w.(calls := w.calls[id :=
      if Holds(w.store, LinkDay(w.clock), hash) then ReadAlone(w.store, w.clock, hash, purpose)
      else Call(w.clock, hash, purpose, ReadYesterday, 0, 0)])
  {
  }

  lemma ReadsNext(w: World, id: nat, hash: string, purpose: string)
    requires w.limit >= 0 && id in w.calls && !Holds(w.store, LinkDay(w.clock), hash)
    requires w.calls[id] == Call(w.clock, hash, purpose, ReadYesterday, 0, 0)
    ensures DoReadLink(w, id) == w.(calls := w.calls[id := ReadAlone(w.store, w.clock, hash, purpose)])
  {
  }

  lemma ReadsAlone(w: World, id: nat, hash: string, purpose: string)
    requires id !in w.calls && w.limit >= 0
    ensures Run(w, [BeginTake(id, hash, purpose), ReadLink(id)] + [ReadLink(id)])
         == w.(calls := w.calls[id := ReadAlone(w.store, w.clock, hash, purpose)])
  {
    var begun := DoBeginTake(w, id, hash, purpose);
    var c1 := begun.calls[id];
    ReadsToday(begun, id, hash, purpose);
    var once := DoReadLink(begun, id);
    var c2 := once.calls[id];
    LastCallStands(w.calls, id, c1, c2);
    RunConcat(w, [BeginTake(id, hash, purpose), ReadLink(id)], [ReadLink(id)]);
    RunTwo(w, BeginTake(id, hash, purpose), ReadLink(id));
    RunOne(once, ReadLink(id));
    if !Holds(w.store, LinkDay(w.clock), hash) {
      ReadsNext(once, id, hash, purpose);
      LastCallStands(w.calls, id, c2, ReadAlone(w.store, w.clock, hash, purpose));
    }
  }

  lemma RunOne(w: World, s: Step)
    ensures Run(w, [s]) == Apply(w, s)
  {
    assert [s][..0] == [] && Run(w, []) == w;
  }

  /** A call reads yesterday's link. */
  lemma ReadsYesterday(w: World, id: nat, h: string, p: string, exp: int)
    requires id !in w.calls && w.limit >= 0
    requires !Holds(w.store, LinkDay(w.clock), h) && Holds(w.store, LinkDay(w.clock) - 1, h)
    requires w.store[Link(LinkDay(w.clock) - 1, h)] == LinkRecord(p, exp)
    ensures Run(w, [BeginTake(id, h, p), ReadLink(id)] + [ReadLink(id)])
         == w.(calls := w.calls[id := Call(w.clock, h, p, Marking, LinkDay(w.clock) - 1, exp)])
  {
    ReadsAlone(w, id, h, p);
  }

  /** A call marks its link and returns ok. */
  lemma MarksAndReturns(w: World, id: nat)
    requires Running(w, id) && w.calls[id].stage.Marking?
    requires Used(w.calls[id].day, w.calls[id].hash) !in w.store && w.calls[id].start <= w.calls[id].exp * SECOND
    ensures var c := w.calls[id]; var after := Run(w, [Mark(id, Works), Remove(id, Works)]);
            && after.calls == w.calls[id := c.(stage := Returned(true))]
            && after.store == w.store[Used(c.day, c.hash) := Marker] - {Link(c.day, c.hash)}
            && after == w.(calls := after.calls, store := after.store)
  {
    RunTwo(w, Mark(id, Works), Remove(id, Works));
  }

  lemma SweepsMarker(w: World, h: string)
    requires w.clock == LATE && w.sweeps == map[]
    ensures var steps := [Tick(SAFE_LIMIT), BeginSweep(0)] + [SweepKey(0, Used(0, h))];
            Run(w, steps) == w.(clock := 2 * DAY, sweeps := map[0 := 2 * DAY], store := w.store - {Used(0, h)})
  {
    var a := [Tick(SAFE_LIMIT), BeginSweep(0)];
    RunConcat(w, a, [SweepKey(0, Used(0, h))]);
    RunTwo(w, a[0], a[1]);
    var mid := Run(w, a);
    assert [SweepKey(0, Used(0, h))][..0] == [] && Run(mid, []) == mid;
  }

  /** One nanosecond more than the bound allows, and a link is redeemed twice
      by a call that sleeps while its marker is swept. */
  lemma TwiceWhenSlow(limit: int, h: string, p: string) returns (steps: seq<Step>)
    requires limit >= SAFE_LIMIT
    ensures !RedeemedOnce(Run(Empty(limit, 0), steps))
  {
    var s0 := [Tick(DAY - 1), BeginPut(0, h, p, DAY - 1 + LINK_TTL)] + [EndPut(0, Works), Tick(LINK_TTL + 1 - SECOND)];
    IssueLate(limit, h, p);
    var w0 := Run(Empty(limit, 0), s0);
    var s1 := [BeginTake(0, h, p), ReadLink(0)] + [ReadLink(0)];
    ReadsYesterday(w0, 0, h, p, LATE / SECOND);
    var w1 := Run(w0, s1);
    RunConcat(Empty(limit, 0), s0, s1);
    var s2 := [BeginTake(1, h, p), ReadLink(1)] + [ReadLink(1)];
    ReadsYesterday(w1, 1, h, p, LATE / SECOND);
    var w2 := Run(w1, s2);
    RunConcat(Empty(limit, 0), s0 + s1, s2);
    var s3 := [Mark(0, Works), Remove(0, Works)];
    MarksAndReturns(w2, 0);
    var w3 := Run(w2, s3);
    RunConcat(Empty(limit, 0), s0 + s1 + s2, s3);
    var s4 := [Tick(SAFE_LIMIT), BeginSweep(0)] + [SweepKey(0, Used(0, h))];
    SweepsMarker(w3, h);
    var w4 := Run(w3, s4);
    RunConcat(Empty(limit, 0), s0 + s1 + s2 + s3, s4);
    var s5 := [Mark(1, Works), Remove(1, Works)];
    MarksAndReturns(w4, 1);
    RunConcat(Empty(limit, 0), s0 + s1 + s2 + s3 + s4, s5);
    steps := s0 + s1 + s2 + s3 + s4 + s5;
    assert Run(w4, s5).calls[0].stage == Returned(true) && Run(w4, s5).calls[1].stage == Returned(true);
  }

  /** The exact bound on how long a call may last. */
  lemma OnceExactlyWhen(limit: int)
    ensures (forall clock: int, steps :: RedeemedOnce(Run(Empty(limit, clock), steps))) <==> limit < SAFE_LIMIT
  {
    if limit < SAFE_LIMIT {
      forall clock: int, steps
        ensures RedeemedOnce(Run(Empty(limit, clock), steps))
      {
        AtMostOnce(limit, clock, steps);
      }
    } else {
      var steps := TwiceWhenSlow(limit, "h", "p");
      assert !RedeemedOnce(Run(Empty(limit, 0), steps));
    }
  }

  // ---------- What a token that is not a link's can do ----------

  lemma StrangersStep(w: World, id: nat, s: Step)
    requires id in w.calls && !HasLink(w.calls[id])
    requires (s.ReadLink? || s.Mark? || s.Remove? || s.Abandon?) && s.id == id
    ensures Apply(w, s).store == w.store
  {
  }

  /** No step of a call for an unknown hash, or for another purpose than the
      link's, changes the store, in any run; and no such call answers ok. */
  lemma StrangersWriteNothing(limit: int, clock: int, steps: seq<Step>, id: nat, s: Step)
    requires limit < SAFE_LIMIT && (s.ReadLink? || s.Mark? || s.Remove? || s.Abandon?) && s.id == id
    requires var w := Run(Empty(limit, clock), steps);
             id in w.calls && (w.calls[id].hash in w.issued ==> w.issued[w.calls[id].hash].purpose != w.calls[id].purpose)
    ensures var w := Run(Empty(limit, clock), steps);
            Apply(w, s).store == w.store && w.calls[id].stage != Returned(true)
  {
    RunKeeps(Empty(limit, clock), steps);
    var w := Run(Empty(limit, clock), steps);
    assert HasLink(w.calls[id]) ==> Issued(w, w.calls[id].day, w.calls[id].hash, w.calls[id].purpose, w.calls[id].exp);
    StrangersStep(w, id, s);
  }

  // ---------- What a live link's own call does ----------

  /** A live link is filed under one of the two days a redemption reads. */
  lemma LiveLinkIsRead(put: int, expires: int, now: int)
    requires put <= now <= Unix(expires) * SECOND && expires <= put + LINK_TTL
    ensures LinkDay(put) == LinkDay(now) || LinkDay(put) == LinkDay(now) - 1
  {
  }

  /** The day of the two that a redemption uses: today's when it holds the
      link, yesterday's when only that does. */
  predicate FoundOn(s: Store, now: int, hash: string, day: int) {
    Holds(s, day, hash) && (day == LinkDay(now) || (day == LinkDay(now) - 1 && !Holds(s, LinkDay(now), hash)))
  }

  /** Alone, a redemption answers ok exactly when the link is there for one of
      the two days, asked for with this purpose, not spent and not expired; and
      it writes exactly when the link is there, of this purpose and not spent:
      the marker is put and the link is gone, expired or not. */
  lemma RedeemsExactlyWhen(s: Store, now: int, hash: string, purpose: string)
    ensures var (left, ok) := Redeem(s, now, hash, purpose);
            && (ok <==> exists day ::
                  && FoundOn(s, now, hash, day) && s[Link(day, hash)].purpose == purpose
                  && Used(day, hash) !in s && now <= s[Link(day, hash)].exp * SECOND)
            && (forall day | FoundOn(s, now, hash, day) && s[Link(day, hash)].purpose == purpose && Used(day, hash) !in s ::
                  left == s[Used(day, hash) := Marker] - {Link(day, hash)})
            && ((forall day :: !(FoundOn(s, now, hash, day) && s[Link(day, hash)].purpose == purpose && Used(day, hash) !in s)) ==>
                  left == s)
  {
    if Found(s, now, hash).Some? {
      assert FoundOn(s, now, hash, Found(s, now, hash).value);
    }
  }

  /** A link put in the store answers ok to the first call for it in time, and
      to no call after that. */
  lemma FreshLinkRedeems(s: Store, put: int, hash: string, purpose: string, expires: int, now: int, later: int)
    requires put <= now <= later && expires <= put + LINK_TTL && now <= Unix(expires) * SECOND
    requires forall k | k in s :: k.hash != hash
    ensures var (left, ok) := Redeem(Put(s, put, hash, purpose, expires), now, hash, purpose);
            ok && !Redeem(left, later, hash, purpose).1 && Redeem(left, later, hash, purpose).0 == left
  {
    LiveLinkIsRead(put, expires, now);
    var d := LinkDay(put);
    assert Link(d - 1, hash) !in s && Link(d + 1, hash) !in s && Used(d, hash) !in s;
    var left := Redeem(Put(s, put, hash, purpose, expires), now, hash, purpose).0;
    assert forall day :: !Holds(left, day, hash);
  }

  lemma NotMarking(w: World, id: nat)
    requires id in w.calls && w.calls[id].stage == Returned(false)
    ensures DoRemove(DoMark(w, id, Works), id, Works) == w
  {
  }

  lemma MarkTaken(w: World, id: nat)
    requires Running(w, id) && w.calls[id].stage.Marking? && Used(w.calls[id].day, w.calls[id].hash) in w.store
    ensures var after := DoRemove(DoMark(w, id, Works), id, Works);
            after.store == w.store && id in after.calls && after.calls[id].stage == Returned(false)
  {
  }

  lemma MarkFree(w: World, id: nat)
    requires Running(w, id) && w.calls[id].stage.Marking? && Used(w.calls[id].day, w.calls[id].hash) !in w.store
    ensures var c := w.calls[id]; var after := DoRemove(DoMark(w, id, Works), id, Works);
            && after.store == w.store[Used(c.day, c.hash) := Marker] - {Link(c.day, c.hash)}
            && id in after.calls && after.calls[id].stage == Returned(c.start <= c.exp * SECOND)
  {
  }

  lemma FinishesAlone(w: World, id: nat, hash: string, purpose: string)
    requires w.limit >= 0 && id in w.calls && w.calls[id] == ReadAlone(w.store, w.clock, hash, purpose)
    ensures var after := Run(w, [Mark(id, Works), Remove(id, Works)]);
            && id in after.calls
            && (after.store, after.calls[id].stage) == (Redeem(w.store, w.clock, hash, purpose).0,
                                                        Returned(Redeem(w.store, w.clock, hash, purpose).1))
  {
    RunTwo(w, Mark(id, Works), Remove(id, Works));
    if !w.calls[id].stage.Marking? {
      NotMarking(w, id);
    } else if Used(w.calls[id].day, hash) in w.store {
      MarkTaken(w, id);
    } else {
      MarkFree(w, id);
    }
  }

  /** A call that runs alone, within its limit, is exactly Redeem. */
  lemma AloneIsRedeem(w: World, id: nat, hash: string, purpose: string)
    requires id !in w.calls && w.limit >= 0
    ensures var looks := [BeginTake(id, hash, purpose), ReadLink(id)] + [ReadLink(id)];
            var after := Run(w, looks + [Mark(id, Works), Remove(id, Works)]);
            && id in after.calls
            && (after.store, after.calls[id].stage) == (Redeem(w.store, w.clock, hash, purpose).0,
                                                        Returned(Redeem(w.store, w.clock, hash, purpose).1))
  {
    var looks := [BeginTake(id, hash, purpose), ReadLink(id)] + [ReadLink(id)];
    ReadsAlone(w, id, hash, purpose);
    RunConcat(w, looks, [Mark(id, Works), Remove(id, Works)]);
    FinishesAlone(Run(w, looks), id, hash, purpose);
  }
}
