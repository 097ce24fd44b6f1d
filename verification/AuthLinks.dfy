/** Sign-in links kept as records in an object store (auth/recordlinks.go):
    each call is a program of single store operations, and any number of them
    run interleaved with each other and with the sweeper. */
module AuthLinks {
  import opened Digits

  // ---------- Time ----------

  /** Instants count nanoseconds, as time.Time does; a link's expiry is kept
      in whole seconds. */
  const SECOND := 1_000_000_000
  const DAY := 86_400 * SECOND

  /** LinkTTL, 15 minutes. */
  const LINK_TTL := 900 * SECOND

  /** linkDay: the UTC day of an instant. */
  function LinkDay(t: int): int {
    t / DAY
  }

  /** time.Unix(exp, 0) and Time.Unix. */
  function Unix(t: int): int {
    t / SECOND
  }

  // ---------- Records ----------

  datatype Key = Link(day: int, hash: string) | Used(day: int, hash: string)

  datatype Record = LinkRecord(purpose: string, exp: int) | Marker

  type Store = map<Key, Record>

  predicate Holds(s: Store, day: int, hash: string) {
    Link(day, hash) in s && s[Link(day, hash)].LinkRecord?
  }

  // ---------- The calls, alone ----------

  /** What one PutLink leaves: Create never replaces a record. */
  function Put(s: Store, now: int, hash: string, purpose: string, expires: int): Store {
    var k := Link(LinkDay(now), hash);
    if k in s then s else s[k := LinkRecord(purpose, Unix(expires))]
  }

  /** The day a redemption finds the link under: today, then yesterday. */
  function Found(s: Store, now: int, hash: string): Option<int> {
    if Holds(s, LinkDay(now), hash) then Some(LinkDay(now))
    else if Holds(s, LinkDay(now) - 1, hash) then Some(LinkDay(now) - 1)
    else None
  }

  /** What one TakeLink leaves and whether it answers ok, when nothing else
      runs and the store does not fail. */
  function Redeem(s: Store, now: int, hash: string, purpose: string): (Store, bool) {
    match Found(s, now, hash)
    case None => (s, false)
    case Some(day) =>
      var r := s[Link(day, hash)];
      if r.purpose != purpose || Used(day, hash) in s then (s, false)
      else (s[Used(day, hash) := Marker] - {Link(day, hash)}, now <= r.exp * SECOND)
  }

  predicate Swept(k: Key, now: int) {
    k.day < LinkDay(now) - 1
  }

  function Kept(s: Store, now: int): Store {
    map k | k in s && !Swept(k, now) :: s[k]
  }

  /** The store as the calls use it, one record operation after another. */
  class Links {
    var records: Store

    constructor ()
      ensures records == map[]
    {
      records := map[];
    }

    /** Create wins once: false is ErrExists. */
    method Create(k: Key, r: Record) returns (created: bool)
      modifies this
      ensures created <==> k !in old(records)
      ensures records == if created then old(records)[k := r] else old(records)
    {
      if k in records {
        return false;
      }
      records := records[k := r];
      return true;
    }

    method PutLink(now: int, hash: string, purpose: string, expires: int) returns (created: bool)
      modifies this
      ensures records == Put(old(records), now, hash, purpose, expires)
      ensures created <==> Link(LinkDay(now), hash) !in old(records)
      ensures records == if created then old(records)[Link(LinkDay(now), hash) := LinkRecord(purpose, Unix(expires))]
                         else old(records)
    {
      created := Create(Link(LinkDay(now), hash), LinkRecord(purpose, Unix(expires)));
    }

    method TakeLink(now: int, hash: string, purpose: string) returns (ok: bool)
      modifies this
      ensures (records, ok) == Redeem(old(records), now, hash, purpose)
    {
      var days := [LinkDay(now), LinkDay(now) - 1];
      var found: Option<int> := None;
      for i := 0 to 2
        invariant records == old(records)
        invariant found == if i == 0 then None
                           else if Holds(records, days[0], hash) then Some(days[0])
                           else if i == 2 && Holds(records, days[1], hash) then Some(days[1])
                           else None
      {
        if Holds(records, days[i], hash) {
          found := Some(days[i]);
          break;
        }
      }
      if found.None? {
        return false;
      }
      var day := found.value;
      var rec := records[Link(day, hash)];
      if rec.purpose != purpose {
        return false;
      }
      var created := Create(Used(day, hash), Marker);
      if !created {
        return false;
      }
      records := records - {Link(day, hash)};
      return now <= rec.exp * SECOND;
    }

    /** sweep: every record of a day before yesterday goes, and no other. */
    method Sweep(now: int)
      modifies this
      ensures records == Kept(old(records), now)
    {
      var keys := records.Keys;
      while keys != {}
        invariant keys <= old(records).Keys
        invariant records == map k | k in old(records) && (k in keys || !Swept(k, now)) :: old(records)[k]
        decreases |keys|
      {
        var k :| k in keys;
        keys := keys - {k};
        if Swept(k, now) {
          records := records - {k};
        }
      }
    }
  }

  // ---------- The calls, interleaved ----------

  /** Where a TakeLink call stands: about to read today's link, yesterday's,
      create the marker, or delete the link; or it has returned. */
  datatype Stage = ReadToday | ReadYesterday | Marking | Removing | Returned(ok: bool)

  datatype Call = Call(start: int, hash: string, purpose: string, stage: Stage, day: int, exp: int)

  /** A PutLink call between reading the clock and creating its record. */
  datatype Putting = Putting(day: int, hash: string, purpose: string, exp: int)

  /** The clock, the store and every call begun. issued remembers what was
      asked for under each hash. */
  datatype World = World(
    limit: int, clock: int, store: Store, issued: map<string, Putting>,
    puts: map<nat, Putting>, calls: map<nat, Call>, sweeps: map<nat, int>)

  /** How a write to the store goes: it works, or it reports an error, having
      had its effect or not. */
  datatype Fate = Works | Fails | WorksButFails

  datatype Step =
    | Tick(passed: nat)
    | BeginPut(id: nat, hash: string, purpose: string, expires: int)
    | EndPut(id: nat, fate: Fate)
    | BeginTake(id: nat, hash: string, purpose: string)
    | ReadLink(id: nat)
    | Mark(id: nat, fate: Fate)
    | Remove(id: nat, fate: Fate)
    | Abandon(id: nat)
    | BeginSweep(id: nat)
    | SweepKey(id: nat, key: Key)

  /** A link for a fresh hash, at most LinkTTL ahead. */
  function DoBeginPut(w: World, id: nat, hash: string, purpose: string, expires: int): World {
    if id in w.puts || hash in w.issued || expires > w.clock + LINK_TTL then w
    else
      var p := Putting(LinkDay(w.clock), hash, purpose, Unix(expires));
      w.(puts := w.puts[id := p], issued := w.issued[hash := p])
  }

  function DoEndPut(w: World, id: nat, fate: Fate): World {
    if id !in w.puts || fate == Fails then w
    else
      var p := w.puts[id];
      if Link(p.day, p.hash) in w.store then w
      else w.(store := w.store[Link(p.day, p.hash) := LinkRecord(p.purpose, p.exp)])
  }

  function DoBeginTake(w: World, id: nat, hash: string, purpose: string): World {
    if id in w.calls then w
    else w.(calls := w.calls[id := Call(w.clock, hash, purpose, ReadToday, 0, 0)])
  }

  /** The call id, if it is still within its time limit. */
  predicate Running(w: World, id: nat) {
    id in w.calls && !w.calls[id].stage.Returned? && w.clock - w.calls[id].start <= w.limit
  }

  function Move(w: World, id: nat, stage: Stage): World
    requires id in w.calls
  {
    w.(calls := w.calls[id := w.calls[id].(stage := stage)])
  }

  function DoReadLink(w: World, id: nat): World {
    if !Running(w, id) || !(w.calls[id].stage.ReadToday? || w.calls[id].stage.ReadYesterday?) then w
    else
      var c := w.calls[id];
      var day := if c.stage.ReadToday? then LinkDay(c.start) else LinkDay(c.start) - 1;
      if !Holds(w.store, day, c.hash) then Move(w, id, if c.stage.ReadToday? then ReadYesterday else Returned(false))
      else
        var r := w.store[Link(day, c.hash)];
        if r.purpose != c.purpose then Move(w, id, Returned(false))
        else w.(calls := w.calls[id := c.(stage := Marking, day := day, exp := r.exp)])
  }

  function DoMark(w: World, id: nat, fate: Fate): World {
    if !Running(w, id) || !w.calls[id].stage.Marking? then w
    else
      var k := Used(w.calls[id].day, w.calls[id].hash);
      if fate == Fails || k in w.store then Move(w, id, Returned(false))
      else Move(w.(store := w.store[k := Marker]), id, if fate == Works then Removing else Returned(false))
  }

  function DoRemove(w: World, id: nat, fate: Fate): World {
    if !Running(w, id) || !w.calls[id].stage.Removing? then w
    else
      var c := w.calls[id];
      var left := if fate == Fails then w.store else w.store - {Link(c.day, c.hash)};
      Move(w.(store := left), id, Returned(c.start <= c.exp * SECOND))
  }

  /** The caller gives up, or a read fails. */
  function DoAbandon(w: World, id: nat): World {
    if id !in w.calls || w.calls[id].stage.Returned? then w else Move(w, id, Returned(false))
  }

  function DoSweepKey(w: World, id: nat, k: Key): World {
    if id !in w.sweeps || !Swept(k, w.sweeps[id]) then w else w.(store := w.store - {k})
  }

  function Apply(w: World, s: Step): World {
    match s
    case Tick(passed) => w.(clock := w.clock + passed)
    case BeginPut(id, hash, purpose, expires) => DoBeginPut(w, id, hash, purpose, expires)
    case EndPut(id, fate) => DoEndPut(w, id, fate)
    case BeginTake(id, hash, purpose) => DoBeginTake(w, id, hash, purpose)
    case ReadLink(id) => DoReadLink(w, id)
    case Mark(id, fate) => DoMark(w, id, fate)
    case Remove(id, fate) => DoRemove(w, id, fate)
    case Abandon(id) => DoAbandon(w, id)
    case BeginSweep(id) => if id in w.sweeps then w else w.(sweeps := w.sweeps[id := w.clock])
    case SweepKey(id, k) => DoSweepKey(w, id, k)
  }

  function Empty(limit: int, clock: int): World {
    World(limit, clock, map[], map[], map[], map[], map[])
  }

  function Run(w: World, steps: seq<Step>): World {
    if steps == [] then w else Apply(Run(w, steps[..|steps| - 1]), steps[|steps| - 1])
  }
}
