/** NotifyAt's bounded schedule (live/schedule.go): a min-heap of future
    (time, topic) pairs, kept in place, the set that keeps them distinct, and
    the firing that turns due times into changes of the hub. */
module LiveSchedule {
  import opened Digits
  import opened LiveWire
  import opened LiveHub
  import opened LivePending

  /** The changes one firing makes: a due time and its topics. */
  datatype Change = Change(at: int, topics: seq<string>)

  function Parent(k: nat): nat
    requires k >= 1
  {
    (k - 1) / 2
  }

  /** container/heap's order on the first n entries. */
  ghost predicate HeapTo(q: seq<Pending>, n: nat)
    requires n <= |q|
  {
    forall k | 1 <= k < n :: q[Parent(k)].at <= q[k].at
  }

  /** A heap but for the entry at i, which may be out of place either way. */
  ghost predicate HeapExcept(q: seq<Pending>, n: nat, i: nat)
    requires n <= |q|
  {
    && (forall k | 1 <= k < n && k != i && Parent(k) != i :: q[Parent(k)].at <= q[k].at)
    && (i >= 1 ==> forall k | 1 <= k < n && Parent(k) == i :: q[Parent(i)].at <= q[k].at)
  }

  ghost predicate BelowOk(q: seq<Pending>, n: nat, i: nat)
    requires n <= |q| && i < n
  {
    forall k | 1 <= k < n && Parent(k) == i :: q[i].at <= q[k].at
  }

  ghost predicate AboveOk(q: seq<Pending>, n: nat, i: nat)
    requires i < n <= |q|
  {
    i >= 1 ==> q[Parent(i)].at <= q[i].at
  }

  function Swap(q: seq<Pending>, i: nat, j: nat): seq<Pending>
    requires i < |q| && j < |q|
  {
    q[i := q[j]][j := q[i]]
  }

  /** The earlier of i's children among the first n entries. */
  function EarlierChild(q: seq<Pending>, n: nat, i: nat): (j: nat)
    requires n <= |q| && 2 * i + 1 < n
    ensures i < j < n && Parent(j) == i && forall k | 1 <= k < n && Parent(k) == i :: q[j].at <= q[k].at
  {
    if 2 * i + 2 < n && q[2 * i + 2].at < q[2 * i + 1].at then 2 * i + 2 else 2 * i + 1
  }

  lemma SwapContent(q: seq<Pending>, i: nat, j: nat)
    requires i < |q| && j < |q|
    ensures multiset(Swap(q, i, j)) == multiset(q)
  {
  }

  lemma {:induction false} RootIsLeast(q: seq<Pending>, n: nat, k: nat)
    requires k < n <= |q| && HeapTo(q, n)
    ensures q[0].at <= q[k].at
  {
    if k > 0 {
      RootIsLeast(q, n, Parent(k));
    }
  }

  lemma SiftUpStep(q: seq<Pending>, n: nat, j: nat)
    requires 1 <= j < n <= |q| && HeapExcept(q, n, j) && BelowOk(q, n, j) && q[j].at < q[Parent(j)].at
    ensures HeapExcept(Swap(q, Parent(j), j), n, Parent(j)) && BelowOk(Swap(q, Parent(j), j), n, Parent(j))
  {
    var i := Parent(j);
    var r := Swap(q, i, j);
    forall k | 1 <= k < n
      ensures k != i && Parent(k) != i ==> r[Parent(k)].at <= r[k].at
      ensures Parent(k) == i ==> r[i].at <= r[k].at
      ensures i >= 1 && Parent(k) == i ==> r[Parent(i)].at <= r[k].at
    {
    }
  }

  lemma SiftDownStep(q: seq<Pending>, n: nat, i: nat, j: nat)
    requires i < j < n <= |q| && Parent(j) == i && HeapExcept(q, n, i) && q[j].at < q[i].at
    requires forall k | 1 <= k < n && Parent(k) == i :: q[j].at <= q[k].at
    ensures HeapExcept(Swap(q, i, j), n, j) && AboveOk(Swap(q, i, j), n, j)
  {
    var r := Swap(q, i, j);
    forall k | 1 <= k < n
      ensures k != j && Parent(k) != j ==> r[Parent(k)].at <= r[k].at
      ensures Parent(k) == j ==> r[i].at <= r[k].at
    {
    }
  }

  // ---------- What the schedule keeps ----------

  function Content(q: seq<Pending>): set<Pending> {
    set p | p in q
  }

  ghost predicate NoDuplicates(q: seq<Pending>) {
    forall i, j | 0 <= i < j < |q| :: q[i] != q[j]
  }

  lemma SameContent(q: seq<Pending>, r: seq<Pending>)
    requires multiset(q) == multiset(r)
    ensures Content(q) == Content(r)
  {
    forall p
      ensures p in q <==> p in r
    {
      assert p in multiset(q) <==> p in multiset(r);
    }
  }

  lemma DuplicateFree(q: seq<Pending>)
    ensures NoDuplicates(q) <==> forall p :: multiset(q)[p] <= 1
  {
    if NoDuplicates(q) {
      forall p
        ensures multiset(q)[p] <= 1
      {
        CountOne(q, p);
      }
    } else {
      var i, j :| 0 <= i < j < |q| && q[i] == q[j];
      assert q == q[..j] + [q[j]] + q[j + 1..];
      assert q[..j][i] == q[j];
      assert multiset(q)[q[j]] >= 2;
    }
  }

  lemma {:induction false} CountOne(q: seq<Pending>, p: Pending)
    requires NoDuplicates(q)
    ensures multiset(q)[p] == if p in q then 1 else 0
  {
    if q != [] {
      var front := q[..|q| - 1];
      assert q == front + [q[|q| - 1]];
      CountOne(front, p);
    }
  }

  lemma SameNoDuplicates(q: seq<Pending>, r: seq<Pending>)
    requires multiset(q) == multiset(r) && NoDuplicates(q)
    ensures NoDuplicates(r)
  {
    DuplicateFree(q);
    DuplicateFree(r);
  }

  lemma {:induction false} ContentSize(q: seq<Pending>)
    requires NoDuplicates(q)
    ensures |Content(q)| == |q|
  {
    if q != [] {
      var front := q[..|q| - 1];
      ContentSize(front);
      assert Content(q) == Content(front) + {q[|q| - 1]};
    }
  }

  // ---------- Firing ----------

  function RaiseEach(h: HubState, changes: seq<Change>): HubState {
    if changes == [] then h
    else Raise(RaiseEach(h, changes[..|changes| - 1]), changes[|changes| - 1].topics)
  }

  /** One change per distinct due time of the pairs, earliest first, naming
      exactly the topics due then, each once. */
  ghost predicate Announces(changes: seq<Change>, due: set<Pending>) {
    && (forall i, j | 0 <= i < j < |changes| :: changes[i].at < changes[j].at)
    && (forall i | 0 <= i < |changes| :: NoRepeats(changes[i].topics) && changes[i].topics != [])
    && (forall i, t | 0 <= i < |changes| && t in changes[i].topics :: Pending(changes[i].at, t) in due)
    && (forall p | p in due :: exists i :: 0 <= i < |changes| && changes[i].at == p.at && p.topic in changes[i].topics)
  }

  // ---------- The schedule in place ----------

  class Schedule {
    const hub: Hub
    const max: nat
    var pending: seq<Pending>
    var scheduled: set<PendingKey>
    var timer: Option<int>

    ghost function Waiting(): set<Pending>
      reads this
    {
      Content(pending)
    }

    ghost predicate Valid()
      reads this, hub
    {
      && max >= 1 && hub.Valid()
      && HeapTo(pending, |pending|) && NoDuplicates(pending) && |pending| <= max
      && KeysApart(Waiting()) && scheduled == KeysOf(Waiting())
      && (hub.closed ==> pending == [])
    }

    /** The timer waits for the earliest pair, and for nothing otherwise. */
    ghost predicate Armed()
      reads this
    {
      if pending == [] then timer == None
      else timer == Some(pending[0].at) && forall p | p in Waiting() :: pending[0].at <= p.at
    }

    constructor (hub: Hub, max: nat)
      requires hub.Valid() && max >= 1
      ensures Valid() && Armed() && this.hub == hub && this.max == max && Waiting() == {}
    {
      this.hub, this.max := hub, max;
      pending, scheduled, timer := [], {}, None;
    }

    method Up(from: nat)
      requires from < |pending| && HeapExcept(pending, |pending|, from) && BelowOk(pending, |pending|, from)
      modifies this`pending
      ensures |pending| == |old(pending)| && HeapTo(pending, |pending|)
      ensures multiset(pending) == multiset(old(pending))
    {
      var j: nat := from;
      while j > 0
        invariant j < |pending| == |old(pending)|
        invariant HeapExcept(pending, |pending|, j) && BelowOk(pending, |pending|, j)
        invariant multiset(pending) == multiset(old(pending))
      {
        var i := Parent(j);
        if !(pending[j].at < pending[i].at) {
          return;
        }
        SiftUpStep(pending, |pending|, j);
        SwapContent(pending, i, j);
        pending := Swap(pending, i, j);
        j := i;
      }
    }

    method Down(from: nat, n: nat) returns (moved: bool)
      requires from < n <= |pending| && HeapExcept(pending, n, from)
      modifies this`pending
      ensures |pending| == |old(pending)| && multiset(pending) == multiset(old(pending))
      ensures pending[n..] == old(pending)[n..]
      ensures moved ==> HeapTo(pending, n)
      ensures !moved ==> pending == old(pending) && BelowOk(pending, n, from)
    {
      var i := from;
      while 2 * i + 1 < n
        invariant from <= i < n <= |pending| == |old(pending)|
        invariant HeapExcept(pending, n, i)
        invariant multiset(pending) == multiset(old(pending))
        invariant pending[n..] == old(pending)[n..]
        invariant i == from ==> pending == old(pending)
        invariant i > from ==> AboveOk(pending, n, i)
      {
        var j := EarlierChild(pending, n, i);
        if !(pending[j].at < pending[i].at) {
          break;
        }
        SiftDownStep(pending, n, i, j);
        SwapContent(pending, i, j);
        pending := Swap(pending, i, j);
        i := j;
      }
      moved := i > from;
    }

    method Push(p: Pending)
      requires HeapTo(pending, |pending|)
      modifies this`pending
      ensures HeapTo(pending, |pending|) && |pending| == |old(pending)| + 1
      ensures multiset(pending) == multiset(old(pending)) + multiset{p}
    {
      pending := pending + [p];
      Up(|pending| - 1);
    }

    /** The earliest pair leaves the heap. */
    method Pop() returns (p: Pending)
      requires pending != [] && HeapTo(pending, |pending|)
      modifies this`pending
      ensures HeapTo(pending, |pending|) && |pending| == |old(pending)| - 1
      ensures multiset(pending) + multiset{p} == multiset(old(pending)) && p == old(pending)[0]
    {
      var n := |pending| - 1;
      ghost var was := pending;
      SwapContent(pending, 0, n);
      pending := Swap(pending, 0, n);
      assert pending[n..] == [was[0]];
      if n > 0 {
        var moved := Down(0, n);
      }
      assert pending == pending[..n] + pending[n..];
      p := pending[n];
      pending := pending[..n];
    }

    method Fix(i: nat)
      requires i < |pending| && HeapExcept(pending, |pending|, i)
      modifies this`pending
      ensures |pending| == |old(pending)| && HeapTo(pending, |pending|)
      ensures multiset(pending) == multiset(old(pending))
    {
      var moved := Down(i, |pending|);
      if !moved {
        Up(i);
      }
    }

    /** The first position of a latest-due pair. */
    method Latest() returns (last: nat)
      requires pending != []
      ensures last < |pending| && forall k | 0 <= k < |pending| :: pending[k].at <= pending[last].at
    {
      last := 0;
      for i := 0 to |pending|
        invariant last < |pending| && forall k | 0 <= k < i :: pending[k].at <= pending[last].at
      {
        if pending[i].at > pending[last].at {
          last := i;
        }
      }
    }

    /** scheduleLocked: false when the bound dropped a pair. */
    method ScheduleLocked(at: int, topic: string) returns (ok: bool)
      requires Valid() && !hub.closed
      modifies this`pending, this`scheduled
      ensures Valid() && AddsByKey(old(Waiting()), Pending(at, topic), max, Waiting(), ok)
    {
      var p := Pending(at, topic);
      ContentSize(pending);
      if KeyOf(p) in scheduled {
        return true;
      }
      if |pending| < max {
        ok := AddRoom(p);
      } else {
        ok := AddFull(p);
      }
    }

    method AddRoom(p: Pending) returns (ok: bool)
      requires Valid() && !hub.closed && KeyOf(p) !in scheduled && |pending| < max
      modifies this`pending, this`scheduled
      ensures Valid() && ok && Waiting() == old(Waiting()) + {p}
    {
      ghost var was := pending;
      KeysMore(Waiting(), p);
      Push(p);
      scheduled := scheduled + {KeyOf(p)};
      Extended(was, p, pending);
      ok := true;
    }

    method AddFull(p: Pending) returns (ok: bool)
      requires Valid() && !hub.closed && KeyOf(p) !in scheduled && |pending| == max
      modifies this`pending, this`scheduled
      ensures Valid() && !ok && DropsLatest(old(Waiting()), p, Waiting())
    {
      var last := Latest();
      var d := pending[last];
      if !(p.at < d.at) {
        assert Waiting() == Waiting() + {p} - {p};
        return false;
      }
      ghost var was := pending;
      KeysLess(Content(was), d);
      KeysMore(Content(was) - {d}, p);
      scheduled := scheduled - {KeyOf(d)};
      pending := pending[last := p];
      ghost var put := pending;
      Replaced(was, last, p);
      Fix(last);
      scheduled := scheduled + {KeyOf(p)};
      SameContent(put, pending);
      SameNoDuplicates(put, pending);
      assert Waiting() == old(Waiting()) + {p} - {d};
      ok := false;
    }

    /** armLocked. */
    method Arm()
      requires Valid()
      modifies this`timer
      ensures Valid() && Armed()
    {
      if |pending| == 0 {
        timer := None;
      } else {
        timer := Some(pending[0].at);
        forall p | p in Waiting()
          ensures pending[0].at <= p.at
        {
          var k :| 0 <= k < |pending| && pending[k] == p;
          RootIsLeast(pending, |pending|, k);
        }
      }
    }

    /** NotifyAt at clock time now: at once when the time has come, else each
        topic scheduled in turn. What is asked for is then kept soonest first,
        where no pair of another time has one of the new keys. */
    method NotifyAt(now: int, at: int, topics: seq<string>)
      requires Valid() && Armed()
      modifies this`pending, this`scheduled, this`timer, hub`now, hub`topics, hub`subs
      ensures Valid() && Armed()
      ensures var valid := Accepted(hub.cfg, topics);
              if valid == [] || hub.closed then
                hub.State() == old(hub.State()) && Waiting() == old(Waiting())
              else if at <= now then
                hub.State() == Raise(old(hub.State()), valid) && Waiting() == old(Waiting())
              else
                && hub.State() == old(hub.State())
                && AddsEach(old(Waiting()), at, valid, max, Waiting())
                && forall asked | Soonest(asked, old(Waiting()), max) && AllClear(old(Waiting()), at, valid) ::
                     Soonest(asked + AllAt(at, valid), Waiting(), max)
    {
      var valid := hub.ValidTopics(topics);
      if |valid| == 0 || hub.closed {
        return;
      }
      if at <= now {
        hub.RaiseLocked(valid);
        return;
      }
      ghost var trace := ScheduleAll(at, valid);
      Arm();
      forall asked | Soonest(asked, old(Waiting()), max) && AllClear(old(Waiting()), at, valid)
        ensures Soonest(asked + AllAt(at, valid), Waiting(), max)
      {
        AddsEachKeepsSoonest(asked, trace, at, valid, max, |valid|);
        assert valid[..|valid|] == valid;
      }
    }

    method ScheduleAll(at: int, valid: seq<string>) returns (ghost trace: seq<set<Pending>>)
      requires Valid() && !hub.closed
      modifies this`pending, this`scheduled
      ensures Valid() && Additions(trace, at, valid, max)
      ensures trace[0] == old(Waiting()) && trace[|valid|] == Waiting()
    {
      trace := [Waiting()];
      for i := 0 to |valid|
        invariant Valid() && !hub.closed && Additions(trace, at, valid[..i], max)
        invariant trace[0] == old(Waiting()) && trace[i] == Waiting()
      {
        var ok := ScheduleLocked(at, valid[i]);
        AdditionsStep(trace, at, valid, i, max, Waiting());
        trace := trace + [Waiting()];
      }
      assert valid[..|valid|] == valid;
    }

    /** Every pair at the earliest time leaves the schedule. */
    method PopGroup() returns (at: int, topics: seq<string>)
      requires Valid() && pending != []
      modifies this`pending, this`scheduled
      ensures Valid() && at == old(pending)[0].at
      ensures Waiting() == set p | p in old(Waiting()) && p.at != at
      ensures forall p | p in old(Waiting()) :: at <= p.at
      ensures topics != [] && NoRepeats(topics)
      ensures forall t :: t in topics <==> Pending(at, t) in old(Waiting())
    {
      at := pending[0].at;
      topics := [];
      forall p | p in Waiting()
        ensures at <= p.at
      {
        var k :| 0 <= k < |pending| && pending[k] == p;
        RootIsLeast(pending, |pending|, k);
      }
      while |pending| > 0 && pending[0].at == at
        invariant Valid() && Waiting() <= old(Waiting())
        invariant topics == [] ==> pending == old(pending)
        invariant NoRepeats(topics)
        invariant forall p | p in old(Waiting()) :: p in Waiting() || (p.at == at && p.topic in topics)
        invariant forall t | t in topics :: Pending(at, t) in old(Waiting()) && Pending(at, t) !in Waiting()
        decreases |pending|
      {
        ghost var was := pending;
        var p := Pop();
        Shrunk(was, p, pending);
        KeysLess(Content(was), p);
        scheduled := scheduled - {KeyOf(p)};
        topics := topics + [p.topic];
      }
      forall p | p in Waiting()
        ensures p.at != at
      {
        var k :| 0 <= k < |pending| && pending[k] == p;
        RootIsLeast(pending, |pending|, k);
        assert pending[0] in Waiting();
      }
    }

    /** fire: everything due leaves the schedule, announced as one change per
        distinct due time in strictly increasing order. */
    method Fire(now: int) returns (changes: seq<Change>)
      requires Valid()
      modifies this`pending, this`scheduled, this`timer, hub`now, hub`topics, hub`subs
      ensures Valid() && (!hub.closed ==> Armed())
      ensures Waiting() == set p | p in old(Waiting()) && p.at > now
      ensures Announces(changes, set p | p in old(Waiting()) && p.at <= now)
      ensures hub.State() == RaiseEach(old(hub.State()), changes)
    {
      changes := [];
      if hub.closed {
        return;
      }
      while |pending| > 0 && pending[0].at <= now
        invariant Valid() && !hub.closed && Fired(changes, old(Waiting()), Waiting(), now)
        invariant hub.State() == RaiseEach(old(hub.State()), changes)
        decreases Waiting()
      {
        ghost var before := Waiting();
        var c := FireGroup();
        FiredMore(changes, old(Waiting()), before, Waiting(), now, c);
        RaiseOneMore(old(hub.State()), changes, c);
        changes := changes + [c];
      }
      AllLater(pending, now);
      DueIs(old(Waiting()), Waiting(), now);
      Arm();
    }

    /** One change: the earliest time's topics. */
    method FireGroup() returns (c: Change)
      requires Valid() && !hub.closed && pending != []
      modifies this`pending, this`scheduled, hub`now, hub`topics, hub`subs
      ensures Valid() && hub.closed == old(hub.closed) && c.at == old(pending)[0].at
      ensures hub.State() == Raise(old(hub.State()), c.topics)
      ensures Grouped(c, old(Waiting()), Waiting())
    {
      var at, topics := PopGroup();
      hub.RaiseLocked(topics);
      c := Change(at, topics);
    }

    /** Close's part. */
    method Stop()
      requires Valid()
      modifies this`pending, this`scheduled, this`timer, hub`closed
      ensures Valid() && Armed() && Waiting() == {} && hub.State() == old(hub.State()).(closed := true)
    {
      hub.Close();
      pending, scheduled, timer := [], {}, None;
    }
  }

  /** The change names exactly the earliest pairs of those before, each once,
      and the rest are left. */
  ghost predicate Grouped(c: Change, before: set<Pending>, after: set<Pending>) {
    && after == (set p | p in before && p.at != c.at) && (forall p | p in before :: c.at <= p.at)
    && c.topics != [] && NoRepeats(c.topics) && forall t :: t in c.topics <==> Pending(c.at, t) in before
  }

  /** Of all the pairs, those not left are due and announced, in order. */
  ghost predicate Fired(changes: seq<Change>, all: set<Pending>, left: set<Pending>, now: int) {
    && left <= all && Announces(changes, all - left) && (forall p | p in all - left :: p.at <= now)
    && (changes != [] ==> forall p | p in left :: changes[|changes| - 1].at < p.at)
  }

  lemma FiredMore(changes: seq<Change>, all: set<Pending>, before: set<Pending>, after: set<Pending>, now: int, c: Change)
    requires Fired(changes, all, before, now) && Grouped(c, before, after) && c.at <= now
    ensures Fired(changes + [c], all, after, now) && after < before
  {
    AnnouncesMore(changes, all, before, after, c);
    assert Pending(c.at, c.topics[0]) in before;
  }

  lemma RaiseOneMore(h: HubState, changes: seq<Change>, c: Change)
    ensures RaiseEach(h, changes + [c]) == Raise(RaiseEach(h, changes), c.topics)
  {
    assert (changes + [c])[..|changes|] == changes;
  }

  lemma AllLater(q: seq<Pending>, now: int)
    requires HeapTo(q, |q|) && (q != [] ==> q[0].at > now)
    ensures forall p | p in Content(q) :: p.at > now
  {
    forall p | p in Content(q)
      ensures p.at > now
    {
      var k :| 0 <= k < |q| && q[k] == p;
      RootIsLeast(q, |q|, k);
    }
  }

  lemma DueIs(all: set<Pending>, left: set<Pending>, now: int)
    requires left <= all && (forall p | p in all - left :: p.at <= now) && forall p | p in left :: p.at > now
    ensures left == (set p | p in all && p.at > now) && all - left == set p | p in all && p.at <= now
  {
  }

  lemma Shrunk(q: seq<Pending>, p: Pending, r: seq<Pending>)
    requires NoDuplicates(q) && multiset(r) + multiset{p} == multiset(q)
    ensures NoDuplicates(r) && Content(r) == Content(q) - {p} && p in q
  {
    var added := r + [p];
    assert multiset(added) == multiset(q);
    SameContent(added, q);
    SameNoDuplicates(q, added);
    assert Content(added) == Content(r) + {p};
    assert added[|r|] == p;
    assert forall i | 0 <= i < |r| :: added[i] == r[i];
  }

  lemma AnnouncesMore(changes: seq<Change>, all: set<Pending>, before: set<Pending>, after: set<Pending>, c: Change)
    requires Announces(changes, all - before) && before <= all
    requires changes != [] ==> forall p | p in before :: changes[|changes| - 1].at < p.at
    requires after == set p | p in before && p.at != c.at
    requires c.topics != [] && NoRepeats(c.topics) && forall t :: t in c.topics <==> Pending(c.at, t) in before
    ensures Announces(changes + [c], all - after)
  {
    var more := changes + [c];
    var due := all - after;
    assert Pending(c.at, c.topics[0]) in before;
    forall i, j | 0 <= i < j < |more|
      ensures more[i].at < more[j].at
    {
    }
    forall p | p in due
      ensures exists i :: 0 <= i < |more| && more[i].at == p.at && p.topic in more[i].topics
    {
      if p in before {
        assert p == Pending(c.at, p.topic);
        assert more[|changes|] == c;
      } else {
        var i :| 0 <= i < |changes| && changes[i].at == p.at && p.topic in changes[i].topics;
        assert more[i] == changes[i];
      }
    }
  }

  lemma Extended(q: seq<Pending>, p: Pending, r: seq<Pending>)
    requires NoDuplicates(q) && p !in q && multiset(r) == multiset(q) + multiset{p}
    ensures NoDuplicates(r) && Content(r) == Content(q) + {p}
  {
    var added := q + [p];
    assert multiset(added) == multiset(r);
    SameContent(added, r);
    SameNoDuplicates(added, r);
    assert Content(added) == Content(q) + {p};
  }

  lemma Replaced(q: seq<Pending>, i: nat, p: Pending)
    requires NoDuplicates(q) && i < |q| && p !in q && HeapTo(q, |q|) && p.at < q[i].at
    requires forall k | 0 <= k < |q| :: q[k].at <= q[i].at
    ensures NoDuplicates(q[i := p]) && Content(q[i := p]) == Content(q) - {q[i]} + {p}
    ensures HeapExcept(q[i := p], |q|, i)
  {
    var r := q[i := p];
    forall x
      ensures x in r <==> (x in q && x != q[i]) || x == p
    {
      if x in q && x != q[i] {
        var k :| 0 <= k < |q| && q[k] == x;
        assert r[k] == x;
      }
      if x in r && x != p {
        var k :| 0 <= k < |r| && r[k] == x;
        assert q[k] == x;
      }
      assert r[i] == p;
    }
  }
}
