/** Work an owner starts and nobody waits for, and the one call that ends it
    all (background/background.go). */
module Background {

  // ---------- The group ----------

  /** A group's fields, and which of the timers it made the runtime still has
      armed. Timers are numbered as they are made. */
  datatype State = State(stopped: bool, done: bool, timers: set<nat>, armed: set<nat>, made: nat, waiting: int)

  /** Go's critical section. */
  function Admit(g: State): State {
    if g.stopped then g else g.(waiting := g.waiting + 1)
  }

  /** After's critical section. */
  function Arm(g: State): State {
    if g.stopped then g
    else g.(timers := g.timers + {g.made}, armed := g.armed + {g.made}, made := g.made + 1)
  }

  /** A fired timer's callback, up to where it runs its function. */
  function Wake(g: State, t: nat): State {
    Admit(g.(timers := g.timers - {t}))
  }

  /** Stop's critical section: disarm what is held, refuse what comes. */
  function Close(g: State): State {
    if g.stopped then g
    else g.(stopped := true, done := true, timers := {}, armed := g.armed - g.timers)
  }

  class Group {
    var stopped: bool
    var done: bool
    var timers: set<nat>
    var armed: set<nat>
    var made: nat
    var waiting: int

    /** The zero value is ready to use. */
    constructor ()
      ensures Value() == State(false, false, {}, {}, 0, 0)
    {
      stopped, done, timers, armed, made, waiting := false, false, {}, {}, 0, 0;
    }

    function Value(): State
      reads this
    {
      State(stopped, done, timers, armed, made, waiting)
    }

    method Go() returns (started: bool)
      modifies this
      ensures Value() == Admit(old(Value())) && started == !old(stopped)
      ensures waiting == old(waiting) + (if started then 1 else 0) && stopped == old(stopped)
      ensures timers == old(timers) && armed == old(armed) && done == old(done)
    {
      if stopped {
        return false;
      }
      waiting := waiting + 1;
      return true;
    }

    method After() returns (armedNow: bool, t: nat)
      modifies this
      ensures Value() == Arm(old(Value())) && armedNow == !old(stopped) && t == old(made)
      ensures armedNow ==> timers == old(timers) + {t} && armed == old(armed) + {t} && made == t + 1
      ensures !armedNow ==> Value() == old(Value())
      ensures waiting == old(waiting) && stopped == old(stopped) && done == old(done)
    {
      t := made;
      if stopped {
        return false, t;
      }
      timers, armed, made := timers + {t}, armed + {t}, made + 1;
      return true, t;
    }

    method Callback(t: nat) returns (runs: bool)
      modifies this
      ensures Value() == Wake(old(Value()), t) && runs == !old(stopped)
      ensures timers == old(timers) - {t} && waiting == old(waiting) + (if runs then 1 else 0)
    {
      timers := timers - {t};
      if stopped {
        return false;
      }
      waiting := waiting + 1;
      return true;
    }

    /** Timer.Stop: out of the map, then disarmed; whether that kept it from
        firing. */
    method StopTimer(t: nat) returns (kept: bool)
      modifies this
      ensures Value() == old(Value()).(timers := old(timers) - {t}, armed := old(armed) - {t})
      ensures kept <==> t in old(armed)
    {
      timers := timers - {t};
      kept := t in armed;
      armed := armed - {t};
    }

    /** Stop, up to the wait: every timer held is disarmed, one by one. */
    method Stop()
      modifies this
      ensures Value() == Close(old(Value()))
      ensures stopped && waiting == old(waiting) && made == old(made)
      ensures !old(stopped) ==> done && timers == {} && armed == old(armed) - old(timers)
      ensures old(stopped) ==> Value() == old(Value())
    {
      if !stopped {
        stopped, done := true, true;
        var rest := timers;
        while rest != {}
          invariant rest <= timers == old(timers)
          invariant armed == old(armed) - (timers - rest)
          invariant stopped && done && made == old(made) && waiting == old(waiting)
          decreases |rest|
        {
          var t :| t in rest;
          armed := armed - {t};
          rest := rest - {t};
        }
        timers := {};
      }
    }
  }

  // ---------- Everything around it ----------

  /** A tracked function: admitted and about to start, running, between two
      passes of a loop, or over. */
  datatype Job = Admitted(loop: bool) | Running(loop: bool) | Between | Over

  datatype Stopping = Called | Waiting | Stopped

  /** fired holds the callbacks waiting for the lock; dropped the timers a
      Timer.Stop has taken out of the map and not yet disarmed. */
  datatype World = World(g: State, jobs: map<nat, Job>, fired: set<nat>, dropped: set<nat>, stops: map<nat, Stopping>)

  function Start(): World {
    World(State(false, false, {}, {}, 0, 0), map[], {}, {}, map[])
  }

  datatype Step =
    | Go(job: nat, loop: bool)
    | Begin(job: nat)
    | EndPass(job: nat)
    | NextPass(job: nat)
    | Leave(job: nat, cancelled: bool)
    | After
    | Fire(t: nat)
    | Callback(t: nat, job: nat)
    | DropTimer(t: nat)
    | Disarm(t: nat)
    | CallStop(id: nat)
    | LockStop(id: nat)
    | ReturnStop(id: nat)

  predicate Live(j: Job) {
    !j.Over?
  }

  function Alive(jobs: map<nat, Job>): set<nat> {
    set id | id in jobs && Live(jobs[id])
  }

  function Set(w: World, id: nat, j: Job): World {
    w.(jobs := w.jobs[id := j])
  }

  /** A function returns: its job is over and the wait is one shorter. */
  function Finish(w: World, id: nat): World {
    Set(w, id, Over).(g := w.g.(waiting := w.g.waiting - 1))
  }

  /** Admitted work is the only work that starts. */
  function Enter(w: World, g: State, id: nat, loop: bool): World {
    if g.waiting == w.g.waiting then w.(g := g) else Set(w, id, Admitted(loop)).(g := g)
  }

  function Apply(w: World, s: Step): World {
    match s
    case Go(id, loop) => if id in w.jobs then w else Enter(w, Admit(w.g), id, loop)
    case Begin(id) => if id in w.jobs && w.jobs[id].Admitted? then Set(w, id, Running(w.jobs[id].loop)) else w
    case EndPass(id) =>
      if id !in w.jobs || !w.jobs[id].Running? then w
      else if w.jobs[id].loop then Set(w, id, Between)
      else Finish(w, id)
    case NextPass(id) => if id in w.jobs && w.jobs[id].Between? then Set(w, id, Running(true)) else w
    case Leave(id, cancelled) =>
      if id in w.jobs && w.jobs[id].Between? && (cancelled || w.g.done) then Finish(w, id) else w
    case After => w.(g := Arm(w.g))
    case Fire(t) => if t in w.g.armed then w.(g := w.g.(armed := w.g.armed - {t}), fired := w.fired + {t}) else w
    case Callback(t, id) =>
      if t in w.fired && id !in w.jobs then Enter(w.(fired := w.fired - {t}), Wake(w.g, t), id, false) else w
    case DropTimer(t) =>
      if t < w.g.made then w.(g := w.g.(timers := w.g.timers - {t}), dropped := w.dropped + {t}) else w
    case Disarm(t) =>
      if t in w.dropped then w.(g := w.g.(armed := w.g.armed - {t}), dropped := w.dropped - {t}) else w
    case CallStop(id) => if id in w.stops then w else w.(stops := w.stops[id := Called])
    case LockStop(id) =>
      if id in w.stops && w.stops[id] == Called then w.(g := Close(w.g), stops := w.stops[id := Waiting]) else w
    case ReturnStop(id) =>
      if id in w.stops && w.stops[id] == Waiting && w.g.waiting == 0 then w.(stops := w.stops[id := Stopped]) else w
  }

  function Run(w: World, steps: seq<Step>): World {
    if steps == [] then w else Apply(Run(w, steps[..|steps| - 1]), steps[|steps| - 1])
  }

  // ---------- What every run keeps ----------

  /** The wait group counts exactly the functions admitted and not over. */
  predicate Counted(w: World) {
    w.g.waiting == |Alive(w.jobs)|
  }

  /** Every armed timer is held, unless its own Stop is about to disarm it,
      and then it is not held. */
  predicate Held(w: World) {
    && w.g.armed <= w.g.timers + w.dropped && w.fired !! w.g.armed && w.dropped !! w.g.timers
    && (forall t | t in w.g.timers + w.dropped :: t < w.g.made) && (forall t | t in w.g.armed :: t < w.g.made)
    && forall t | t in w.fired :: t < w.g.made
  }

  /** Some Stop has passed its lock. */
  predicate Locked(w: World) {
    forall id | id in w.stops && w.stops[id] != Called :: w.g.stopped
  }

  /** Some Stop has returned. */
  predicate Returned(w: World) {
    exists id :: id in w.stops && w.stops[id] == Stopped
  }

  predicate Inv(w: World) {
    && Counted(w) && Held(w) && Locked(w)
    && Empties(w) && Waited(w)
  }

  lemma Comes(jobs: map<nat, Job>, id: nat, j: Job)
    requires Live(j)
    ensures Alive(jobs[id := j]) == Alive(jobs) + {id}
  {
  }

  lemma Goes(jobs: map<nat, Job>, id: nat)
    ensures Alive(jobs[id := Over]) == Alive(jobs) - {id}
  {
  }

  lemma EnterKeeps(w: World, g: State, id: nat, loop: bool)
    requires Counted(w) && id !in w.jobs && (g.waiting == w.g.waiting || g.waiting == w.g.waiting + 1)
    ensures Counted(Enter(w, g, id, loop))
  {
    Comes(w.jobs, id, Admitted(loop));
    assert id !in Alive(w.jobs);
  }

  lemma SetKeeps(w: World, id: nat, j: Job)
    requires Counted(w) && id in w.jobs && Live(w.jobs[id]) && Live(j)
    ensures Counted(Set(w, id, j))
  {
    Comes(w.jobs, id, j);
    assert Alive(w.jobs) + {id} == Alive(w.jobs);
  }

  lemma FinishKeeps(w: World, id: nat)
    requires Counted(w) && id in w.jobs && Live(w.jobs[id])
    ensures Counted(Finish(w, id))
    ensures w.g.waiting >= 1
  {
    Goes(w.jobs, id);
    assert id in Alive(w.jobs);
  }

  lemma StepCounts(w: World, s: Step)
    requires Counted(w)
    ensures Counted(Apply(w, s))
  {
    match s
    case Go(id, loop) =>
      if id !in w.jobs {
        EnterKeeps(w, Admit(w.g), id, loop);
      }
    case Begin(id) =>
      if id in w.jobs && w.jobs[id].Admitted? {
        SetKeeps(w, id, Running(w.jobs[id].loop));
      }
    case EndPass(id) =>
      if id in w.jobs && w.jobs[id].Running? {
        SetKeeps(w, id, Between);
        FinishKeeps(w, id);
      }
    case NextPass(id) =>
      if id in w.jobs && w.jobs[id].Between? {
        SetKeeps(w, id, Running(true));
      }
    case Leave(id, cancelled) =>
      if id in w.jobs && w.jobs[id].Between? {
        FinishKeeps(w, id);
      }
    case Callback(t, id) =>
      if id !in w.jobs {
        EnterKeeps(w.(fired := w.fired - {t}), Wake(w.g, t), id, false);
      }
    case _ =>
  }

  lemma StepHolds(w: World, s: Step)
    requires Held(w)
    ensures Held(Apply(w, s))
  {
    assert w.g.made !in w.fired && w.g.made !in w.dropped;
  }

  /** Nothing is added to the wait group once the group is stopped. */
  lemma NoAddAfterStop(w: World, s: Step)
    requires w.g.stopped
    ensures Apply(w, s).g.stopped && Apply(w, s).g.waiting <= w.g.waiting
    ensures forall id | id in Apply(w, s).jobs && Live(Apply(w, s).jobs[id]) :: id in w.jobs && Live(w.jobs[id])
  {
  }

  predicate Empties(w: World) {
    w.g.stopped ==> w.g.done && w.g.timers == {}
  }

  /** A Stop that has returned found nothing to wait for. */
  predicate Waited(w: World) {
    Returned(w) ==> w.g.stopped && w.g.waiting == 0
  }

  lemma StepEmpties(w: World, s: Step)
    requires Empties(w)
    ensures Empties(Apply(w, s))
  {
  }

  lemma StepLocks(w: World, s: Step)
    requires Locked(w)
    ensures Locked(Apply(w, s))
  {
  }

  lemma CountIsNat(w: World)
    requires Counted(w)
    ensures w.g.waiting >= 0
  {
  }

  lemma StepWaits(w: World, s: Step)
    requires Waited(w) && Locked(w) && Apply(w, s).g.waiting >= 0
    ensures Waited(Apply(w, s))
  {
    if w.g.stopped {
      NoAddAfterStop(w, s);
    }
    if s.ReturnStop? {
      assert s.id in w.stops && w.stops[s.id] == Waiting ==> w.g.stopped;
    }
  }

  lemma StepKeeps(w: World, s: Step)
    requires Inv(w)
    ensures Inv(Apply(w, s))
  {
    StepCounts(w, s);
    StepHolds(w, s);
    StepLocks(w, s);
    StepEmpties(w, s);
    CountIsNat(Apply(w, s));
    StepWaits(w, s);
  }

  lemma {:induction false} RunKeeps(steps: seq<Step>)
    ensures Inv(Run(Start(), steps))
  {
    if steps == [] {
      assert Alive(map[]) == {};
    } else {
      RunKeeps(steps[..|steps| - 1]);
      StepKeeps(Run(Start(), steps[..|steps| - 1]), steps[|steps| - 1]);
    }
  }

  lemma {:induction false} RunConcat(w: World, a: seq<Step>, b: seq<Step>)
    ensures Run(w, a + b) == Run(Run(w, a), b)
  {
    if b == [] {
      assert a + b == a;
    } else {
      assert (a + b)[..|a + b| - 1] == a + b[..|b| - 1];
      RunConcat(w, a, b[..|b| - 1]);
    }
  }

  // ---------- Shutdown is final ----------

  /** No tracked function is running or about to. */
  predicate Quiet(w: World) {
    forall id | id in w.jobs :: w.jobs[id].Over?
  }

  lemma QuietWhenReturned(w: World)
    requires Inv(w) && Returned(w)
    ensures Quiet(w)
  {
    forall id | id in w.jobs
      ensures w.jobs[id].Over?
    {
      assert id in Alive(w.jobs) <==> Live(w.jobs[id]);
    }
  }

  lemma {:induction false} StaysReturned(w: World, steps: seq<Step>)
    requires Returned(w)
    ensures Returned(Run(w, steps))
  {
    if steps != [] {
      var before := Run(w, steps[..|steps| - 1]);
      StaysReturned(w, steps[..|steps| - 1]);
      var id :| id in before.stops && before.stops[id] == Stopped;
      assert Apply(before, steps[|steps| - 1]).stops[id] == Stopped;
    }
  }

  /** Once any Stop has returned, nothing tracked runs, and nothing ever
      starts again, whatever is called, fires or returns after it. */
  lemma ShutdownIsFinal(before: seq<Step>, after: seq<Step>)
    requires Returned(Run(Start(), before))
    ensures Quiet(Run(Start(), before + after))
  {
    RunConcat(Start(), before, after);
    StaysReturned(Run(Start(), before), after);
    RunKeeps(before + after);
    QuietWhenReturned(Run(Start(), before + after));
  }

  // ---------- And it is not shut down by doing nothing ----------

  lemma RunOne(w: World, s: Step)
    ensures Run(w, [s]) == Apply(w, s)
  {
    assert [s][..0] == [] && Run(w, []) == w;
  }

  lemma RunTwo(w: World, s: Step, r: Step)
    ensures Run(w, [s, r]) == Apply(Apply(w, s), r)
  {
    RunOne(w, s);
    RunOne(Apply(w, s), r);
    RunConcat(w, [s], [r]);
    assert [s] + [r] == [s, r];
  }

  /** Until it is stopped, a group runs what it is given. */
  lemma WorkStarts(steps: seq<Step>, id: nat, loop: bool)
    requires var w := Run(Start(), steps); !w.g.stopped && id !in w.jobs
    ensures var w := Run(Start(), steps);
            var started := Run(w, [Go(id, loop), Begin(id)]);
            started.jobs == w.jobs[id := Running(loop)] && started.g.waiting == w.g.waiting + 1
  {
    RunTwo(Run(Start(), steps), Go(id, loop), Begin(id));
  }

  /** And a timer's function, once it fires. */
  lemma TimerRuns(steps: seq<Step>, id: nat)
    requires var w := Run(Start(), steps); !w.g.stopped && id !in w.jobs
    ensures var w := Run(Start(), steps);
            var fired := Run(Run(w, [After, Fire(w.g.made)]), [Callback(w.g.made, id), Begin(id)]);
            fired.jobs == w.jobs[id := Running(false)] && fired.g.waiting == w.g.waiting + 1
  {
    var w := Run(Start(), steps);
    RunTwo(w, After, Fire(w.g.made));
    RunTwo(Run(w, [After, Fire(w.g.made)]), Callback(w.g.made, id), Begin(id));
  }

  lemma TakenBack(s: set<nat>, t: nat)
    requires t !in s
    ensures (s + {t}) - {t} == s
  {
  }

  /** A timer made and taken out of the map again, still armed. */
  function ArmedAlone(w: World): World {
    World(w.g.(armed := w.g.armed + {w.g.made}, made := w.g.made + 1), w.jobs, w.fired, w.dropped + {w.g.made}, w.stops)
  }

  lemma AfterThenDrop(w: World)
    requires w.g.made !in w.g.timers && !w.g.stopped
    ensures Apply(Apply(w, After), DropTimer(w.g.made)) == ArmedAlone(w)
  {
    TakenBack(w.g.timers, w.g.made);
  }

  lemma DisarmThenFire(w: World)
    requires w.g.made !in w.g.armed && w.g.made !in w.dropped
    ensures Apply(Apply(ArmedAlone(w), Disarm(w.g.made)), Fire(w.g.made)) == w.(g := w.g.(made := w.g.made + 1))
  {
    TakenBack(w.g.armed, w.g.made);
    TakenBack(w.dropped, w.g.made);
  }

  /** But not one stopped first: it is disarmed and runs nothing. */
  lemma TimerStops(steps: seq<Step>)
    requires !Run(Start(), steps).g.stopped
    ensures var w := Run(Start(), steps);
            Run(Run(w, [After, DropTimer(w.g.made)]), [Disarm(w.g.made), Fire(w.g.made)])
            == w.(g := w.g.(made := w.g.made + 1))
  {
    RunKeeps(steps);
    var w := Run(Start(), steps);
    var t := w.g.made;
    RunTwo(w, After, DropTimer(t));
    RunTwo(ArmedAlone(w), Disarm(t), Fire(t));
    AfterThenDrop(w);
    DisarmThenFire(w);
  }

  lemma LastJobStands(jobs: map<nat, Job>, id: nat, a: Job, b: Job)
    ensures jobs[id := a][id := b] == jobs[id := b]
  {
  }

  lemma PassGoesOn(w: World, id: nat)
    requires id in w.jobs && w.jobs[id] == Running(true)
    ensures Run(w, [EndPass(id), NextPass(id)]) == w.(jobs := w.jobs[id := Running(true)])
  {
    LastJobStands(w.jobs, id, Between, Running(true));
    RunTwo(w, EndPass(id), NextPass(id));
  }

  lemma PassLeaves(w: World, id: nat, cancelled: bool)
    requires id in w.jobs && w.jobs[id] == Running(true)
    ensures Run(w, [EndPass(id), Leave(id, cancelled)]).jobs == w.jobs[id := if cancelled || w.g.done then Over else Between]
  {
    LastJobStands(w.jobs, id, Between, if cancelled || w.g.done then Over else Between);
    RunTwo(w, EndPass(id), Leave(id, cancelled));
  }

  /** A loop whose pass is over makes another, or leaves once it is cancelled
      or the group is done. */
  lemma LoopGoesOn(w: World, id: nat, cancelled: bool)
    requires id in w.jobs && w.jobs[id] == Running(true)
    ensures Run(w, [EndPass(id), NextPass(id)]) == w.(jobs := w.jobs[id := Running(true)])
    ensures var after := Run(w, [EndPass(id), Leave(id, cancelled)]);
            after.jobs == w.jobs[id := if cancelled || w.g.done then Over else Between]
  {
    PassGoesOn(w, id);
    PassLeaves(w, id, cancelled);
  }

  /** Functions that return let a tracked function end, and nothing else
      moves. */
  lemma JobEnds(w: World, id: nat) returns (steps: seq<Step>)
    requires id in w.jobs && Live(w.jobs[id]) && w.g.done
    ensures Run(w, steps) == Finish(w, id)
    decreases if w.jobs[id].Admitted? then 1 else 0
  {
    match w.jobs[id]
    case Admitted(loop) =>
      var begun := Apply(w, Begin(id));
      RunOne(w, Begin(id));
      var rest := JobEnds(begun, id);
      steps := [Begin(id)] + rest;
      RunConcat(w, [Begin(id)], rest);
      assert Finish(begun, id).jobs == Finish(w, id).jobs;
    case Running(loop) =>
      if loop {
        steps := [EndPass(id), Leave(id, false)];
        RunTwo(w, EndPass(id), Leave(id, false));
        assert Run(w, steps).jobs == Finish(w, id).jobs;
      } else {
        steps := [EndPass(id)];
        RunOne(w, EndPass(id));
      }
    case Between =>
      steps := [Leave(id, false)];
      RunOne(w, Leave(id, false));
  }

  lemma WaitEnds(w: World, id: nat) returns (steps: seq<Step>)
    requires Counted(w) && w.g.done && id in w.stops && w.stops[id] == Waiting
    ensures var after := Run(w, steps); id in after.stops && after.stops[id] == Stopped
    decreases |Alive(w.jobs)|
  {
    if job :| job in w.jobs && Live(w.jobs[job]) {
      var ending := JobEnds(w, job);
      FinishKeeps(w, job);
      Goes(w.jobs, job);
      assert job in Alive(w.jobs);
      var rest := WaitEnds(Finish(w, job), id);
      steps := ending + rest;
      RunConcat(w, ending, rest);
    } else {
      assert Alive(w.jobs) == {};
      steps := [ReturnStop(id)];
      RunOne(w, ReturnStop(id));
    }
  }

  /** Stop cannot hang by itself: in every run, a waiting Stop returns once
      the functions it waits for do. */
  lemma StopCanReturn(before: seq<Step>, id: nat) returns (after: seq<Step>)
    requires var w := Run(Start(), before); id in w.stops && w.stops[id] == Waiting
    ensures var w := Run(Start(), before + after); id in w.stops && w.stops[id] == Stopped
  {
    RunKeeps(before);
    after := WaitEnds(Run(Start(), before), id);
    RunConcat(Start(), before, after);
  }

  /** A timer still armed once the group is stopped is one whose own Stop has
      taken it out of the map first; every other one is disarmed. */
  lemma OnlyDroppedStayArmed(steps: seq<Step>)
    ensures var w := Run(Start(), steps);
            w.g.armed <= w.g.timers + w.dropped && (w.g.stopped ==> w.g.timers == {} && w.g.armed <= w.dropped)
  {
    RunKeeps(steps);
  }

  /** No armed timer is outside the map exactly while none is between being
      taken out of it by its own Stop and being disarmed. */
  lemma HeldExactlyWhen(steps: seq<Step>)
    ensures var w := Run(Start(), steps); w.g.armed <= w.g.timers <==> w.g.armed !! w.dropped
  {
    RunKeeps(steps);
  }

  /** So a stopped group with no timer's Stop under way has armed nothing. */
  lemma NothingArmedOnceStopped(steps: seq<Step>)
    ensures var w := Run(Start(), steps); w.g.stopped && w.dropped == {} ==> w.g.armed == {}
  {
    RunKeeps(steps);
  }

  /** That exception happens: a timer can outlive Stop, armed, though its
      function will never run. */
  lemma DroppedTimerOutlivesStop() returns (steps: seq<Step>)
    ensures var w := Run(Start(), steps); Returned(w) && w.g.armed != {}
  {
    steps := [After, DropTimer(0), CallStop(0), LockStop(0), ReturnStop(0)];
    var w1 := Apply(Start(), After);
    var w2 := Apply(w1, DropTimer(0));
    var w3 := Apply(w2, CallStop(0));
    var w4 := Apply(w3, LockStop(0));
    var w5 := Apply(w4, ReturnStop(0));
    assert steps[..4] == [After, DropTimer(0), CallStop(0), LockStop(0)];
    assert steps[..4][..3] == [After, DropTimer(0), CallStop(0)];
    assert steps[..4][..3][..2] == [After, DropTimer(0)];
    assert steps[..4][..3][..2][..1] == [After];
    assert steps[..4][..3][..2][..1][..0] == [];
    assert Run(Start(), []) == Start();
    assert Run(Start(), [After]) == w1;
    assert Run(Start(), [After, DropTimer(0)]) == w2;
    assert Run(Start(), [After, DropTimer(0), CallStop(0)]) == w3;
    assert Run(Start(), [After, DropTimer(0), CallStop(0), LockStop(0)]) == w4;
    assert 0 in w5.stops && w5.stops[0] == Stopped;
    assert 0 in w5.g.armed;
  }
}
