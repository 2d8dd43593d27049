/** The accept mutex: nginx/src/core/ngx_shmtx.h, ngx_trylock_accept_mutex and its helpers in
    nginx/src/event/ngx_event_accept.c, and the worker iteration of nginx/src/event/ngx_event.c.

    Any number of workers share one lock word and interleave at every access to it and at every
    event registration.  A worker remembers in `held` that its accept events are registered; the
    memo outlives the unlock at the end of an iteration. */
module AcceptMutex {

  type Pid = p: nat | p != 0 witness 1

  datatype Pc =
    | Start           // top of ngx_process_events_and_timers
    | Test            // *mtx->lock == 0 ?
    | Cas             // ngx_atomic_cmp_set(lock, 0, ngx_pid)
    | Locked          // the compare-and-set succeeded
    | Enable(i: nat)  // ngx_enable_accept_events, about to add listening socket i
    | EnableFailed    // an add failed: unlock and return NGX_ERROR
    | Unlocked        // the lock is taken by another worker
    | Disable(i: nat) // ngx_disable_accept_events, about to delete listening socket i
    | Poll            // ngx_process_events, then the posted accept events
    | Release         // unlock at the end of the iteration

  datatype Worker = Worker(
    pc: Pc,
    held: bool,          // ngx_accept_mutex_held
    acceptEvents: bool,  // ngx_accept_events
    disabled: int,       // ngx_accept_disabled
    active: seq<bool>,   // read events registered, one per listening socket
    tried: bool,         // this iteration went through ngx_trylock_accept_mutex
    addFailed: bool)     // some ngx_add_event of this worker has failed

  datatype Global = Global(lock: nat, workers: map<Pid, Worker>)

  // What the environment decides in a step: whether a system call succeeds, and what the handlers run
  // by a poll leave in ngx_accept_disabled, ngx_accept_events and the registrations.
  datatype Choice = Choice(ok: bool, disabled: int, acceptEvents: bool, drop: set<nat>)

  // One step of worker p with lock word `lock`: the new lock word and the new worker.
  function WorkerStep(p: Pid, lock: nat, w: Worker, c: Choice): (nat, Worker) {
    match w.pc
    case Start =>
      if w.disabled > 0 then (lock, w.(disabled := w.disabled - 1, tried := false, pc := Poll))
      else (lock, w.(tried := true, pc := Test))
    case Test => (lock, w.(pc := if lock == 0 then Cas else Unlocked))
    case Cas => if lock == 0 then (p, w.(pc := Locked)) else (lock, w.(pc := Unlocked))
    case Locked => (lock, w.(pc := if w.held && !w.acceptEvents then Poll else Enable(0)))
    case Enable(i) =>
      if i >= |w.active| then (lock, w.(acceptEvents := false, held := true, pc := Poll))
      else if c.ok then (lock, w.(active := w.active[i := true], pc := Enable(i + 1)))
      else (lock, w.(pc := EnableFailed, addFailed := true))
    case EnableFailed => (if lock == p then 0 else lock, w.(pc := Start))
    case Unlocked => (lock, w.(pc := if w.held then Disable(0) else Poll))
    case Disable(i) =>
      if i >= |w.active| then (lock, w.(held := false, pc := Poll))
      else if !w.active[i] then (lock, w.(pc := Disable(i + 1)))
      else if c.ok then (lock, w.(active := w.active[i := false], pc := Disable(i + 1)))
      else (lock, w.(pc := Start))
    case Poll =>
      (lock, w.(disabled := c.disabled, acceptEvents := w.acceptEvents || c.acceptEvents, pc := Release,
                active := seq(|w.active|, i requires 0 <= i < |w.active| => w.active[i] && i !in c.drop)))
    case Release => (if w.held && lock == p then 0 else lock, w.(pc := Start))
  }

  function Step(g: Global, p: Pid, c: Choice): Global {
    if p !in g.workers then g
    else
      var (lock, w) := WorkerStep(p, g.lock, g.workers[p], c);
      Global(lock, g.workers[p := w])
  }

  datatype Event = Event(p: Pid, c: Choice)

  function Run(g: Global, run: seq<Event>): Global
    decreases run
  {
    if run == [] then g else Run(Step(g, run[0].p, run[0].c), run[1..])
  }

  predicate Fresh(w: Worker) {
    w.pc == Start && !w.held && !w.acceptEvents && !w.addFailed && forall i :: 0 <= i < |w.active| ==> !w.active[i]
  }

  ghost predicate Init(g: Global) {
    g.lock == 0 && forall p :: p in g.workers ==> Fresh(g.workers[p])
  }

  ghost predicate Accepting(w: Worker) {
    exists i :: 0 <= i < |w.active| && w.active[i]
  }

  // Between taking the lock and giving it back.
  ghost predicate Owning(w: Worker) {
    match w.pc
    case Locked => true
    case Enable(_) => true
    case EnableFailed => true
    case Poll => w.tried && w.held
    case Release => w.tried && w.held
    case _ => false
  }

  ghost predicate WorkerInv(w: Worker) {
    && (w.pc.Disable? ==> w.held && forall i :: 0 <= i < w.pc.i && i < |w.active| ==> !w.active[i])
    && ((w.pc.Locked? || w.pc.Enable? || w.pc.EnableFailed? || w.pc.Test? || w.pc.Cas? || w.pc.Unlocked? ||
         w.pc.Disable?) ==> w.tried)
    && (Accepting(w) && !w.addFailed ==> w.held || w.pc.Enable?)
  }

  // The lock word names exactly the worker that is between taking it and giving it back.
  ghost predicate Inv(g: Global) {
    && (g.lock != 0 ==> g.lock in g.workers)
    && (forall p :: p in g.workers ==> WorkerInv(g.workers[p]) && (Owning(g.workers[p]) <==> g.lock == p))
  }

  lemma WorkerStepLock(p: Pid, lock: nat, w: Worker, c: Choice)
    requires WorkerInv(w) && (Owning(w) <==> lock == p)
    ensures var (lock', w') := WorkerStep(p, lock, w, c);
      && (Owning(w') <==> lock' == p)
      && (lock' == lock || (lock == 0 && lock' == p) || (lock == p && lock' == 0))
  {
  }

  // A step registers no accept event except while enabling.
  lemma WorkerStepActive(p: Pid, lock: nat, w: Worker, c: Choice)
    ensures var w' := WorkerStep(p, lock, w, c).1;
      && |w'.active| == |w.active|
      && (!(w.pc.Enable? && w.pc.i < |w.active|) ==> forall i :: 0 <= i < |w.active| && w'.active[i] ==> w.active[i])
  {
    match w.pc
    case Start =>
    case Test =>
    case Cas =>
    case Locked =>
    case Enable(_) =>
    case EnableFailed =>
    case Unlocked =>
    case Disable(_) =>
    case Poll =>
    case Release =>
  }

  lemma WorkerStepInv(p: Pid, lock: nat, w: Worker, c: Choice)
    requires WorkerInv(w)
    ensures WorkerInv(WorkerStep(p, lock, w, c).1)
  {
    WorkerStepAccepting(p, lock, w, c);
  }

  lemma WorkerStepAccepting(p: Pid, lock: nat, w: Worker, c: Choice)
    requires WorkerInv(w)
    ensures var w' := WorkerStep(p, lock, w, c).1; Accepting(w') && !w'.addFailed ==> w'.held || w'.pc.Enable?
  {
    WorkerStepActive(p, lock, w, c);
    var w' := WorkerStep(p, lock, w, c).1;
    if w.pc.Enable? && w.pc.i < |w.active| {
    } else {
      assert Accepting(w') ==> Accepting(w);
    }
  }

  lemma StepInv(g: Global, p: Pid, c: Choice)
    requires Inv(g)
    ensures Inv(Step(g, p, c))
  {
    if p in g.workers {
      WorkerStepInv(p, g.lock, g.workers[p], c);
      WorkerStepLock(p, g.lock, g.workers[p], c);
    }
  }

  lemma InitInv(g: Global)
    requires Init(g)
    ensures Inv(g)
  {
  }

  lemma {:induction false} RunInv(g: Global, run: seq<Event>)
    requires Inv(g)
    ensures Inv(Run(g, run))
    decreases run
  {
    if run != [] {
      StepInv(g, run[0].p, run[0].c);
      RunInv(Step(g, run[0].p, run[0].c), run[1..]);
    }
  }

  // For any number of workers and any interleaving, whatever calls failed: a worker that polls owns the lock exactly
  // when this iteration went through the trylock and left it with the memo set; and with accept events registered, none
  // of whose additions failed, the memo is set.
  lemma PollingOwnsLock(g: Global, run: seq<Event>, p: Pid)
    requires Init(g)
    requires var g' := Run(g, run); p in g'.workers && g'.workers[p].pc == Poll
    ensures var g' := Run(g, run); var w := g'.workers[p];
      && (g'.lock == p <==> w.tried && w.held)
      && (Accepting(w) && !w.addFailed ==> w.held)
  {
    InitInv(g);
    RunInv(g, run);
  }

  // Hence at most one worker polls with accept events after the trylock.
  lemma OnePoller(g: Global, run: seq<Event>, p: Pid, q: Pid)
    requires Init(g)
    requires var g' := Run(g, run);
      forall r :: r in {p, q} ==>
        r in g'.workers && g'.workers[r].pc == Poll && Accepting(g'.workers[r]) && !g'.workers[r].addFailed &&
          g'.workers[r].tried
    ensures p == q
  {
    PollingOwnsLock(g, run, p);
    PollingOwnsLock(g, run, q);
  }

  // No step takes a lock that another worker holds or gives back a lock it does not hold, and no worker is at the
  // top of its loop with the lock, whatever calls failed and whether or not the trylock was skipped.
  lemma LockDiscipline(g: Global, run: seq<Event>, p: Pid, c: Choice)
    requires Init(g)
    ensures var g1 := Run(g, run); var g2 := Step(g1, p, c);
      && (g2.lock == g1.lock || (g1.lock == 0 && g2.lock == p) || (g1.lock == p && g2.lock == 0))
      && (p in g1.workers && g1.workers[p].pc == Start ==> g1.lock != p)
      && (p in g1.workers && g1.workers[p].pc == Release && g1.workers[p].tried && g1.workers[p].held ==>
         g1.lock == p && g2.lock == 0)
  {
    InitInv(g);
    RunInv(g, run);
    var g1 := Run(g, run);
    if p in g1.workers {
      WorkerStepLock(p, g1.lock, g1.workers[p], c);
    }
  }

  // ---- where mutual exclusion stops ----

  lemma {:induction false} RunConcat(g: Global, a: seq<Event>, b: seq<Event>)
    ensures Run(g, a + b) == Run(Run(g, a), b)
    decreases a
  {
    if a == [] {
      assert a + b == b;
    } else {
      assert (a + b)[0] == a[0] && (a + b)[1..] == a[1..] + b;
      RunConcat(Step(g, a[0].p, a[0].c), a[1..], b);
    }
  }

  lemma RunThree(g: Global, a: Event, b: Event, c: Event)
    ensures Run(g, [a, b, c]) == Step(Step(Step(g, a.p, a.c), b.p, b.c), c.p, c.c)
  {
    assert [a, b, c][1..] == [b, c] && [b, c][1..] == [c] && [c][1..] == [];
    var g1 := Step(g, a.p, a.c);
    assert Run(g, [a, b, c]) == Run(g1, [b, c]);
    var g2 := Step(g1, b.p, b.c);
    assert Run(g1, [b, c]) == Run(g2, [c]);
    assert Run(g2, [c]) == Run(Step(g2, c.p, c.c), []);
  }

  const GO := Choice(true, 0, false, {})
  const BUSY := Choice(true, 1, false, {})
  const FAIL := Choice(false, 0, false, {})

  // A worker at the top of its loop with these registrations.
  function Idle(active: seq<bool>): Worker {
    Worker(Start, false, false, 0, active, false, false)
  }

  // The worker goes from the top of its loop to the lock.
  lemma TakesLock(g: Global, p: Pid, w: Worker)
    requires p in g.workers && g.lock == 0 && g.workers[p] == w && w.pc == Start && w.disabled <= 0
    ensures Run(g, [Event(p, GO), Event(p, GO), Event(p, GO)]) == Global(p,
      g.workers[p := w.(tried := true, pc := Locked)])
  {
    var e := Event(p, GO);
    RunThree(g, e, e, e);
    var g1 := Step(g, p, GO);
    assert g1 == Global(0, g.workers[p := w.(tried := true, pc := Test)]);
    var g2 := Step(g1, p, GO);
    assert g2 == Global(0, g.workers[p := w.(tried := true, pc := Cas)]);
    assert Step(g2, p, GO) == Global(p, g.workers[p := w.(tried := true, pc := Locked)]);
  }

  // With one listening socket, it registers it and polls.
  lemma Registers(g: Global, p: Pid)
    requires p in g.workers && g.workers[p] == Idle([false]).(tried := true, pc := Locked)
    ensures Run(g, [Event(p, GO), Event(p, GO), Event(p, GO)]) ==
      g.(workers := g.workers[p := Worker(Poll, true, false, 0, [true], true, false)])
  {
    var e := Event(p, GO);
    RunThree(g, e, e, e);
    var w := g.workers[p];
    var g1 := Step(g, p, GO);
    assert g1 == g.(workers := g.workers[p := w.(pc := Enable(0))]);
    var g2 := Step(g1, p, GO);
    assert [false][0 := true] == [true];
    assert g2 == g.(workers := g.workers[p := w.(pc := Enable(1), active := [true])]);
  }

  // After its poll it gives the lock back; told to stand back, it polls again without the trylock.
  lemma StandsBack(g: Global, p: Pid)
    requires g.lock == p && p in g.workers && g.workers[p] == Worker(Poll, true, false, 0, [true], true, false)
    ensures Run(g, [Event(p, BUSY), Event(p, GO), Event(p, GO)]) ==
      Global(0, g.workers[p := Worker(Poll, true, false, 0, [true], false, false)])
  {
    RunThree(g, Event(p, BUSY), Event(p, GO), Event(p, GO));
    var g1 := Step(g, p, BUSY);
    assert g1.workers[p].active == [true];
    assert g1 == g.(workers := g.workers[p := Worker(Release, true, false, 1, [true], true, false)]);
    var g2 := Step(g1, p, GO);
    assert g2 == Global(0, g.workers[p := Worker(Start, true, false, 1, [true], true, false)]);
  }

  // The trylock is essential: a worker whose iteration skips it because ngx_accept_disabled is positive polls
  // with its accept events still registered while another worker owns the lock and polls too.
  lemma SkippedTrylockPolls(g: Global)
    requires g == Global(0, map[1 := Idle([false]), 2 := Idle([false])])
    ensures Init(g)
    ensures exists run {:trigger Run(g, run)} ::
      var g' := Run(g, run);
      && 1 in g'.workers && 2 in g'.workers && g'.lock == 2
      && (forall p :: p in {1, 2} ==> g'.workers[p].pc == Poll && Accepting(g'.workers[p]) && !g'.workers[p].addFailed)
  {
    var e1, b1, e2 := Event(1, GO), Event(1, BUSY), Event(2, GO);
    var r1, rb, r2 := [e1, e1, e1], [b1, e1, e1], [e2, e2, e2];
    ServesAndStandsBack(g, 1, r1, rb);
    var gc := Run(g, r1 + r1 + rb);
    TakesLock(gc, 2, Idle([false]));
    var gd := Run(gc, r2);
    Registers(gd, 2);
    var ge := Run(gd, r2);
    RunConcat(g, r1 + r1 + rb, r2);
    RunConcat(g, r1 + r1 + rb + r2, r2);
    assert Run(g, r1 + r1 + rb + r2 + r2) == ge;
    assert ge.workers[1].active[0] && ge.workers[2].active[0];
  }

  // A worker takes the lock, registers its accept event, polls, releases the lock and skips the next trylock.
  lemma ServesAndStandsBack(g: Global, p: Pid, r: seq<Event>, b: seq<Event>)
    requires p in g.workers && g.lock == 0 && g.workers[p] == Idle([false])
    requires r == [Event(p, GO), Event(p, GO), Event(p, GO)] && b == [Event(p, BUSY), Event(p, GO), Event(p, GO)]
    ensures Run(g, r + r + b) == Global(0, g.workers[p := Worker(Poll, true, false, 0, [true], false, false)])
  {
    TakesLock(g, p, Idle([false]));
    var ga := Run(g, r);
    Registers(ga, p);
    var gb := Run(ga, r);
    StandsBack(gb, p);
    RunConcat(g, r, r);
    RunConcat(g, r + r, b);
  }

  // The second of two registrations fails: the worker gives the lock back with the first event registered.
  lemma HalfRegisters(g: Global, p: Pid)
    requires g.lock == p && p in g.workers && g.workers[p] == Idle([false, false]).(tried := true, pc := Locked)
    ensures Run(g, [Event(p, GO), Event(p, GO), Event(p, FAIL)]) ==
      g.(workers := g.workers[p := Worker(EnableFailed, false, false, 0, [true, false], true, true)])
  {
    RunThree(g, Event(p, GO), Event(p, GO), Event(p, FAIL));
    var w := g.workers[p];
    var g1 := Step(g, p, GO);
    assert g1 == g.(workers := g.workers[p := w.(pc := Enable(0))]);
    var g2 := Step(g1, p, GO);
    assert [false, false][0 := true] == [true, false];
    assert g2 == g.(workers := g.workers[p := w.(pc := Enable(1), active := [true, false])]);
  }

  // So is a successful registration: after a failed ngx_add_event the events added before it stay registered, and
  // a worker that then fails to get the lock polls with them.
  lemma FailedAddPolls(g: Global)
    requires g == Global(0, map[1 := Idle([false, false]), 2 := Idle([false])])
    ensures Init(g)
    ensures exists run {:trigger Run(g, run)} ::
      var g' := Run(g, run);
      1 in g'.workers && g'.lock == 2 && g'.workers[1].pc == Poll && g'.workers[1].tried && Accepting(g'.workers[1])
  {
    var e1, f1, e2 := Event(1, GO), Event(1, FAIL), Event(2, GO);
    var ra, rb, rd := [e1, e1, e1], [e1, e1, f1], [e2, e2, e2];
    FailsHalfway(g, 1, ra, rb, [e1]);
    var gc := Run(g, ra + rb + [e1]);
    TakesLock(gc, 2, Idle([false]));
    var gd := Run(gc, rd);
    FindsLocked(gd, 1, ra);
    var ge := Run(gd, ra);
    RunConcat(g, ra + rb + [e1], rd);
    RunConcat(g, ra + rb + [e1] + rd, ra);
    assert Run(g, ra + rb + [e1] + rd + ra) == ge;
    assert ge.workers[1].active[0];
  }

  // A worker takes the lock, registers one of its two accept events and fails on the other.
  lemma FailsHalfway(g: Global, p: Pid, a: seq<Event>, b: seq<Event>, c: seq<Event>)
    requires p in g.workers && g.lock == 0 && g.workers[p] == Idle([false, false])
    requires a == [Event(p, GO), Event(p, GO), Event(p, GO)] && b == [Event(p, GO), Event(p, GO), Event(p, FAIL)]
    requires c == [Event(p, GO)]
    ensures Run(g, a + b + c) == Global(0, g.workers[p := Worker(Start, false, false, 0, [true, false], true, true)])
  {
    TakesLock(g, p, Idle([false, false]));
    var ga := Run(g, a);
    HalfRegisters(ga, p);
    var gb := Run(ga, b);
    assert Run(gb, c) == Step(gb, p, GO) by { assert c[1..] == []; }
    RunConcat(g, a, b);
    RunConcat(g, a + b, c);
  }

  // Then it polls while another one has the lock.
  lemma FindsLocked(g: Global, p: Pid, a: seq<Event>)
    requires p in g.workers && g.lock != 0 && a == [Event(p, GO), Event(p, GO), Event(p, GO)]
    requires g.workers[p] == Worker(Start, false, false, 0, [true, false], true, true)
    ensures Run(g, a) == g.(workers := g.workers[p := Worker(Poll, false, false, 0, [true, false], true, true)])
  {
    RunThree(g, a[0], a[1], a[2]);
    var g1 := Step(g, p, GO);
    var g2 := Step(g1, p, GO);
    assert g2.workers[p].pc == Unlocked;
  }
}
