/**
 Signalling between the threads of bio.c. A worker that finds its queue empty and a thread that
 drains a queue wait for the same condition, and a signal wakes one of them, whichever. This
 refines `Bio`, where waiting may end at any time: here a thread that waits stays where it is until
 it is signalled or wakes by itself, as POSIX allows.
 */
module BioSignals {
  import opened Bio
  import opened Common

  /** The workers and the draining threads that wait for a condition. */
  datatype World = World(s: State, sleeping: set<nat>, draining: set<nat>)

  datatype Waiter = TheWorker | Thread(t: nat)

  predicate Waits(x: World, t: nat, w: nat) {
    t in x.draining && CallOf(x.s, t) == WantDrain(w)
  }

  predicate IsWaiting(x: World, w: nat, waiter: Waiter) {
    match waiter
    case TheWorker => w in x.sleeping
    case Thread(t) => Waits(x, t, w)
  }

  /** A step, with the waiter that its signal wakes; or a waiter that wakes without one. */
  datatype Move = Do(step: Step, wakes: Option<Waiter>) | Spurious(w: nat, waiter: Waiter)

  /** The condition that a step signals: a job was added to the queue, or taken from it. */
  function Signals(s: State, step: Step): Option<nat> {
    match step
    case Count(t) => if CallOf(s, t).Appended? then Some(WorkerOf(CallOf(s, t).job.kind)) else None
    case Uncount(w) => Some(w)
    case _ => None
  }

  /** A signal wakes one waiter if there is any. */
  ghost predicate WakesOne(x: World, w: nat, wakes: Option<Waiter>) {
    if wakes.Some? then IsWaiting(x, w, wakes.value) else forall waiter :: !IsWaiting(x, w, waiter)
  }

  ghost predicate Possible(x: World, move: Move) {
    match move
    case Spurious(w, waiter) => w < WORKERS && IsWaiting(x, w, waiter)
    case Do(step, wakes) =>
      && Enabled(x.s, step)
      && (step.Wake? ==> step.w !in x.sleeping)
      && (step.Lock? ==> step.t !in x.draining)
      && var signalled := Signals(x.s, step);
         if signalled.Some? then WakesOne(x, signalled.value, wakes) else wakes.None?
  }

  function Woken(x: World, w: nat, waiter: Waiter): World {
    match waiter
    case TheWorker => x.(sleeping := x.sleeping - {w})
    case Thread(t) => x.(draining := x.draining - {t})
  }

  /** Who starts to wait. */
  function Waiting(x: World, step: Step): World {
    match step
    case Pick(w) =>
      if w < |x.s.benches| && x.s.benches[w].jobs == [] then x.(sleeping := x.sleeping + {w}) else x
    case Drain(t) =>
      var w := Holds(CallOf(x.s, t));
      if 0 <= w < |x.s.benches| && x.s.benches[w].jobs != [] then x.(draining := x.draining + {t}) else x
    case _ => x
  }

  ghost function After(x: World, move: Move): World
    requires Inv(x.s) && Possible(x, move)
  {
    match move
    case Spurious(w, waiter) => Woken(x, w, waiter)
    case Do(step, wakes) =>
      var y := Waiting(x, step).(s := Next(x.s, step));
      if wakes.Some? then Woken(y, Signals(x.s, step).value, wakes.value) else y
  }

  /** Every move is a step of `Bio`, or none. */
  lemma MoveKeeps(x: World, move: Move)
    requires Inv(x.s) && Possible(x, move)
    ensures Inv(After(x, move).s)
    ensures After(x, move).s == if move.Do? then Next(x.s, move.step) else x.s
  {
    hide Inv;
    if move.Do? {
      StepKeeps(x.s, move.step);
    }
  }

  // ----- nobody sleeps through a signal -----

  /** The thread is inside the draining function for this worker. */
  predicate Drains(call: Call, w: nat) {
    (call.WantDrain? || call.TestDrain? || call.LeaveDrain?) && call.w == w
  }

  /** One thread at a time drains a worker. */
  ghost predicate OneDrainer(x: World, w: nat) {
    forall t, u :: Drains(CallOf(x.s, t), w) && Drains(CallOf(x.s, u), w) ==> t == u
  }

  /** A job has just been added, and the signal is about to follow. */
  predicate Signalling(s: State, b: Bench) {
    b.owner.Caller? && CallOf(s, b.owner.t).Appended?
  }

  /**
   A worker waits only for an empty queue, unless the signal is about to follow, and then no
   thread waits with it. A thread waits to drain only a queue with jobs in it, or one whose last
   job the worker has just removed.
   */
  ghost predicate Awake(x: World, w: nat)
    requires |x.s.benches| == WORKERS && w < WORKERS
  {
    var b := x.s.benches[w];
    && (w in x.sleeping ==> b.place.Asleep? && (b.jobs == [] || Signalling(x.s, b)))
    && (forall t :: Waits(x, t, w) ==> w !in x.sleeping && (b.jobs != [] || b.place.Removed?))
    && OneDrainer(x, w)
  }

  ghost predicate AllAwake(x: World) {
    && Inv(x.s)
    && (forall w :: 0 <= w < WORKERS ==> Awake(x, w))
    && forall t :: t in x.draining ==> CallOf(x.s, t).WantDrain?
  }

  /** A thread starts to drain a worker only when no other does. */
  ghost predicate Single(x: World, move: Move) {
    move.Do? && move.step.Call? && move.step.call.WantDrain? ==>
      forall t :: !Drains(CallOf(x.s, t), move.step.call.w)
  }

  lemma SingleKeeps(x: World, move: Move, w: nat)
    requires Inv(x.s) && Possible(x, move) && Single(x, move) && w < WORKERS && OneDrainer(x, w)
    ensures OneDrainer(After(x, move), w)
  {
    hide Inv, Signals, WakesOne;
    MoveKeeps(x, move);
    var y := After(x, move);
    forall t, u | Drains(CallOf(y.s, t), w) && Drains(CallOf(y.s, u), w)
      ensures t == u
    {
      DrainsBefore(x, move, w, t);
      DrainsBefore(x, move, w, u);
    }
  }

  /** Who drains after a step did before, or has just called. */
  lemma DrainsBefore(x: World, move: Move, w: nat, t: nat)
    requires Inv(x.s) && Possible(x, move) && Drains(CallOf(After(x, move).s, t), w)
    ensures Drains(CallOf(x.s, t), w)
         || (move.Do? && move.step.Call? && move.step.t == t && move.step.call == WantDrain(w))
  {
    hide Inv, WakesOne;
    MoveKeeps(x, move);
    Facts(x.s, 0, t);
    if move.Do? && t != Mover(move.step) {
      OtherCall(x.s, move.step, t);
    }
  }

  lemma OtherCall(s: State, step: Step, t: nat)
    requires Shaped(s) && Enabled(s, step) && t != Mover(step)
    ensures CallOf(Next(s, step), t) == CallOf(s, t)
  {
  }

  /** What the invariant says about one bench and one thread. */
  lemma Facts(s: State, w: nat, t: nat)
    requires Inv(s) && w < WORKERS
    ensures |s.benches| == WORKERS && Shaped(s)
    ensures s.benches[w].owner.Worker? <==> HasLock(s.benches[w].place)
    ensures s.benches[w].owner.Caller? ==> Holds(CallOf(s, s.benches[w].owner.t)) == w
    ensures Holds(CallOf(s, t)) == w ==> s.benches[w].owner == Caller(t)
    ensures Holds(CallOf(s, t)) < WORKERS && Target(CallOf(s, t)) < WORKERS
  {
    assert BenchOk(s.benches[w]);
    assert t in s.calls ==> CallShaped(s.calls[t]);
  }

  /** Enough for one worker: nothing new waits, and the queue is as it was. */
  lemma StaysAwake(x: World, y: World, w: nat)
    requires |x.s.benches| == |y.s.benches| == WORKERS && w < WORKERS && Awake(x, w) && OneDrainer(y, w)
    requires w in y.sleeping ==> w in x.sleeping && y.s.benches[w].place.Asleep?
    requires w in y.sleeping ==> y.s.benches[w].jobs == [] || Signalling(y.s, y.s.benches[w])
    requires forall t :: Waits(y, t, w) ==> Waits(x, t, w)
    requires x.s.benches[w].jobs != [] ==> y.s.benches[w].jobs != []
    requires x.s.benches[w].place.Removed? ==> y.s.benches[w].place.Removed?
    ensures Awake(y, w)
  {
    hide OneDrainer, Waits, Signalling;
  }

  lemma AwakeOnCall(x: World, step: Step, w: nat)
    requires AllAwake(x) && w < WORKERS && Possible(x, Do(step, None)) && Single(x, Do(step, None))
    requires step.Call? || step.Read?
    ensures Awake(After(x, Do(step, None)), w)
  {
    var y := After(x, Do(step, None));
    assert Awake(x, w);
    SingleKeeps(x, Do(step, None), w);
    Facts(x.s, w, step.t);
    assert step.t !in x.draining;
    hide Inv, Single, OneDrainer, AllAwake, Awake;
    StaysAwakeHere(x, y, w);
  }

  lemma StaysAwakeHere(x: World, y: World, w: nat)
    requires |x.s.benches| == |y.s.benches| == WORKERS && w < WORKERS && Awake(x, w) && OneDrainer(y, w)
    requires y.s.benches[w] == x.s.benches[w] && (w in y.sleeping ==> w in x.sleeping)
    requires w in y.sleeping && Signalling(x.s, x.s.benches[w]) ==>
      y.s.benches[w].jobs == [] || Signalling(y.s, y.s.benches[w])
    requires forall t :: Waits(y, t, w) ==> Waits(x, t, w)
    ensures Awake(y, w)
  {
    hide OneDrainer, Waits, Signalling;
  }

  lemma AwakeOnLock(x: World, step: Step, w: nat)
    requires AllAwake(x) && w < WORKERS && Possible(x, Do(step, None)) && (step.Lock? || step.Unlock?)
    ensures Awake(After(x, Do(step, None)), w)
  {
    var y := After(x, Do(step, None));
    assert Awake(x, w);
    SingleKeeps(x, Do(step, None), w);
    Facts(x.s, w, step.t);
    assert step.Unlock? ==> step.t !in x.draining;
    hide Inv, Single, OneDrainer, AllAwake;
    StaysAwake(x, y, w);
  }

  /** A job is added: if the worker sleeps, the signal is about to follow. */
  lemma AwakeOnAppend(x: World, t: nat, w: nat)
    requires AllAwake(x) && w < WORKERS && Possible(x, Do(Append(t), None))
    ensures Awake(After(x, Do(Append(t), None)), w)
  {
    var y := After(x, Do(Append(t), None));
    assert Awake(x, w);
    SingleKeeps(x, Do(Append(t), None), w);
    Facts(x.s, w, t);
    assert t !in x.draining;
    hide Inv, Single, OneDrainer, AllAwake;
    StaysAwake(x, y, w);
  }

  /** The signal of a submission: a worker that sleeps sleeps alone, so it is the one that wakes. */
  lemma AwakeOnCount(x: World, t: nat, wakes: Option<Waiter>, w: nat)
    requires AllAwake(x) && w < WORKERS && Possible(x, Do(Count(t), wakes))
    ensures Awake(After(x, Do(Count(t), wakes)), w)
  {
    var y := After(x, Do(Count(t), wakes));
    assert Awake(x, w);
    SingleKeeps(x, Do(Count(t), wakes), w);
    Facts(x.s, w, t);
    assert t !in x.draining;
    if Signals(x.s, Count(t)) == Some(w) && w in x.sleeping {
      assert IsWaiting(x, w, TheWorker);
      assert wakes == Some(TheWorker);
    }
    hide Inv, Single, OneDrainer, AllAwake, WakesOne;
    StaysAwake(x, y, w);
  }

  /** A thread starts to wait: there are jobs, so the worker is up. */
  lemma AwakeOnDrain(x: World, t: nat, w: nat)
    requires AllAwake(x) && w < WORKERS && Possible(x, Do(Drain(t), None))
    ensures Awake(After(x, Do(Drain(t), None)), w)
  {
    var y := After(x, Do(Drain(t), None));
    assert Awake(x, w);
    SingleKeeps(x, Do(Drain(t), None), w);
    Facts(x.s, w, t);
    hide Inv, Single, OneDrainer, AllAwake, WakesOne;
    forall u | Waits(y, u, w)
      ensures w !in y.sleeping && (y.s.benches[w].jobs != [] || y.s.benches[w].place.Removed?)
    {
      assert u == t || Waits(x, u, w);
    }
    assert w in y.sleeping ==> y.s.benches[w].place.Asleep?;
  }

  /** The worker starts to wait: the queue is empty, so nobody waits to drain it. */
  lemma AwakeOnPick(x: World, v: nat, w: nat)
    requires AllAwake(x) && w < WORKERS && Possible(x, Do(Pick(v), None))
    ensures Awake(After(x, Do(Pick(v), None)), w)
  {
    var y := After(x, Do(Pick(v), None));
    assert Awake(x, w);
    SingleKeeps(x, Do(Pick(v), None), w);
    Facts(x.s, w, 0);
    hide Inv, Single, OneDrainer, AllAwake, WakesOne;
    forall u | Waits(y, u, w)
      ensures w !in y.sleeping && (y.s.benches[w].jobs != [] || y.s.benches[w].place.Removed?)
    {
      assert Waits(x, u, w);
    }
  }

  lemma AwakeOnWorker(x: World, step: Step, w: nat)
    requires AllAwake(x) && w < WORKERS && Possible(x, Do(step, None))
    requires step.Wake? || step.Work? || step.Relock? || step.Remove?
    ensures Awake(After(x, Do(step, None)), w)
  {
    var y := After(x, Do(step, None));
    assert Awake(x, w);
    SingleKeeps(x, Do(step, None), w);
    Facts(x.s, w, 0);
    hide Inv, Single, OneDrainer, AllAwake, WakesOne;
    forall u | Waits(y, u, w)
      ensures w !in y.sleeping && (y.s.benches[w].jobs != [] || y.s.benches[w].place.Removed?)
    {
      assert Waits(x, u, w);
    }
  }

  /** The signal of the worker: the one thread that waits is the one that wakes. */
  lemma AwakeOnUncount(x: World, v: nat, wakes: Option<Waiter>, w: nat)
    requires AllAwake(x) && w < WORKERS && Possible(x, Do(Uncount(v), wakes))
    ensures Awake(After(x, Do(Uncount(v), wakes)), w)
  {
    var y := After(x, Do(Uncount(v), wakes));
    assert Awake(x, w);
    SingleKeeps(x, Do(Uncount(v), wakes), w);
    Facts(x.s, w, 0);
    forall t
      ensures v == w && Waits(x, t, w) ==> wakes == Some(Thread(t))
    {
      if v == w && Waits(x, t, w) {
        OnlyOneWakes(x, w, t, wakes);
      }
    }
    hide Inv, Single, OneDrainer, AllAwake, WakesOne;
    forall t | Waits(y, t, w)
      ensures v != w && Waits(x, t, w)
    {
      assert Waits(x, t, w);
    }
  }

  lemma OnlyOneWakes(x: World, w: nat, t: nat, wakes: Option<Waiter>)
    requires OneDrainer(x, w) && w !in x.sleeping && Waits(x, t, w) && WakesOne(x, w, wakes)
    ensures wakes == Some(Thread(t))
  {
    assert IsWaiting(x, w, Thread(t)) && Drains(CallOf(x.s, t), w);
    assert wakes.Some? && wakes.value.Thread? && Drains(CallOf(x.s, wakes.value.t), w);
  }

  lemma AwakeOnSpurious(x: World, v: nat, waiter: Waiter, w: nat)
    requires AllAwake(x) && w < WORKERS && Possible(x, Spurious(v, waiter))
    ensures Awake(After(x, Spurious(v, waiter)), w)
  {
    var y := After(x, Spurious(v, waiter));
    assert Awake(x, w);
    SingleKeeps(x, Spurious(v, waiter), w);
    Facts(x.s, w, 0);
    hide Inv, Single, OneDrainer, AllAwake;
    StaysAwake(x, y, w);
  }

  lemma AwakeOnMain(x: World, step: Step, w: nat)
    requires AllAwake(x) && w < WORKERS && Possible(x, Do(step, None)) && (step.Collect? || step.Callback?)
    ensures Awake(After(x, Do(step, None)), w)
  {
    var y := After(x, Do(step, None));
    assert Awake(x, w);
    SingleKeeps(x, Do(step, None), w);
    Facts(x.s, w, 0);
    hide Inv, Single, OneDrainer, AllAwake;
    StaysAwakeHere(x, y, w);
  }

  lemma AwakeKept(x: World, move: Move, w: nat)
    requires AllAwake(x) && w < WORKERS && Possible(x, move) && Single(x, move)
    ensures |After(x, move).s.benches| == WORKERS && Awake(After(x, move), w)
  {
    MoveKeeps(x, move);
    Facts(After(x, move).s, 0, 0);
    hide Inv, AllAwake, Single, Awake, WakesOne, After, Enabled;
    match move
    case Spurious(v, waiter) => AwakeOnSpurious(x, v, waiter, w);
    case Do(step, wakes) =>
      match step
      case Call(_, _) => AwakeOnCall(x, step, w);
      case Read(_) => AwakeOnCall(x, step, w);
      case Lock(_) => AwakeOnLock(x, step, w);
      case Unlock(_) => AwakeOnLock(x, step, w);
      case Append(t) => AwakeOnAppend(x, t, w);
      case Count(t) => AwakeOnCount(x, t, wakes, w);
      case Drain(t) => AwakeOnDrain(x, t, w);
      case Wake(_) => AwakeOnWorker(x, step, w);
      case Pick(v) => AwakeOnPick(x, v, w);
      case Work(_) => AwakeOnWorker(x, step, w);
      case Relock(_) => AwakeOnWorker(x, step, w);
      case Remove(_) => AwakeOnWorker(x, step, w);
      case Uncount(v) => AwakeOnUncount(x, v, wakes, w);
      case Collect => AwakeOnMain(x, step, w);
      case Callback => AwakeOnMain(x, step, w);
  }

  /** A thread that waits wants to drain. */
  lemma DrainersKept(x: World, move: Move, t: nat)
    requires AllAwake(x) && Possible(x, move) && t in After(x, move).draining
    ensures CallOf(After(x, move).s, t).WantDrain?
  {
    Facts(x.s, 0, t);
    MoveKeeps(x, move);
    hide Inv, WakesOne, Awake;
    if move.Do? && t != Mover(move.step) {
      OtherCall(x.s, move.step, t);
    }
  }

  lemma AllAwakeKept(x: World, move: Move)
    requires AllAwake(x) && Possible(x, move) && Single(x, move)
    ensures AllAwake(After(x, move))
  {
    MoveKeeps(x, move);
    var y := After(x, move);
    forall w | 0 <= w < WORKERS
      ensures |y.s.benches| == WORKERS && Awake(y, w)
    {
      AwakeKept(x, move, w);
    }
    forall t | t in y.draining
      ensures CallOf(y.s, t).WantDrain?
    {
      DrainersKept(x, move, t);
    }
    hide Inv, Awake, Possible, After;
  }

  // ----- runs -----

  function Begin(): World { World(Start(), {}, {}) }

  lemma BeginAwake()
    ensures AllAwake(Begin())
  {
    StartHolds();
    hide Inv;
  }

  /** The world after some moves, if they are possible one after another. */
  ghost function Run(x: World, moves: seq<Move>): Option<World>
    requires Inv(x.s)
    decreases |moves|
  {
    if moves == [] then Some(x)
    else if !Possible(x, moves[0]) then None
    else MoveKeeps(x, moves[0]); Run(After(x, moves[0]), moves[1..])
  }

  /** No two threads drain a worker at the same time. */
  ghost predicate AllSingle(x: World, moves: seq<Move>)
    requires Inv(x.s)
    decreases |moves|
  {
    moves == []
    || (Single(x, moves[0])
        && (Possible(x, moves[0]) ==> (MoveKeeps(x, moves[0]); AllSingle(After(x, moves[0]), moves[1..]))))
  }

  ghost function RunFromStart(moves: seq<Move>): Option<World> { StartHolds(); Run(Begin(), moves) }

  ghost predicate SingleFromStart(moves: seq<Move>) { StartHolds(); AllSingle(Begin(), moves) }

  lemma {:induction false} EveryRunAwake(x: World, moves: seq<Move>)
    requires AllAwake(x) && Run(x, moves).Some? && AllSingle(x, moves)
    ensures AllAwake(Run(x, moves).value)
    decreases |moves|
  {
    hide Inv, Awake, Possible, After, Single;
    if moves != [] {
      AllAwakeKept(x, moves[0]);
      EveryRunAwake(After(x, moves[0]), moves[1..]);
    }
  }

  ghost predicate WorkerCanGo(x: World, w: nat) {
    Possible(x, Do(Wake(w), None)) || Possible(x, Do(Work(w), None)) || Possible(x, Do(Relock(w), None))
  }

  lemma AwakeCanGo(x: World, w: nat)
    requires AllAwake(x) && w < WORKERS
    ensures x.s.benches[w].owner.Free? && x.s.benches[w].jobs != [] ==> WorkerCanGo(x, w)
  {
    Facts(x.s, w, 0);
    assert Awake(x, w);
    hide Inv, AllAwake, OneDrainer;
  }

  lemma DrainerCanGo(x: World, w: nat, t: nat)
    requires AllAwake(x) && w < WORKERS
    ensures var b := x.s.benches[w];
      b.owner.Free? && b.jobs == [] && CallOf(x.s, t) == WantDrain(w) ==> Possible(x, Do(Lock(t), None))
  {
    Facts(x.s, w, t);
    assert Awake(x, w);
    hide Inv, AllAwake, OneDrainer;
    assert t in x.draining && CallOf(x.s, t) == WantDrain(w) ==> Waits(x, t, w);
  }

  /**
   No wake-up is lost: in every state of every run in which one thread at a time drains a worker,
   if the lock of a worker is free and its queue is not empty, the worker can go on; and a thread
   that drains an empty queue can go on too.
   */
  lemma NoLostWakeUp(moves: seq<Move>, w: nat, t: nat)
    requires RunFromStart(moves).Some? && SingleFromStart(moves) && w < WORKERS
    ensures var x := RunFromStart(moves).value;
      && |x.s.benches| == WORKERS
      && var b := x.s.benches[w];
         && (b.owner.Free? && b.jobs != [] ==> WorkerCanGo(x, w))
         && (b.owner.Free? && b.jobs == [] && CallOf(x.s, t) == WantDrain(w) ==> Possible(x, Do(Lock(t), None)))
  {
    hide Inv, Run, AllSingle, Begin, Awake, WorkerCanGo, Possible;
    BeginAwake();
    EveryRunAwake(Begin(), moves);
    var x := RunFromStart(moves).value;
    Facts(x.s, w, t);
    AwakeCanGo(x, w);
    DrainerCanGo(x, w, t);
  }

  // ----- two threads that drain the same worker -----

  const J0 := Job(0, LazyFree)
  const J1 := Job(1, LazyFree)
  const DRAIN := WantDrain(2)

  function Counters(n: int): map<Kind, int> {
    map[CloseFile := 0, AofFsync := 0, LazyFree := n, CloseAof := 0,
        RequestClose := 0, RequestFsync := 0, RequestFree := 0]
  }

  /** The third worker and three threads; nothing else moves. */
  function Scene(b: Bench, n: int, nextId: nat, c0: Call, c1: Call, c2: Call,
                 sleeping: set<nat>, draining: set<nat>): World
  {
    var quiet := Bench(Free, Asleep, [], [], []);
    World(State([quiet, quiet, b], Counters(n), map[0 := c0, 1 := c1, 2 := c2], nextId, [], [], []), sleeping, draining)
  }

  ghost predicate Reached(x: World) {
    Inv(x.s) && exists moves :: RunFromStart(moves) == Some(x)
  }

  lemma {:induction false} RunOn(x: World, moves: seq<Move>, move: Move)
    requires Inv(x.s) && Run(x, moves).Some? && Inv(Run(x, moves).value.s) && Possible(Run(x, moves).value, move)
    ensures Run(x, moves + [move]) == Some(After(Run(x, moves).value, move))
    decreases |moves|
  {
    hide Inv, Possible, After;
    if moves == [] {
      assert (moves + [move])[1..] == [];
      MoveKeeps(x, move);
    } else {
      MoveKeeps(x, moves[0]);
      assert (moves + [move])[1..] == moves[1..] + [move];
      RunOn(After(x, moves[0]), moves[1..], move);
    }
  }

  lemma On(x: World, move: Move, y: World)
    requires Reached(x) && Possible(x, move) && After(x, move) == y
    ensures Reached(y)
  {
    hide Inv, Possible, After;
    var moves :| RunFromStart(moves) == Some(x);
    MoveKeeps(x, move);
    StartHolds();
    RunOn(Begin(), moves, move);
    assert RunFromStart(moves + [move]) == Some(y);
  }

  lemma BeginReached()
    ensures Reached(Begin())
  {
    StartHolds();
    hide Inv;
    assert RunFromStart([]) == Some(Begin());
  }

  lemma CountersMove(n: int, m: int)
    ensures LazyFree in Counters(n) && Counters(n)[LazyFree] == n && Counters(n)[LazyFree := m] == Counters(m)
  {
  }

  function Called(calls: map<nat, Call>): World { World(Start().(calls := calls), {}, {}) }

  lemma CallGoes(calls: map<nat, Call>, t: nat, call: Call)
    requires Reached(Called(calls)) && t !in calls && Wants(call) && Target(call) < WORKERS
    ensures Reached(Called(calls[t := call]))
  {
    hide Inv;
    On(Called(calls), Do(Step.Call(t, call), None), Called(calls[t := call]));
  }

  /** Three threads have called: one to submit a job, two to drain. */
  lemma ThreadsCalled()
    ensures Reached(Scene(Bench(Free, Asleep, [], [], []), 0, 0, WantSubmit(LazyFree), DRAIN, DRAIN, {}, {}))
  {
    hide Reached;
    BeginReached();
    assert Begin() == Called(map[]);
    CallGoes(map[], 0, WantSubmit(LazyFree));
    CallGoes(map[0 := WantSubmit(LazyFree)], 1, DRAIN);
    CallGoes(map[0 := WantSubmit(LazyFree), 1 := DRAIN], 2, DRAIN);
    var x := Scene(Bench(Free, Asleep, [], [], []), 0, 0, WantSubmit(LazyFree), DRAIN, DRAIN, {}, {});
    var y := Called(map[0 := WantSubmit(LazyFree), 1 := DRAIN, 2 := DRAIN]);
    assert x.s.benches == y.s.benches;
    assert x == y;
  }

  lemma AppendGoes(b: Bench, n: int, id: nat, c1: Call, c2: Call, sleeping: set<nat>, draining: set<nat>)
    requires Reached(Scene(b, n, id, MaySubmit(LazyFree), c1, c2, sleeping, draining))
    ensures var job := Job(id, LazyFree);
      Reached(Scene(b.(jobs := b.jobs + [job], submitted := b.submitted + [job]), n, id + 1,
                    Appended(job), c1, c2, sleeping, draining))
  {
    hide Inv, Reached, Counters;
    var job := Job(id, LazyFree);
    var x := Scene(b, n, id, MaySubmit(LazyFree), c1, c2, sleeping, draining);
    var y := Scene(b.(jobs := b.jobs + [job], submitted := b.submitted + [job]), n, id + 1,
                   Appended(job), c1, c2, sleeping, draining);
    On(x, Do(Append(0), None), y);
  }

  lemma CountGoes(b: Bench, n: int, id: nat, job: Job, c1: Call, c2: Call,
                  sleeping: set<nat>, draining: set<nat>, wakes: Option<Waiter>)
    requires job.kind == LazyFree && Reached(Scene(b, n, id, Appended(job), c1, c2, sleeping, draining))
    requires WakesOne(Scene(b, n, id, Appended(job), c1, c2, sleeping, draining), 2, wakes) && wakes != Some(TheWorker)
    ensures Reached(Scene(b, n + 1, id, Submitted(job), c1, c2, sleeping,
                          if wakes.Some? then draining - {wakes.value.t} else draining))
  {
    hide Inv, Reached, Counters, WakesOne;
    CountersMove(n, n + 1);
    var x := Scene(b, n, id, Appended(job), c1, c2, sleeping, draining);
    var left := if wakes.Some? then draining - {wakes.value.t} else draining;
    On(x, Do(Count(0), wakes), Scene(b, n + 1, id, Submitted(job), c1, c2, sleeping, left));
  }

  lemma UncountGoes(b: Bench, n: int, id: nat, c0: Call, c1: Call, c2: Call,
                    sleeping: set<nat>, draining: set<nat>, t: nat)
    requires b.place.Removed? && b.place.job.kind == LazyFree
    requires Reached(Scene(b, n, id, c0, c1, c2, sleeping, draining))
    requires Waits(Scene(b, n, id, c0, c1, c2, sleeping, draining), t, 2)
    ensures Reached(Scene(b.(place := Top), n - 1, id, c0, c1, c2, sleeping, draining - {t}))
  {
    hide Inv, Reached, Counters;
    CountersMove(n, n - 1);
    var x := Scene(b, n, id, c0, c1, c2, sleeping, draining);
    var y := Scene(b.(place := Top), n - 1, id, c0, c1, c2, sleeping, draining - {t});
    On(x, Do(Uncount(2), Some(Thread(t))), y);
  }

  /** A job is queued; nobody waits, so its signal wakes nobody. */
  lemma FirstJobQueued()
    requires Reached(Scene(Bench(Free, Asleep, [], [], []), 0, 0, WantSubmit(LazyFree), DRAIN, DRAIN, {}, {}))
    ensures Reached(Scene(Bench(Free, Asleep, [J0], [J0], []), 1, 1, Idle, DRAIN, DRAIN, {}, {}))
  {
    hide Inv, Reached, Counters;
    assert [] + [J0] == [J0];
    var x0 := Scene(Bench(Free, Asleep, [], [], []), 0, 0, WantSubmit(LazyFree), DRAIN, DRAIN, {}, {});
    var x1 := Scene(Bench(Caller(0), Asleep, [], [], []), 0, 0, MaySubmit(LazyFree), DRAIN, DRAIN, {}, {});
    var x3 := Scene(Bench(Caller(0), Asleep, [J0], [J0], []), 1, 1, Submitted(J0), DRAIN, DRAIN, {}, {});
    var x4 := Scene(Bench(Free, Asleep, [J0], [J0], []), 1, 1, Idle, DRAIN, DRAIN, {}, {});
    On(x0, Do(Lock(0), None), x1);
    AppendGoes(Bench(Caller(0), Asleep, [], [], []), 0, 0, DRAIN, DRAIN, {}, {});
    CountGoes(Bench(Caller(0), Asleep, [J0], [J0], []), 0, 1, J0, DRAIN, DRAIN, {}, {}, None);
    On(x3, Do(Unlock(0), None), x4);
  }

  /** Both threads find it and wait. */
  lemma BothWait()
    requires Reached(Scene(Bench(Free, Asleep, [J0], [J0], []), 1, 1, Idle, DRAIN, DRAIN, {}, {}))
    ensures Reached(Scene(Bench(Free, Asleep, [J0], [J0], []), 1, 1, Idle, DRAIN, DRAIN, {}, {1, 2}))
  {
    hide Inv, Reached, Counters;
    var x4 := Scene(Bench(Free, Asleep, [J0], [J0], []), 1, 1, Idle, DRAIN, DRAIN, {}, {});
    var x5 := Scene(Bench(Caller(1), Asleep, [J0], [J0], []), 1, 1, Idle, TestDrain(2), DRAIN, {}, {});
    var x6 := Scene(Bench(Free, Asleep, [J0], [J0], []), 1, 1, Idle, DRAIN, DRAIN, {}, {1});
    var x7 := Scene(Bench(Caller(2), Asleep, [J0], [J0], []), 1, 1, Idle, DRAIN, TestDrain(2), {}, {1});
    var x8 := Scene(Bench(Free, Asleep, [J0], [J0], []), 1, 1, Idle, DRAIN, DRAIN, {}, {1, 2});
    On(x4, Do(Lock(1), None), x5);
    On(x5, Do(Drain(1), None), x6);
    On(x6, Do(Lock(2), None), x7);
    On(x7, Do(Drain(2), None), x8);
  }

  /** The worker takes it and works it off. */
  lemma JobDone()
    requires Reached(Scene(Bench(Free, Asleep, [J0], [J0], []), 1, 1, Idle, DRAIN, DRAIN, {}, {1, 2}))
    ensures Reached(Scene(Bench(Free, Done(J0), [J0], [J0], [J0]), 1, 1, Idle, DRAIN, DRAIN, {}, {1, 2}))
  {
    hide Inv, Reached, Counters;
    assert [] + [J0] == [J0];
    var x8 := Scene(Bench(Free, Asleep, [J0], [J0], []), 1, 1, Idle, DRAIN, DRAIN, {}, {1, 2});
    var x9 := Scene(Bench(Worker, Top, [J0], [J0], []), 1, 1, Idle, DRAIN, DRAIN, {}, {1, 2});
    var x10 := Scene(Bench(Free, Running(J0), [J0], [J0], []), 1, 1, Idle, DRAIN, DRAIN, {}, {1, 2});
    var x11 := Scene(Bench(Free, Done(J0), [J0], [J0], [J0]), 1, 1, Idle, DRAIN, DRAIN, {}, {1, 2});
    On(x8, Do(Wake(2), None), x9);
    On(x9, Do(Pick(2), None), x10);
    On(x10, Do(Work(2), None), x11);
  }

  /** It takes the job from the queue, wakes one of the two, and waits itself. */
  lemma OneDrainerWakes()
    requires Reached(Scene(Bench(Free, Done(J0), [J0], [J0], [J0]), 1, 1, Idle, DRAIN, DRAIN, {}, {1, 2}))
    ensures Reached(Scene(Bench(Free, Asleep, [], [J0], [J0]), 0, 1, Idle, DRAIN, DRAIN, {2}, {2}))
  {
    hide Inv, Reached, Counters;
    assert Delete([J0], J0) == [];
    assert {1, 2} - {1} == {2};
    var x11 := Scene(Bench(Free, Done(J0), [J0], [J0], [J0]), 1, 1, Idle, DRAIN, DRAIN, {}, {1, 2});
    var x12 := Scene(Bench(Worker, Relocked(J0), [J0], [J0], [J0]), 1, 1, Idle, DRAIN, DRAIN, {}, {1, 2});
    var x13 := Scene(Bench(Worker, Removed(J0), [], [J0], [J0]), 1, 1, Idle, DRAIN, DRAIN, {}, {1, 2});
    var x14 := Scene(Bench(Worker, Top, [], [J0], [J0]), 0, 1, Idle, DRAIN, DRAIN, {}, {2});
    var x15 := Scene(Bench(Free, Asleep, [], [J0], [J0]), 0, 1, Idle, DRAIN, DRAIN, {2}, {2});
    On(x11, Do(Relock(2), None), x12);
    On(x12, Do(Remove(2), None), x13);
    UncountGoes(Bench(Worker, Removed(J0), [], [J0], [J0]), 1, 1, Idle, DRAIN, DRAIN, {}, {1, 2}, 1);
    On(x14, Do(Pick(2), None), x15);
  }

  /** Another job is added. */
  lemma SecondJobAppended()
    requires Reached(Scene(Bench(Free, Asleep, [], [J0], [J0]), 0, 1, Idle, DRAIN, DRAIN, {2}, {2}))
    ensures Reached(Scene(Bench(Caller(0), Asleep, [J1], [J0, J1], [J0]), 0, 2, Appended(J1), DRAIN, DRAIN, {2}, {2}))
  {
    hide Inv, Reached, Counters;
    assert [] + [J1] == [J1] && [J0] + [J1] == [J0, J1];
    var x15 := Scene(Bench(Free, Asleep, [], [J0], [J0]), 0, 1, Idle, DRAIN, DRAIN, {2}, {2});
    var x16 := Scene(Bench(Free, Asleep, [], [J0], [J0]), 0, 1, WantSubmit(LazyFree), DRAIN, DRAIN, {2}, {2});
    var x17 := Scene(Bench(Caller(0), Asleep, [], [J0], [J0]), 0, 1, MaySubmit(LazyFree), DRAIN, DRAIN, {2}, {2});
    On(x15, Do(Step.Call(0, WantSubmit(LazyFree)), None), x16);
    On(x16, Do(Lock(0), None), x17);
    AppendGoes(Bench(Caller(0), Asleep, [], [J0], [J0]), 0, 1, DRAIN, DRAIN, {2}, {2});
  }

  /** Its signal wakes the other thread instead of the worker. */
  lemma WrongOneWakes()
    requires Reached(Scene(Bench(Caller(0), Asleep, [J1], [J0, J1], [J0]), 0, 2, Appended(J1), DRAIN, DRAIN, {2}, {2}))
    ensures Reached(Scene(Bench(Free, Asleep, [J1], [J0, J1], [J0]), 1, 2, Idle, DRAIN, DRAIN, {2}, {}))
  {
    hide Inv, Reached, Counters;
    assert {2} - {2} == {};
    var x19 := Scene(Bench(Caller(0), Asleep, [J1], [J0, J1], [J0]), 1, 2, Submitted(J1), DRAIN, DRAIN, {2}, {});
    var x20 := Scene(Bench(Free, Asleep, [J1], [J0, J1], [J0]), 1, 2, Idle, DRAIN, DRAIN, {2}, {});
    CountGoes(Bench(Caller(0), Asleep, [J1], [J0, J1], [J0]), 0, 2, J1, DRAIN, DRAIN, {2}, {2}, Some(Thread(2)));
    On(x19, Do(Unlock(0), None), x20);
  }

  /**
   With two threads draining the same worker a wake-up can be lost: the lock is free, a job is
   queued, and the worker waits for a signal that has been given.
   */
  lemma LostWakeUp()
    ensures var x := Scene(Bench(Free, Asleep, [J1], [J0, J1], [J0]), 1, 2, Idle, DRAIN, DRAIN, {2}, {});
      && Reached(x) && x.s.benches[2].owner.Free? && x.s.benches[2].jobs == [J1]
      && !WorkerCanGo(x, 2)
  {
    hide Reached;
    ThreadsCalled();
    FirstJobQueued();
    BothWait();
    JobDone();
    OneDrainerWakes();
    SecondJobAppended();
    WrongOneWakes();
  }
}
