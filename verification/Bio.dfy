/**
 Background jobs (bio.c): three worker threads, each with a queue, a mutex and a condition
 variable, any number of threads that submit, count and drain jobs, and the main thread that runs
 completion callbacks. Every lock, unlock and change to a queue or a counter is a step of its own,
 so a run is any interleaving of these. Waiting for a condition gives up the lock and may end at
 any time.
 */
module Bio {

  datatype Kind = CloseFile | AofFsync | LazyFree | CloseAof | RequestClose | RequestFsync | RequestFree

  const WORKERS := 3

  /** bio_job_to_worker */
  function WorkerOf(kind: Kind): (w: nat)
    ensures w < WORKERS
  {
    match kind
    case CloseFile => 0
    case AofFsync => 1
    case CloseAof => 1
    case LazyFree => 2
    case RequestClose => 0
    case RequestFsync => 1
    case RequestFree => 2
  }

  /** Jobs that only ask for a callback once the worker gets to them. */
  predicate IsRequest(kind: Kind) { kind in {RequestClose, RequestFsync, RequestFree} }

  /** Jobs are numbered as they enter a queue. */
  datatype Job = Job(id: nat, kind: Kind)

  datatype Owner = Free | Worker | Caller(t: nat)

  /** Where a worker thread is. */
  datatype Place =
    | Asleep            // before the lock, or waiting for the condition
    | Top               // at the top of its loop, with the lock
    | Running(job: Job) // without the lock
    | Done(job: Job)    // the job's work is done, the lock not yet taken again
    | Relocked(job: Job)
    | Removed(job: Job) // out of the queue, not yet off the counter

  /** A worker, with the history of its queue: what was ever put in, and what was worked off. */
  datatype Bench = Bench(owner: Owner, place: Place, jobs: seq<Job>, submitted: seq<Job>, finished: seq<Job>)

  /** Where a thread that uses the workers is. */
  datatype Call =
    | Idle
    | WantSubmit(kind: Kind)
    | MaySubmit(kind: Kind)             // with the lock
    | Appended(job: Job)                // with the lock, not yet counted
    | Submitted(job: Job)               // with the lock
    | WantDrain(w: nat)                 // before the lock, or waiting for the condition
    | TestDrain(w: nat)                 // with the lock
    | LeaveDrain(w: nat)                // with the lock, about to return
    | WantCount(kind: Kind)
    | MayCount(kind: Kind)              // with the lock
    | LeaveCount(kind: Kind, n: int)    // with the lock, about to return

  datatype State = State(
    benches: seq<Bench>,
    counter: map<Kind, int>,
    calls: map<nat, Call>,
    nextId: nat,
    completions: seq<Job>,  // done requests that the main thread has not picked up
    picked: seq<Job>,       // picked up, callback still to run
    called: seq<Job>)       // callbacks run

  /** The worker whose lock a thread holds. */
  function Holds(call: Call): int {
    match call
    case MaySubmit(kind) => WorkerOf(kind)
    case Appended(job) => WorkerOf(job.kind)
    case Submitted(job) => WorkerOf(job.kind)
    case TestDrain(w) => w
    case LeaveDrain(w) => w
    case MayCount(kind) => WorkerOf(kind)
    case LeaveCount(kind, _) => WorkerOf(kind)
    case Idle => -1
    case WantSubmit(_) => -1
    case WantDrain(_) => -1
    case WantCount(_) => -1
  }

  predicate HasLock(place: Place) { place.Top? || place.Relocked? || place.Removed? }

  // ----- steps -----

  datatype Step =
    | Call(t: nat, call: Call)  // a thread calls one of the functions
    | Lock(t: nat)
    | Append(t: nat)
    | Count(t: nat)
    | Unlock(t: nat)
    | Drain(t: nat)             // the test of the draining loop
    | Read(t: nat)
    | Wake(w: nat)
    | Pick(w: nat)              // the test of the worker's loop
    | Work(w: nat)
    | Relock(w: nat)
    | Remove(w: nat)
    | Uncount(w: nat)
    | Collect
    | Callback

  /** What a thread that waits for a lock does with it. */
  function Locked(call: Call): Call {
    match call
    case WantSubmit(kind) => MaySubmit(kind)
    case WantDrain(w) => TestDrain(w)
    case WantCount(kind) => MayCount(kind)
    case _ => Idle
  }

  predicate Wants(call: Call) { call.WantSubmit? || call.WantDrain? || call.WantCount? }

  function Target(call: Call): nat {
    match call
    case WantSubmit(kind) => WorkerOf(kind)
    case WantDrain(w) => w
    case WantCount(kind) => WorkerOf(kind)
    case _ => 0
  }

  function CallOf(s: State, t: nat): Call {
    if t in s.calls then s.calls[t] else Idle
  }

  predicate Enabled(s: State, step: Step) {
    match step
    case Call(t, call) => CallOf(s, t).Idle? && Wants(call) && Target(call) < WORKERS
    case Lock(t) =>
      var call := CallOf(s, t);
      Wants(call) && Target(call) < |s.benches| && s.benches[Target(call)].owner.Free?
    case Append(t) => CallOf(s, t).MaySubmit?
    case Count(t) => CallOf(s, t).Appended?
    case Unlock(t) =>
      var call := CallOf(s, t);
      call.Submitted? || call.LeaveDrain? || call.LeaveCount?
    case Drain(t) => CallOf(s, t).TestDrain?
    case Read(t) => CallOf(s, t).MayCount?
    case Wake(w) => w < |s.benches| && s.benches[w].place.Asleep? && s.benches[w].owner.Free?
    case Pick(w) => w < |s.benches| && s.benches[w].place.Top?
    case Work(w) => w < |s.benches| && s.benches[w].place.Running?
    case Relock(w) => w < |s.benches| && s.benches[w].place.Done? && s.benches[w].owner.Free?
    case Remove(w) => w < |s.benches| && s.benches[w].place.Relocked?
    case Uncount(w) => w < |s.benches| && s.benches[w].place.Removed?
    case Collect => s.picked == [] && s.completions != []
    case Callback => s.picked != []
  }

  /** Unlinking one job. */
  function Delete(jobs: seq<Job>, job: Job): seq<Job> {
    if jobs == [] then [] else if jobs[0] == job then jobs[1..] else [jobs[0]] + Delete(jobs[1..], job)
  }

  function SetBench(s: State, w: nat, b: Bench): State
    requires w < |s.benches|
  {
    s.(benches := s.benches[w := b])
  }

  function SetCall(s: State, t: nat, call: Call): State {
    s.(calls := s.calls[t := call])
  }

  /** The right number of workers, a counter for every kind, and no call for a worker that is not there. */
  ghost predicate Shaped(s: State) {
    && |s.benches| == WORKERS
    && (forall kind: Kind :: kind in s.counter)
    && forall t :: t in s.calls ==> CallShaped(s.calls[t])
  }

  predicate CallShaped(call: Call) {
    Target(call) < WORKERS && Holds(call) < WORKERS
  }

  ghost function Next(s: State, step: Step): State
    requires Shaped(s) && Enabled(s, step)
  {
    match step
    case Call(t, call) => SetCall(s, t, call)
    case Lock(t) =>
      var call := CallOf(s, t);
      var w := Target(call);
      SetCall(SetBench(s, w, s.benches[w].(owner := Caller(t))), t, Locked(call))
    case Append(t) =>
      var kind := CallOf(s, t).kind;
      var w, job := WorkerOf(kind), Job(s.nextId, kind);
      var b := s.benches[w];
      var b' := b.(jobs := b.jobs + [job], submitted := b.submitted + [job]);
      SetCall(SetBench(s, w, b'), t, Appended(job)).(nextId := s.nextId + 1)
    case Count(t) =>
      var job := CallOf(s, t).job;
      SetCall(s, t, Submitted(job)).(counter := s.counter[job.kind := s.counter[job.kind] + 1])
    case Unlock(t) =>
      var w := Holds(CallOf(s, t));
      SetCall(SetBench(s, w, s.benches[w].(owner := Free)), t, Idle)
    case Drain(t) =>
      var w := Holds(CallOf(s, t));
      if s.benches[w].jobs == [] then SetCall(s, t, LeaveDrain(w))
      else SetCall(SetBench(s, w, s.benches[w].(owner := Free)), t, WantDrain(w))
    case Read(t) =>
      var kind := CallOf(s, t).kind;
      SetCall(s, t, LeaveCount(kind, s.counter[kind]))
    case Wake(w) => SetBench(s, w, s.benches[w].(owner := Worker, place := Top))
    case Pick(w) =>
      var b := s.benches[w];
      SetBench(s, w, b.(owner := Free, place := if b.jobs == [] then Asleep else Running(b.jobs[0])))
    case Work(w) =>
      var b := s.benches[w];
      var job := b.place.job;
      var t := SetBench(s, w, b.(place := Done(job), finished := b.finished + [job]));
      if IsRequest(job.kind) then t.(completions := t.completions + [job]) else t
    case Relock(w) =>
      var b := s.benches[w];
      SetBench(s, w, b.(owner := Worker, place := Relocked(b.place.job)))
    case Remove(w) =>
      var b := s.benches[w];
      SetBench(s, w, b.(place := Removed(b.place.job), jobs := Delete(b.jobs, b.place.job)))
    case Uncount(w) =>
      var b := s.benches[w];
      var kind := b.place.job.kind;
      SetBench(s, w, b.(place := Top)).(counter := s.counter[kind := s.counter[kind] - 1])
    case Collect => s.(picked := s.completions, completions := [])
    case Callback => s.(called := s.called + [s.picked[0]], picked := s.picked[1..])
  }

  // ----- what holds in every state -----

  /**
   A worker holds its lock at three places. What it was given is what it worked off, in that
   order, followed by its queue; while a job that is done is still in the queue, it is the first.
   */
  predicate BenchOk(b: Bench) {
    && (b.owner.Worker? <==> HasLock(b.place))
    && match b.place
       case Asleep => b.submitted == b.finished + b.jobs
       case Top => b.submitted == b.finished + b.jobs
       case Running(job) => b.jobs != [] && b.jobs[0] == job && b.submitted == b.finished + b.jobs
       case Done(job) => AlmostOff(b, job)
       case Relocked(job) => AlmostOff(b, job)
       case Removed(job) => b.submitted == b.finished + b.jobs && job in b.finished
  }

  predicate AlmostOff(b: Bench, job: Job) {
    && b.jobs != [] && b.jobs[0] == job
    && b.finished != [] && b.finished[|b.finished| - 1] == job
    && b.submitted == b.finished + b.jobs[1..]
  }

  /** Jobs are numbered in the order they came, and come to the worker for their kind. */
  predicate Numbered(b: Bench, w: nat, nextId: nat) {
    && (forall i, j :: 0 <= i < j < |b.submitted| ==> b.submitted[i].id < b.submitted[j].id)
    && forall i :: 0 <= i < |b.submitted| ==> b.submitted[i].id < nextId && WorkerOf(b.submitted[i].kind) == w
  }

  ghost predicate BenchesOk(s: State) {
    && |s.benches| == WORKERS
    && forall w :: 0 <= w < WORKERS ==> BenchOk(s.benches[w]) && Numbered(s.benches[w], w, s.nextId)
  }

  /** A lock has the owner that thinks it holds it. */
  ghost predicate OwnersOk(s: State) {
    && Shaped(s)
    && (forall w :: 0 <= w < WORKERS && s.benches[w].owner.Caller? ==> Holds(CallOf(s, s.benches[w].owner.t)) == w)
    && forall t :: t in s.calls && Holds(s.calls[t]) >= 0 ==> s.benches[Holds(s.calls[t])].owner == Caller(t)
  }

  function Queued(jobs: seq<Job>, kind: Kind): nat {
    if jobs == [] then 0 else Queued(jobs[..|jobs| - 1], kind) + One(jobs[|jobs| - 1].kind == kind)
  }

  function One(b: bool): nat { if b then 1 else 0 }

  /** By how much a counter is off, inside a critical section. */
  function Skew(s: State, b: Bench, kind: Kind): int {
    match b.owner
    case Free => 0
    case Worker => if b.place.Removed? && b.place.job.kind == kind then 1 else 0
    case Caller(t) =>
      var call := CallOf(s, t);
      if call.Appended? && call.job.kind == kind then -1 else 0
  }

  ghost predicate CounterOk(s: State, kind: Kind)
    requires |s.benches| == WORKERS && kind in s.counter
  {
    var b := s.benches[WorkerOf(kind)];
    s.counter[kind] == Queued(b.jobs, kind) + Skew(s, b, kind)
  }

  /** A thread about to return from draining or counting has the truth. */
  ghost predicate CallOk(s: State, call: Call)
    requires |s.benches| == WORKERS && CallShaped(call)
  {
    match call
    case LeaveDrain(w) => s.benches[w].jobs == []
    case LeaveCount(kind, n) => n == Queued(s.benches[WorkerOf(kind)].jobs, kind)
    case Idle => true
    case WantSubmit(_) => true
    case MaySubmit(_) => true
    case Appended(_) => true
    case Submitted(_) => true
    case WantDrain(_) => true
    case TestDrain(_) => true
    case WantCount(_) => true
    case MayCount(_) => true
  }

  predicate Distinct(q: seq<Job>) {
    forall i, j :: 0 <= i < j < |q| ==> q[i] != q[j]
  }

  function Requests(s: State): seq<Job> {
    s.called + s.picked + s.completions
  }

  /** Every request that a worker got to is on its way to its callback, once. */
  ghost predicate RequestsOk(s: State)
    requires |s.benches| == WORKERS
  {
    && Distinct(Requests(s))
    && forall job: Job :: job in Requests(s) <==> IsRequest(job.kind) && job in s.benches[WorkerOf(job.kind)].finished
  }

  ghost predicate Inv(s: State) {
    && Shaped(s)
    && BenchesOk(s)
    && OwnersOk(s)
    && (forall kind: Kind :: CounterOk(s, kind))
    && (forall t :: t in s.calls ==> CallOk(s, s.calls[t]))
    && RequestsOk(s)
  }

  // ----- every step keeps it -----

  lemma ShapedKept(s: State, step: Step)
    requires Inv(s) && Enabled(s, step)
    ensures Shaped(Next(s, step))
  {
    hide BenchesOk, OwnersOk, CounterOk, CallOk, RequestsOk;
  }

  // One worker's bench.

  lemma OwnerChange(b: Bench, owner: Owner)
    requires BenchOk(b) && !b.owner.Worker? && !owner.Worker?
    ensures BenchOk(b.(owner := owner))
  {
  }

  lemma AppendBench(b: Bench, job: Job, w: nat)
    requires BenchOk(b) && Numbered(b, w, job.id) && WorkerOf(job.kind) == w
    ensures var b' := b.(jobs := b.jobs + [job], submitted := b.submitted + [job]);
      BenchOk(b') && Numbered(b', w, job.id + 1)
  {
    assert b.finished + (b.jobs + [job]) == (b.finished + b.jobs) + [job];
    if b.jobs != [] {
      assert (b.jobs + [job])[1..] == b.jobs[1..] + [job];
      assert b.finished + (b.jobs[1..] + [job]) == (b.finished + b.jobs[1..]) + [job];
    }
  }

  lemma WorkBench(b: Bench)
    requires BenchOk(b) && b.place.Running?
    ensures BenchOk(b.(place := Done(b.place.job), finished := b.finished + [b.place.job]))
  {
    assert b.jobs == [b.jobs[0]] + b.jobs[1..];
    assert b.finished + b.jobs == (b.finished + [b.place.job]) + b.jobs[1..];
  }

  lemma RemoveBench(b: Bench)
    requires BenchOk(b) && b.place.Relocked?
    ensures Delete(b.jobs, b.place.job) == b.jobs[1..]
    ensures BenchOk(b.(place := Removed(b.place.job), jobs := Delete(b.jobs, b.place.job)))
  {
  }

  lemma BenchReplaced(s: State, s': State, w: nat)
    requires BenchesOk(s) && w < WORKERS && |s'.benches| == WORKERS && s.nextId <= s'.nextId
    requires s'.benches == s.benches[w := s'.benches[w]]
    requires BenchOk(s'.benches[w]) && Numbered(s'.benches[w], w, s'.nextId)
    ensures BenchesOk(s')
  {
    hide BenchOk;
  }

  lemma BenchesSame(s: State, s': State)
    requires BenchesOk(s) && s'.benches == s.benches && s'.nextId == s.nextId
    ensures BenchesOk(s')
  {
    hide BenchOk, Numbered;
  }

  /** The owner of a lock that a thread thinks it holds. */
  lemma LockHeld(s: State, t: nat)
    requires OwnersOk(s) && Holds(CallOf(s, t)) >= 0
    ensures Holds(CallOf(s, t)) < WORKERS && s.benches[Holds(CallOf(s, t))].owner == Caller(t)
  {
  }

  lemma BenchesKeptByThread(s: State, step: Step)
    requires Inv(s) && Enabled(s, step)
    requires step.Call? || step.Lock? || step.Append? || step.Count? || step.Unlock? || step.Drain? || step.Read?
    ensures BenchesOk(Next(s, step))
  {
    hide BenchOk, Numbered, OwnersOk, CounterOk, CallOk, RequestsOk;
    var s' := Next(s, step);
    match step
    case Call(_, _) => BenchesSame(s, s');
    case Count(_) => BenchesSame(s, s');
    case Read(_) => BenchesSame(s, s');
    case Lock(t) =>
      var w := Target(CallOf(s, t));
      OwnerChange(s.benches[w], Caller(t));
      BenchOwner(s, s', w, Caller(t));
    case Unlock(t) =>
      LockHeld(s, t);
      var w := Holds(CallOf(s, t));
      OwnerChange(s.benches[w], Free);
      BenchOwner(s, s', w, Free);
    case Drain(t) =>
      LockHeld(s, t);
      var w := Holds(CallOf(s, t));
      if s.benches[w].jobs == [] {
        BenchesSame(s, s');
      } else {
        OwnerChange(s.benches[w], Free);
        BenchOwner(s, s', w, Free);
      }
    case Append(t) =>
      var kind := CallOf(s, t).kind;
      AppendBench(s.benches[WorkerOf(kind)], Job(s.nextId, kind), WorkerOf(kind));
      BenchReplaced(s, s', WorkerOf(kind));
  }

  lemma BenchOwner(s: State, s': State, w: nat, owner: Owner)
    requires BenchesOk(s) && w < WORKERS && s'.nextId == s.nextId
    requires s'.benches == s.benches[w := s.benches[w].(owner := owner)] && BenchOk(s.benches[w].(owner := owner))
    ensures BenchesOk(s')
  {
    hide BenchOk;
    BenchReplaced(s, s', w);
  }

  /** The worker's steps that only move it about. */
  lemma MoveBench(b: Bench)
    requires BenchOk(b)
    ensures b.place.Asleep? && b.owner.Free? ==> BenchOk(b.(owner := Worker, place := Top))
    ensures b.place.Top? ==>
      BenchOk(b.(owner := Free, place := if b.jobs == [] then Asleep else Running(b.jobs[0])))
    ensures b.place.Done? && b.owner.Free? ==> BenchOk(b.(owner := Worker, place := Relocked(b.place.job)))
    ensures b.place.Removed? ==> BenchOk(b.(place := Top))
  {
  }

  lemma NumberedSame(b: Bench, b': Bench, w: nat, n: nat)
    requires Numbered(b, w, n) && b'.submitted == b.submitted
    ensures Numbered(b', w, n)
  {
  }

  lemma BenchesKeptByWorker(s: State, step: Step)
    requires Inv(s) && Enabled(s, step)
    requires step.Wake? || step.Pick? || step.Work? || step.Relock? || step.Remove? || step.Uncount?
    ensures BenchesOk(Next(s, step))
  {
    hide OwnersOk, CounterOk, CallOk, RequestsOk, Delete, BenchOk, Numbered;
    var s', w := Next(s, step), step.w;
    var b := s.benches[w];
    MoveBench(b);
    if step.Work? {
      WorkBench(b);
    }
    if step.Remove? {
      RemoveBench(b);
    }
    NumberedSame(b, s'.benches[w], w, s.nextId);
    BenchReplaced(s, s', w);
  }

  lemma BenchesKept(s: State, step: Step)
    requires Inv(s) && Enabled(s, step)
    ensures BenchesOk(Next(s, step))
  {
    hide Inv, Enabled;
    if step.Call? || step.Lock? || step.Append? || step.Count? || step.Unlock? || step.Drain? || step.Read? {
      BenchesKeptByThread(s, step);
    } else if step.Collect? || step.Callback? {
      BenchesKeptByMain(s, step);
    } else {
      BenchesKeptByWorker(s, step);
    }
  }

  lemma BenchesKeptByMain(s: State, step: Step)
    requires Inv(s) && Enabled(s, step) && (step.Collect? || step.Callback?)
    ensures BenchesOk(Next(s, step))
  {
    BenchesSame(s, Next(s, step));
  }

  // Locks.

  lemma OwnersMove(s: State, s': State, t: nat, w: nat)
    requires OwnersOk(s) && Shaped(s') && w < WORKERS
    requires forall x :: 0 <= x < WORKERS && x != w ==> s'.benches[x].owner == s.benches[x].owner
    requires t in s'.calls && s'.calls == s.calls[t := s'.calls[t]]
    requires s.benches[w].owner == Free || s.benches[w].owner == Caller(t)
    requires Holds(CallOf(s, t)) < 0 || Holds(CallOf(s, t)) == w
    requires Holds(s'.calls[t]) < 0 || Holds(s'.calls[t]) == w
    requires s'.benches[w].owner == if Holds(s'.calls[t]) == w then Caller(t) else Free
    ensures OwnersOk(s')
  {
    hide Holds, Target;
  }

  lemma OwnersWork(s: State, s': State, w: nat)
    requires OwnersOk(s) && Shaped(s') && w < WORKERS && s'.calls == s.calls
    requires forall x :: 0 <= x < WORKERS && x != w ==> s'.benches[x].owner == s.benches[x].owner
    requires !s.benches[w].owner.Caller? && !s'.benches[w].owner.Caller?
    ensures OwnersOk(s')
  {
    hide Holds, Target;
  }

  lemma OwnersKeptByThread(s: State, step: Step)
    requires Inv(s) && Enabled(s, step)
    requires step.Call? || step.Lock? || step.Append? || step.Count? || step.Unlock? || step.Drain? || step.Read?
    ensures OwnersOk(Next(s, step))
  {
    hide BenchesOk, OwnersOk, CounterOk, CallOk, RequestsOk;
    ShapedKept(s, step);
    var s', t := Next(s, step), step.t;
    if Holds(CallOf(s, t)) >= 0 {
      LockHeld(s, t);
      OwnersMove(s, s', t, Holds(CallOf(s, t)));
    } else if step.Lock? {
      OwnersMove(s, s', t, Target(CallOf(s, t)));
    } else {
      OwnersCall(s, s', t);
    }
  }

  lemma OwnersCall(s: State, s': State, t: nat)
    requires OwnersOk(s) && Shaped(s') && s'.benches == s.benches
    requires t in s'.calls && s'.calls == s.calls[t := s'.calls[t]]
    requires Holds(CallOf(s, t)) < 0 && Holds(s'.calls[t]) < 0
    ensures OwnersOk(s')
  {
    hide Holds, Target;
  }

  lemma OwnersKept(s: State, step: Step)
    requires Inv(s) && Enabled(s, step)
    ensures OwnersOk(Next(s, step))
  {
    if step.Call? || step.Lock? || step.Append? || step.Count? || step.Unlock? || step.Drain? || step.Read? {
      OwnersKeptByThread(s, step);
    } else {
      OwnersKeptByOthers(s, step);
    }
  }

  lemma OwnersKeptByOthers(s: State, step: Step)
    requires Inv(s) && Enabled(s, step)
    requires !(step.Call? || step.Lock? || step.Append? || step.Count? || step.Unlock? || step.Drain? || step.Read?)
    ensures OwnersOk(Next(s, step))
  {
    hide OwnersOk, CounterOk, CallOk, RequestsOk, Numbered, AlmostOff;
    ShapedKept(s, step);
    var s' := Next(s, step);
    if step.Collect? || step.Callback? {
      OwnersSame(s, s');
    } else if s.benches[step.w].owner.Caller? {
      OwnersSame(s, s');
    } else {
      OwnersWork(s, s', step.w);
    }
  }

  lemma OwnersSame(s: State, s': State)
    requires OwnersOk(s) && Shaped(s') && s'.calls == s.calls
    requires forall x :: 0 <= x < WORKERS ==> s'.benches[x].owner == s.benches[x].owner
    ensures OwnersOk(s')
  {
    hide Holds, Target;
  }

  // Counters.

  lemma QueuedAppend(jobs: seq<Job>, job: Job, kind: Kind)
    ensures Queued(jobs + [job], kind) == Queued(jobs, kind) + One(job.kind == kind)
  {
    assert (jobs + [job])[..|jobs|] == jobs;
  }

  lemma {:induction false} QueuedTail(jobs: seq<Job>, kind: Kind)
    requires jobs != []
    ensures Queued(jobs, kind) == Queued(jobs[1..], kind) + One(jobs[0].kind == kind)
    decreases |jobs|
  {
    if |jobs| > 1 {
      var front := jobs[..|jobs| - 1];
      QueuedTail(front, kind);
      assert jobs[1..][..|jobs| - 2] == front[1..];
    }
  }

  /** What a counter does not depend on. */
  lemma CounterSame(s: State, s': State, kind: Kind)
    requires Shaped(s) && Shaped(s') && CounterOk(s, kind) && s'.counter[kind] == s.counter[kind]
    requires s'.benches[WorkerOf(kind)].jobs == s.benches[WorkerOf(kind)].jobs
    requires Skew(s', s'.benches[WorkerOf(kind)], kind) == Skew(s, s.benches[WorkerOf(kind)], kind)
    ensures CounterOk(s', kind)
  {
  }

  /** A thread that does not hold a lock, before or after, has no say in its counters. */
  lemma SkewOfOthers(s: State, s': State, t: nat, x: nat, kind: Kind)
    requires OwnersOk(s) && x < WORKERS && Holds(CallOf(s, t)) != x
    requires s'.calls == s.calls[t := CallOf(s', t)]
    ensures Skew(s', s.benches[x], kind) == Skew(s, s.benches[x], kind)
  {
    hide Holds, Target;
    if s.benches[x].owner.Caller? {
      assert Holds(CallOf(s, s.benches[x].owner.t)) == x;
    }
  }

  /** A step of a thread that does not hold the lock of this kind's worker, and does not take it. */
  lemma CounterElsewhere(s: State, s': State, t: nat, kind: Kind)
    requires OwnersOk(s) && Shaped(s') && CounterOk(s, kind)
    requires s'.calls == s.calls[t := CallOf(s', t)] && Holds(CallOf(s, t)) != WorkerOf(kind)
    requires s'.benches[WorkerOf(kind)] == s.benches[WorkerOf(kind)] && s'.counter[kind] == s.counter[kind]
    ensures CounterOk(s', kind)
  {
    hide Queued, Holds;
    SkewOfOthers(s, s', t, WorkerOf(kind), kind);
    CounterSame(s, s', kind);
  }

  /** A step under the lock that neither queues nor counts, or the taking or giving up of the lock. */
  lemma CounterQuiet(s: State, s': State, t: nat, kind: Kind)
    requires Shaped(s) && Shaped(s') && CounterOk(s, kind)
    requires var b := s.benches[WorkerOf(kind)]; b.owner.Free? || (b.owner == Caller(t) && !CallOf(s, t).Appended?)
    requires var b' := s'.benches[WorkerOf(kind)]; b'.owner.Free? || (b'.owner == Caller(t) && !CallOf(s', t).Appended?)
    requires s'.benches[WorkerOf(kind)].jobs == s.benches[WorkerOf(kind)].jobs && s'.counter[kind] == s.counter[kind]
    ensures CounterOk(s', kind)
  {
    hide Queued, Shaped;
  }

  lemma CounterOnLock(s: State, t: nat, kind: Kind)
    requires Inv(s) && Enabled(s, Lock(t))
    ensures Shaped(Next(s, Lock(t))) && CounterOk(Next(s, Lock(t)), kind)
  {
    hide BenchesOk, OwnersOk, CallOk, RequestsOk, CounterOk;
    ShapedKept(s, Lock(t));
    var s' := Next(s, Lock(t));
    if Target(CallOf(s, t)) == WorkerOf(kind) {
      CounterQuiet(s, s', t, kind);
    } else {
      CounterElsewhere(s, s', t, kind);
    }
  }

  lemma CounterOnCall(s: State, t: nat, call: Call, kind: Kind)
    requires Inv(s) && Enabled(s, Step.Call(t, call))
    ensures Shaped(Next(s, Step.Call(t, call))) && CounterOk(Next(s, Step.Call(t, call)), kind)
  {
    hide BenchesOk, OwnersOk, CallOk, RequestsOk, CounterOk;
    ShapedKept(s, Step.Call(t, call));
    CounterElsewhere(s, Next(s, Step.Call(t, call)), t, kind);
  }

  lemma CounterOnUnlock(s: State, t: nat, kind: Kind)
    requires Inv(s) && Enabled(s, Unlock(t))
    ensures Shaped(Next(s, Unlock(t))) && CounterOk(Next(s, Unlock(t)), kind)
  {
    hide BenchesOk, OwnersOk, CallOk, RequestsOk, CounterOk;
    ShapedKept(s, Unlock(t));
    LockHeld(s, t);
    var s' := Next(s, Unlock(t));
    if Holds(CallOf(s, t)) == WorkerOf(kind) {
      CounterQuiet(s, s', t, kind);
    } else {
      CounterElsewhere(s, s', t, kind);
    }
  }

  lemma CounterOnTest(s: State, step: Step, kind: Kind)
    requires Inv(s) && Enabled(s, step) && (step.Drain? || step.Read?)
    ensures Shaped(Next(s, step)) && CounterOk(Next(s, step), kind)
  {
    hide BenchesOk, OwnersOk, CallOk, RequestsOk, CounterOk;
    ShapedKept(s, step);
    LockHeld(s, step.t);
    var s' := Next(s, step);
    if Holds(CallOf(s, step.t)) == WorkerOf(kind) {
      CounterQuiet(s, s', step.t, kind);
    } else {
      CounterElsewhere(s, s', step.t, kind);
    }
  }

  lemma CounterOnAppend(s: State, t: nat, kind: Kind)
    requires Inv(s) && Enabled(s, Append(t))
    ensures Shaped(Next(s, Append(t))) && CounterOk(Next(s, Append(t)), kind)
  {
    hide BenchesOk, OwnersOk, CallOk, RequestsOk, Queued;
    ShapedKept(s, Append(t));
    LockHeld(s, t);
    assert CounterOk(s, kind);
    var s', w := Next(s, Append(t)), Holds(CallOf(s, t));
    if w == WorkerOf(kind) {
      QueuedAppend(s.benches[w].jobs, Job(s.nextId, CallOf(s, t).kind), kind);
    } else {
      CounterElsewhere(s, s', t, kind);
    }
  }

  lemma CounterOnCount(s: State, t: nat, kind: Kind)
    requires Inv(s) && Enabled(s, Count(t))
    ensures Shaped(Next(s, Count(t))) && CounterOk(Next(s, Count(t)), kind)
  {
    hide BenchesOk, OwnersOk, CallOk, RequestsOk, Queued;
    ShapedKept(s, Count(t));
    LockHeld(s, t);
    assert CounterOk(s, kind);
    var s', w := Next(s, Count(t)), Holds(CallOf(s, t));
    if w != WorkerOf(kind) {
      CounterElsewhere(s, s', t, kind);
    }
  }

  /** A step of another worker, or one of this worker that moves it about without its lock's counters. */
  lemma CounterMoves(s: State, s': State, kind: Kind)
    requires Shaped(s) && Shaped(s') && CounterOk(s, kind) && s'.calls == s.calls && s'.counter[kind] == s.counter[kind]
    requires var b, b' := s.benches[WorkerOf(kind)], s'.benches[WorkerOf(kind)];
      b'.jobs == b.jobs && !b.place.Removed? && !b'.place.Removed?
      && (b'.owner == b.owner || (!b.owner.Caller? && !b'.owner.Caller?))
    ensures CounterOk(s', kind)
  {
    hide Queued, Shaped;
  }

  lemma CounterOtherWorker(s: State, s': State, kind: Kind)
    requires Shaped(s) && Shaped(s') && CounterOk(s, kind) && s'.calls == s.calls && s'.counter[kind] == s.counter[kind]
    requires s'.benches[WorkerOf(kind)] == s.benches[WorkerOf(kind)]
    ensures CounterOk(s', kind)
  {
    hide Queued, Shaped;
  }

  lemma CounterOnMove(s: State, step: Step, kind: Kind)
    requires Inv(s) && Enabled(s, step) && (step.Wake? || step.Pick? || step.Work? || step.Relock?)
    ensures Shaped(Next(s, step)) && CounterOk(Next(s, step), kind)
  {
    hide OwnersOk, CallOk, RequestsOk, CounterOk, Numbered, AlmostOff;
    ShapedKept(s, step);
    var s' := Next(s, step);
    if step.w == WorkerOf(kind) {
      CounterMoves(s, s', kind);
    } else {
      CounterOtherWorker(s, s', kind);
    }
  }

  lemma CounterOnRemove(s: State, w: nat, kind: Kind)
    requires Inv(s) && Enabled(s, Remove(w))
    ensures Shaped(Next(s, Remove(w))) && CounterOk(Next(s, Remove(w)), kind)
  {
    hide OwnersOk, CallOk, RequestsOk, Numbered, Queued, Delete;
    ShapedKept(s, Remove(w));
    assert CounterOk(s, kind);
    var s' := Next(s, Remove(w));
    if w == WorkerOf(kind) {
      RemoveBench(s.benches[w]);
      QueuedTail(s.benches[w].jobs, kind);
    } else {
      CounterOtherWorker(s, s', kind);
    }
  }

  lemma CounterOnUncount(s: State, w: nat, kind: Kind)
    requires Inv(s) && Enabled(s, Uncount(w))
    ensures Shaped(Next(s, Uncount(w))) && CounterOk(Next(s, Uncount(w)), kind)
  {
    hide OwnersOk, CallOk, RequestsOk, Numbered, Queued;
    ShapedKept(s, Uncount(w));
    assert CounterOk(s, kind);
    RemovedHere(s, w);
    if w != WorkerOf(kind) {
      CounterOtherWorker(s, Next(s, Uncount(w)), kind);
    }
  }

  /** A worker counts down only its own kinds. */
  lemma RemovedHere(s: State, w: nat)
    requires BenchesOk(s) && w < WORKERS && s.benches[w].place.Removed?
    ensures WorkerOf(s.benches[w].place.job.kind) == w
  {
    var b := s.benches[w];
    assert b.place.job in b.submitted;
  }

  lemma CounterKept(s: State, step: Step, kind: Kind)
    requires Inv(s) && Enabled(s, step)
    ensures Shaped(Next(s, step)) && CounterOk(Next(s, step), kind)
  {
    hide Inv, Shaped, CounterOk, Enabled;
    match step
    case Call(t, call) => CounterOnCall(s, t, call, kind);
    case Lock(t) => CounterOnLock(s, t, kind);
    case Append(t) => CounterOnAppend(s, t, kind);
    case Count(t) => CounterOnCount(s, t, kind);
    case Unlock(t) => CounterOnUnlock(s, t, kind);
    case Drain(_) => CounterOnTest(s, step, kind);
    case Read(_) => CounterOnTest(s, step, kind);
    case Wake(_) => CounterOnMove(s, step, kind);
    case Pick(_) => CounterOnMove(s, step, kind);
    case Work(_) => CounterOnMove(s, step, kind);
    case Relock(_) => CounterOnMove(s, step, kind);
    case Remove(w) => CounterOnRemove(s, w, kind);
    case Uncount(w) => CounterOnUncount(s, w, kind);
    case Collect => CounterOnMain(s, step, kind);
    case Callback => CounterOnMain(s, step, kind);
  }

  lemma CounterOnMain(s: State, step: Step, kind: Kind)
    requires Inv(s) && Enabled(s, step) && (step.Collect? || step.Callback?)
    ensures Shaped(Next(s, step)) && CounterOk(Next(s, step), kind)
  {
    hide OwnersOk, CallOk, RequestsOk, BenchesOk, CounterOk;
    CounterOtherWorker(s, Next(s, step), kind);
  }

  // Answers.

  lemma AnswerStays(s: State, s': State, call: Call)
    requires |s.benches| == WORKERS == |s'.benches| && CallShaped(call) && CallOk(s, call)
    requires Holds(call) >= 0 ==> s'.benches[Holds(call)].jobs == s.benches[Holds(call)].jobs
    ensures CallOk(s', call)
  {
    hide Queued;
  }

  /** Nobody else changes a queue whose lock a thread holds. */
  lemma QueueUnderLock(s: State, step: Step, t: nat)
    requires Inv(s) && Enabled(s, step) && Holds(CallOf(s, t)) >= 0
    requires step.Append? ==> step.t != t
    ensures Shaped(Next(s, step)) && Holds(CallOf(s, t)) < WORKERS
    ensures Next(s, step).benches[Holds(CallOf(s, t))].jobs == s.benches[Holds(CallOf(s, t))].jobs
  {
    hide OwnersOk, CallOk, RequestsOk, CounterOk, Numbered, AlmostOff, Delete;
    ShapedKept(s, step);
    LockHeld(s, t);
    if step.Append? {
      LockHeld(s, step.t);
    }
  }

  lemma CallKept(s: State, step: Step, t: nat)
    requires Inv(s) && Enabled(s, step) && t in Next(s, step).calls
    ensures Shaped(Next(s, step)) && CallOk(Next(s, step), Next(s, step).calls[t])
  {
    hide OwnersOk, RequestsOk, CounterOk, BenchesOk, CallOk;
    ShapedKept(s, step);
    if Mover(step) == t {
      OwnCallKept(s, step, t);
    } else {
      CallsOfOthers(s, step, t);
      if Holds(CallOf(s, t)) >= 0 {
        QueueUnderLock(s, step, t);
      }
      AnswerStays(s, Next(s, step), s.calls[t]);
    }
  }

  function Mover(step: Step): int {
    match step
    case Call(t, _) => t
    case Lock(t) => t
    case Append(t) => t
    case Count(t) => t
    case Unlock(t) => t
    case Drain(t) => t
    case Read(t) => t
    case Wake(_) => -1
    case Pick(_) => -1
    case Work(_) => -1
    case Relock(_) => -1
    case Remove(_) => -1
    case Uncount(_) => -1
    case Collect => -1
    case Callback => -1
  }

  lemma CallsOfOthers(s: State, step: Step, t: nat)
    requires Shaped(s) && Enabled(s, step) && t in Next(s, step).calls && Mover(step) != t
    ensures t in s.calls && Next(s, step).calls[t] == s.calls[t]
  {
  }

  lemma OwnCallKept(s: State, step: Step, t: nat)
    requires Inv(s) && Enabled(s, step) && Mover(step) == t && t in Next(s, step).calls
    ensures Shaped(Next(s, step)) && CallOk(Next(s, step), Next(s, step).calls[t])
  {
    hide OwnersOk, RequestsOk, BenchesOk, Queued;
    ShapedKept(s, step);
    if step.Read? {
      LockHeld(s, t);
      assert CounterOk(s, CallOf(s, t).kind);
    }
  }

  // Requests.

  /** The job a worker works on is not among the finished ones. */
  lemma RunningIsNew(b: Bench, w: nat, nextId: nat)
    requires BenchOk(b) && Numbered(b, w, nextId) && b.place.Running?
    ensures b.place.job !in b.finished && WorkerOf(b.place.job.kind) == w
  {
    assert b.submitted[|b.finished|] == b.place.job;
    assert forall i :: 0 <= i < |b.finished| ==> b.submitted[i] == b.finished[i];
  }

  lemma RequestsSame(s: State, s': State)
    requires |s.benches| == WORKERS == |s'.benches| && RequestsOk(s) && Requests(s') == Requests(s)
    requires forall job: Job :: IsRequest(job.kind) ==>
      (job in s'.benches[WorkerOf(job.kind)].finished <==> job in s.benches[WorkerOf(job.kind)].finished)
    ensures RequestsOk(s')
  {
    hide Requests;
  }

  lemma RequestsOnWork(s: State, w: nat)
    requires Inv(s) && Enabled(s, Work(w))
    ensures Shaped(Next(s, Work(w))) && RequestsOk(Next(s, Work(w)))
  {
    hide OwnersOk, CounterOk, CallOk, BenchOk, Numbered;
    ShapedKept(s, Work(w));
    var s', b := Next(s, Work(w)), s.benches[w];
    var job := b.place.job;
    RunningIsNew(b, w, s.nextId);
    if IsRequest(job.kind) {
      assert Requests(s') == Requests(s) + [job];
      RequestsGrow(s, s', job);
    } else {
      RequestsSame(s, s');
    }
  }

  lemma RequestsGrow(s: State, s': State, job: Job)
    requires |s.benches| == WORKERS == |s'.benches| && RequestsOk(s) && Requests(s') == Requests(s) + [job]
    requires IsRequest(job.kind) && job !in s.benches[WorkerOf(job.kind)].finished
    requires forall j: Job :: IsRequest(j.kind) ==>
      (j in s'.benches[WorkerOf(j.kind)].finished <==> j == job || j in s.benches[WorkerOf(j.kind)].finished)
    ensures RequestsOk(s')
  {
    hide Requests, IsRequest;
  }

  lemma RequestsOnMain(s: State, step: Step)
    requires Inv(s) && Enabled(s, step) && (step.Collect? || step.Callback?)
    ensures Shaped(Next(s, step)) && RequestsOk(Next(s, step))
  {
    hide OwnersOk, CounterOk, CallOk, BenchesOk, RequestsOk;
    var s' := Next(s, step);
    if step.Collect? {
      assert s.called + s.picked + s.completions == s.called + s.completions + [];
    } else {
      assert s.picked == [s.picked[0]] + s.picked[1..];
      assert s.called + s.picked == (s.called + [s.picked[0]]) + s.picked[1..];
    }
    RequestsSame(s, s');
  }

  lemma RequestsKept(s: State, step: Step)
    requires Inv(s) && Enabled(s, step)
    ensures Shaped(Next(s, step)) && RequestsOk(Next(s, step))
  {
    if step.Work? {
      RequestsOnWork(s, step.w);
    } else if step.Collect? || step.Callback? {
      RequestsOnMain(s, step);
    } else {
      RequestsElsewhere(s, step);
    }
  }

  lemma RequestsElsewhere(s: State, step: Step)
    requires Inv(s) && Enabled(s, step) && !step.Work? && !step.Collect? && !step.Callback?
    ensures Shaped(Next(s, step)) && RequestsOk(Next(s, step))
  {
    hide OwnersOk, CounterOk, CallOk, BenchesOk, RequestsOk;
    ShapedKept(s, step);
    RequestsSame(s, Next(s, step));
  }

  // ----- runs -----

  lemma StepKeeps(s: State, step: Step)
    requires Inv(s) && Enabled(s, step)
    ensures Inv(Next(s, step))
  {
    hide Shaped, BenchesOk, OwnersOk, CounterOk, CallOk, RequestsOk, Enabled;
    ShapedKept(s, step);
    BenchesKept(s, step);
    OwnersKept(s, step);
    RequestsKept(s, step);
    forall kind: Kind
      ensures CounterOk(Next(s, step), kind)
    {
      CounterKept(s, step, kind);
    }
    forall t | t in Next(s, step).calls
      ensures CallOk(Next(s, step), Next(s, step).calls[t])
    {
      CallKept(s, step, t);
    }
  }

  function Start(): State {
    State(seq(WORKERS, _ => Bench(Free, Asleep, [], [], [])),
          map[CloseFile := 0, AofFsync := 0, LazyFree := 0, CloseAof := 0,
              RequestClose := 0, RequestFsync := 0, RequestFree := 0],
          map[], 0, [], [], [])
  }

  lemma StartHolds()
    ensures Inv(Start())
  {
    var s := Start();
    forall kind: Kind
      ensures kind in s.counter && CounterOk(s, kind)
    {
      match kind
      case CloseFile =>
      case AofFsync =>
      case LazyFree =>
      case CloseAof =>
      case RequestClose =>
      case RequestFsync =>
      case RequestFree =>
    }
  }

  ghost predicate Allowed(s: State, steps: seq<Step>)
    requires Inv(s)
    decreases |steps|
  {
    steps == [] || (Enabled(s, steps[0]) && (StepKeeps(s, steps[0]); Allowed(Next(s, steps[0]), steps[1..])))
  }

  ghost function Run(s: State, steps: seq<Step>): State
    requires Inv(s) && Allowed(s, steps)
    decreases |steps|
  {
    if steps == [] then s else StepKeeps(s, steps[0]); Run(Next(s, steps[0]), steps[1..])
  }

  /** Whatever the interleaving, the invariant holds. */
  lemma {:induction false} EveryRun(s: State, steps: seq<Step>)
    requires Inv(s) && Allowed(s, steps)
    ensures Inv(Run(s, steps))
    decreases |steps|
  {
    hide Shaped, BenchesOk, OwnersOk, CounterOk, CallOk, RequestsOk, Enabled, Next;
    if steps != [] {
      StepKeeps(s, steps[0]);
      EveryRun(Next(s, steps[0]), steps[1..]);
    }
  }

  // ----- what it means -----

  /** A worker finishes jobs in the order they were submitted. */
  lemma FinishesInOrder(s: State, w: nat)
    requires Inv(s) && w < WORKERS
    ensures s.benches[w].finished <= s.benches[w].submitted
  {
    hide OwnersOk, CounterOk, CallOk, RequestsOk, Numbered;
    assert BenchOk(s.benches[w]);
  }

  /** Taking a free lock, one finds the counter at the number of jobs queued or running. */
  lemma CounterUnderLock(s: State, kind: Kind)
    requires Inv(s) && s.benches[WorkerOf(kind)].owner.Free?
    ensures s.counter[kind] == Queued(s.benches[WorkerOf(kind)].jobs, kind)
  {
    assert CounterOk(s, kind);
  }

  /** The number of pending jobs that a thread is about to return is right at that moment. */
  lemma CountIsExact(s: State, t: nat)
    requires Inv(s) && t in s.calls && s.calls[t].LeaveCount?
    ensures s.calls[t].n == Queued(s.benches[WorkerOf(s.calls[t].kind)].jobs, s.calls[t].kind)
  {
    assert CallOk(s, s.calls[t]);
  }

  /** A thread returns from draining a worker only when everything ever submitted to it is finished. */
  lemma DrainedIsDone(s: State, t: nat)
    requires Inv(s) && t in s.calls && s.calls[t].LeaveDrain?
    ensures s.calls[t].w < WORKERS
    ensures var b := s.benches[s.calls[t].w]; b.jobs == [] && b.finished == b.submitted
  {
    assert CallShaped(s.calls[t]) && CallOk(s, s.calls[t]);
    var b := s.benches[s.calls[t].w];
    assert BenchOk(b);
  }

  /** Kinds that one thread works off in turn: those of one group. */
  predicate Together(a: Kind, b: Kind) {
    || {a, b} <= {AofFsync, CloseAof, RequestFsync}
    || {a, b} <= {CloseFile, RequestClose}
    || {a, b} <= {LazyFree, RequestFree}
  }

  /**
   A file is closed only after the syncs asked for before, and a request is answered only after the
   jobs of its group: within a group jobs finish in the order they were submitted. Jobs of
   different groups do not wait for one another.
   */
  lemma GroupsInOrder(s: State, a: Job, b: Job)
    requires Inv(s) && a in s.benches[WorkerOf(a.kind)].submitted && b in s.benches[WorkerOf(b.kind)].finished
    ensures Together(a.kind, b.kind) <==> WorkerOf(a.kind) == WorkerOf(b.kind)
    ensures Together(a.kind, b.kind) && a.id < b.id ==> a in s.benches[WorkerOf(a.kind)].finished
  {
    hide OwnersOk, CounterOk, CallOk, RequestsOk, BenchOk;
    var w := WorkerOf(a.kind);
    var bench := s.benches[w];
    FinishesInOrder(s, w);
    assert Numbered(bench, w, s.nextId);
    if Together(a.kind, b.kind) && a.id < b.id {
      var i :| 0 <= i < |bench.submitted| && bench.submitted[i] == a;
      var j :| 0 <= j < |bench.finished| && bench.finished[j] == b;
      assert bench.submitted[j] == b;
      assert i < j;
      assert bench.finished[i] == a;
    }
  }

  /** Exactly the three kinds of requests are called back, and each of them once it is worked off. */
  lemma RequestKinds(s: State, job: Job)
    requires Inv(s)
    ensures job in s.called ==> job.kind in {RequestClose, RequestFsync, RequestFree}
    ensures job.kind in {RequestClose, RequestFsync, RequestFree} && job in s.benches[WorkerOf(job.kind)].finished ==>
      job in s.called || job in s.picked || job in s.completions
  {
    hide OwnersOk, CounterOk, CallOk, BenchesOk;
    assert job in s.called ==> job in Requests(s);
  }

  lemma RequestsGrowOnly(s: State, step: Step)
    requires Inv(s) && Enabled(s, step)
    ensures Requests(s) <= Requests(Next(s, step)) && s.called <= Next(s, step).called
  {
    hide BenchesOk, OwnersOk, CounterOk, CallOk, RequestsOk;
    var s' := Next(s, step);
    if step.Callback? {
      assert s.picked == [s.picked[0]] + s.picked[1..];
      assert Requests(s') == Requests(s);
    } else if step.Collect? {
      assert Requests(s') == Requests(s);
    }
  }

  /** Callbacks run in the order in which the workers answered the requests, over every run. */
  lemma {:induction false} CallbacksInOrder(s: State, steps: seq<Step>)
    requires Inv(s) && Allowed(s, steps)
    ensures var s' := Run(s, steps);
      Requests(s) <= Requests(s') && s.called <= s'.called && s'.called <= Requests(s')
    decreases |steps|
  {
    hide Shaped, BenchesOk, OwnersOk, CounterOk, CallOk, RequestsOk, Enabled, Next;
    if steps != [] {
      StepKeeps(s, steps[0]);
      RequestsGrowOnly(s, steps[0]);
      CallbacksInOrder(Next(s, steps[0]), steps[1..]);
    }
  }

  /** A callback runs at most once, and only after everything submitted earlier to its worker. */
  lemma CallbackInTurn(s: State, c: nat, i: nat, j: nat)
    requires Inv(s) && c < |s.called|
    ensures IsRequest(s.called[c].kind)
    ensures forall d :: 0 <= d < |s.called| && d != c ==> s.called[d] != s.called[c]
    ensures var b := s.benches[WorkerOf(s.called[c].kind)];
      i < j < |b.submitted| && b.submitted[j] == s.called[c] ==> b.submitted[i] in b.finished
  {
    hide OwnersOk, CounterOk, CallOk, BenchOk;
    var job, all := s.called[c], Requests(s);
    assert forall d :: 0 <= d < |s.called| ==> all[d] == s.called[d];
    assert job in all;
    var w := WorkerOf(job.kind);
    var b := s.benches[w];
    FinishesInOrder(s, w);
    var f :| 0 <= f < |b.finished| && b.finished[f] == job;
    assert b.submitted[f] == job;
    if i < j < |b.submitted| && b.submitted[j] == job {
      assert Numbered(b, w, s.nextId);
      assert b.submitted[i].id < b.submitted[f].id;
      assert b.finished[i] == b.submitted[i];
    }
  }
}
