// The shared counter of outstanding jobs: what a job does with it, and the protocol between
// the walker, the threads that run jobs, and the jobs that dispatch further jobs.

module JobCounter {

  // ----- One job and the counter ------------------------------------------------------------

  class Counter {
    var value: int

    constructor ()
      ensures value == 0
    {
      value := 0;
    }
  }

  class IJob {
    var jobCounter: Counter?

    constructor ()
      ensures jobCounter == null
    {
      jobCounter := null;
    }

    method DecrementCounter()
      modifies this, jobCounter
      ensures jobCounter == null
      ensures old(jobCounter) != null ==> old(jobCounter).value == old(jobCounter.value) - 1
    {
      var counter := jobCounter;
      if counter != null {
        counter.value := counter.value - 1;
        jobCounter := null;
      }
    }

    method Destroy()
      modifies jobCounter
      ensures old(jobCounter) != null ==> old(jobCounter).value == old(jobCounter.value) - 1
    {
      var counter := jobCounter;
      if counter != null {
        counter.value := counter.value - 1;
      }
    }
  }

  // A dispatched job that gives its count back by itself does not give it back again when it
  // is destroyed, however often it asks.
  method DispatchToDestruction(job: IJob, counter: Counter, byHand: nat)
    modifies job, counter
    ensures counter.value == old(counter.value)
  {
    job.jobCounter := counter;
    job.jobCounter.value := job.jobCounter.value + 1;
    for i := 0 to byHand
      invariant job.jobCounter == null || job.jobCounter == counter
      invariant counter.value == old(counter.value) + if job.jobCounter == null then 0 else 1
    {
      job.DecrementCounter();
    }
    job.Destroy();
  }

  // ----- The protocol --------------------------------------------------------------------------

  // Created: not yet dispatched. Pointing: the dispatcher has given it the counter. Counted: and
  // incremented it. Queued, then Running. GivenBack: decrementCounter has decremented, and not yet
  // cleared the pointer. Finished, then Destroyed.
  datatype Phase = Created | Pointing | Counted | Queued | Running | GivenBack | Finished | Destroyed

  // parent is the running job that dispatches this one, or none for the walker itself.
  datatype Job = Job(phase: Phase, hasPointer: bool, givenBack: nat, parent: Parent)

  datatype Parent = Walker | Runner(job: int)

  // The walker dispatches during the walk and again while its extensions are finalized, and waits
  // after each; a walk whose first directory is not entered goes straight to the extensions.
  datatype WalkerPhase = Dispatching | Finalizing | Waiting(last: bool) | SawNone(last: bool) | ToldToStop(last: bool)

  datatype State = State(counter: int, jobs: map<int, Job>, walker: WalkerPhase)

  const Initial := State(0, map[], Dispatching)

  // A dispatch of this job is under way, by its parent's thread.
  ghost predicate BeingDispatched(job: Job) {
    job.phase.Created? || job.phase.Pointing? || job.phase.Counted?
  }

  ghost predicate NoDispatchBy(s: State, parent: Parent) {
    forall j :: j in s.jobs && s.jobs[j].parent == parent ==> !BeingDispatched(s.jobs[j])
  }

  ghost predicate MayDispatch(s: State, parent: Parent) {
    match parent
    case Walker => s.walker.Dispatching? || s.walker.Finalizing?
    case Runner(j) => j in s.jobs && s.jobs[j].phase.Running?
  }

  datatype Step =
    | Create(job: int, parent: Parent, copied: bool)
    | Point(job: int)
    | Increment(job: int)
    | Enqueue(job: int)
    | Start(job: int)
    | GiveBack(job: int)
    | ClearPointer(job: int)
    | Finish(job: int)
    | Destroy(job: int)
    | BeginWait
    | BeginFinalize
    | ReadZero
    | ReadStop

  ghost predicate InPhase(s: State, j: int, phase: Phase) {
    j in s.jobs && s.jobs[j].phase == phase
  }

  ghost function With(s: State, j: int, job: Job, change: int): State {
    s.(counter := s.counter + change, jobs := s.jobs[j := job])
  }

  // Any thread may take its next step at any moment. A job copied from a running one starts
  // with that job's pointer; a job leaves its execution only when it is not dispatching; the
  // queue may destroy a job it never ran.
  ghost predicate Next(s: State, step: Step, s': State) {
    match step
    case Create(j, parent, copied) =>
      && j !in s.jobs && MayDispatch(s, parent)
      && s' == With(s, j, Job(Created, copied, 0, parent), 0)
    case Point(j) =>
      InPhase(s, j, Created) && s' == With(s, j, s.jobs[j].(phase := Pointing, hasPointer := true), 0)
    case Increment(j) =>
      InPhase(s, j, Pointing) && s' == With(s, j, s.jobs[j].(phase := Counted), 1)
    case Enqueue(j) =>
      InPhase(s, j, Counted) && s' == With(s, j, s.jobs[j].(phase := Queued), 0)
    case Start(j) =>
      InPhase(s, j, Queued) && s' == With(s, j, s.jobs[j].(phase := Running), 0)
    case GiveBack(j) =>
      && InPhase(s, j, Running) && s.jobs[j].hasPointer && NoDispatchBy(s, Runner(j))
      && s' == With(s, j, s.jobs[j].(phase := GivenBack, givenBack := s.jobs[j].givenBack + 1), -1)
    case ClearPointer(j) =>
      InPhase(s, j, GivenBack) && s' == With(s, j, s.jobs[j].(phase := Finished, hasPointer := false), 0)
    case Finish(j) =>
      InPhase(s, j, Running) && NoDispatchBy(s, Runner(j)) && s' == With(s, j, s.jobs[j].(phase := Finished), 0)
    case Destroy(j) =>
      && (InPhase(s, j, Finished) || InPhase(s, j, Queued))
      && var job := s.jobs[j];
         s' == if job.hasPointer
               then With(s, j, job.(phase := Destroyed, givenBack := job.givenBack + 1), -1)
               else With(s, j, job.(phase := Destroyed), 0)
    case BeginWait =>
      && (s.walker.Dispatching? || s.walker.Finalizing?) && NoDispatchBy(s, Walker)
      && s' == s.(walker := Waiting(s.walker.Finalizing?))
    case BeginFinalize =>
      && (s.walker == SawNone(false) || s.walker == ToldToStop(false) || s.walker.Dispatching?)
      && NoDispatchBy(s, Walker) && s' == s.(walker := Finalizing)
    case ReadZero =>
      s.walker.Waiting? && s.counter == 0 && s' == s.(walker := SawNone(s.walker.last))
    case ReadStop =>
      s.walker.Waiting? && s' == s.(walker := ToldToStop(s.walker.last))
  }

  // A finite run of the protocol from one state to another.
  ghost predicate Run(states: seq<State>, steps: seq<Step>) {
    && |states| == |steps| + 1
    && forall i :: 0 <= i < |steps| ==> Next(states[i], steps[i], states[i + 1])
  }

  // ----- What every run keeps --------------------------------------------------------------------

  // The job has been counted and has not given its count back.
  ghost predicate Outstanding(job: Job) {
    || job.phase.Counted? || job.phase.Queued? || job.phase.Running?
    || (job.phase.Finished? && job.hasPointer)
  }

  ghost function OutstandingJobs(s: State): set<int> {
    set j | j in s.jobs && Outstanding(s.jobs[j])
  }

  ghost predicate JobConsistent(job: Job) {
    && (job.phase in {Pointing, Counted, Queued, Running, GivenBack} ==> job.hasPointer)
    && job.givenBack == match job.phase
                        case GivenBack => 1
                        case Destroyed => 1
                        case Finished => if job.hasPointer then 0 else 1
                        case _ => 0
  }

  ghost predicate Invariant(s: State) {
    && s.counter == |OutstandingJobs(s)|
    && (forall j :: j in s.jobs ==> JobConsistent(s.jobs[j]))
    && (forall j :: j in s.jobs && BeingDispatched(s.jobs[j]) ==> MayDispatch(s, s.jobs[j].parent))
    && (s.walker.SawNone? ==> forall j :: j in s.jobs ==> !Outstanding(s.jobs[j]) && !BeingDispatched(s.jobs[j]))
  }

  lemma OutstandingAfter(s: State, j: int, job: Job, change: int)
    ensures OutstandingJobs(With(s, j, job, change))
         == if Outstanding(job) then OutstandingJobs(s) + {j} else OutstandingJobs(s) - {j}
  {
  }

  // A step that changes one job keeps the count right when it counts exactly the change.
  lemma CountKept(s: State, j: int, job: Job, change: int)
    requires s.counter == |OutstandingJobs(s)|
    requires var was := j in s.jobs && Outstanding(s.jobs[j]);
             change == (if Outstanding(job) then 1 else 0) - (if was then 1 else 0)
    ensures var s' := With(s, j, job, change); s'.counter == |OutstandingJobs(s')|
  {
    OutstandingAfter(s, j, job, change);
    if j in OutstandingJobs(s) {
      assert OutstandingJobs(s) + {j} == OutstandingJobs(s);
      assert |OutstandingJobs(s) - {j}| == |OutstandingJobs(s)| - 1;
    } else {
      assert OutstandingJobs(s) - {j} == OutstandingJobs(s);
      assert |OutstandingJobs(s) + {j}| == |OutstandingJobs(s)| + 1;
    }
  }

  lemma StepKeepsCount(s: State, step: Step, s': State)
    requires Invariant(s) && Next(s, step, s')
    ensures s'.counter == |OutstandingJobs(s')|
  {
    match step {
      case BeginWait => assert OutstandingJobs(s') == OutstandingJobs(s);
      case BeginFinalize => assert OutstandingJobs(s') == OutstandingJobs(s);
      case ReadZero => assert OutstandingJobs(s') == OutstandingJobs(s);
      case ReadStop => assert OutstandingJobs(s') == OutstandingJobs(s);
      case Create(j, _, _) => CountKept(s, j, s'.jobs[j], 0);
      case Point(j) => CountKept(s, j, s'.jobs[j], 0);
      case Increment(j) => CountKept(s, j, s'.jobs[j], 1);
      case Enqueue(j) => CountKept(s, j, s'.jobs[j], 0);
      case Start(j) => CountKept(s, j, s'.jobs[j], 0);
      case GiveBack(j) => CountKept(s, j, s'.jobs[j], -1);
      case ClearPointer(j) => CountKept(s, j, s'.jobs[j], 0);
      case Finish(j) => assert JobConsistent(s.jobs[j]); CountKept(s, j, s'.jobs[j], 0);
      case Destroy(j) =>
        assert JobConsistent(s.jobs[j]);
        CountKept(s, j, s'.jobs[j], if s.jobs[j].hasPointer then -1 else 0);
    }
  }

  lemma StepKeepsJobs(s: State, step: Step, s': State)
    requires Invariant(s) && Next(s, step, s')
    ensures forall j :: j in s'.jobs ==> JobConsistent(s'.jobs[j])
  {
  }

  lemma StepKeepsDispatchers(s: State, step: Step, s': State)
    requires Invariant(s) && Next(s, step, s')
    ensures forall j :: j in s'.jobs && BeingDispatched(s'.jobs[j]) ==> MayDispatch(s', s'.jobs[j].parent)
  {
    forall j | j in s'.jobs && BeingDispatched(s'.jobs[j])
      ensures MayDispatch(s', s'.jobs[j].parent)
    {
      assert j in s.jobs ==> BeingDispatched(s.jobs[j]) && s.jobs[j].parent == s'.jobs[j].parent;
    }
  }

  lemma NoneOutstandingAtZero(s: State)
    requires Invariant(s) && s.counter == 0
    ensures forall j :: j in s.jobs ==> !Outstanding(s.jobs[j])
  {
    forall j | j in s.jobs
      ensures !Outstanding(s.jobs[j])
    {
      assert OutstandingJobs(s) == {};
      assert j !in OutstandingJobs(s);
    }
  }

  // Once the walker has read zero, nothing is outstanding and nobody is left to dispatch.
  lemma StepKeepsQuiet(s: State, step: Step, s': State)
    requires Invariant(s) && Next(s, step, s')
    ensures s'.walker.SawNone? ==> forall j :: j in s'.jobs ==> !Outstanding(s'.jobs[j]) && !BeingDispatched(s'.jobs[j])
  {
    if s'.walker.SawNone? {
      if step.ReadZero? {
        NoneOutstandingAtZero(s);
      }
    }
  }

  lemma StepKeepsInvariant(s: State, step: Step, s': State)
    requires Invariant(s) && Next(s, step, s')
    ensures Invariant(s')
  {
    StepKeepsCount(s, step, s');
    StepKeepsJobs(s, step, s');
    StepKeepsDispatchers(s, step, s');
    StepKeepsQuiet(s, step, s');
  }

  lemma {:induction false} RunKeepsInvariant(states: seq<State>, steps: seq<Step>, i: nat)
    requires Run(states, steps) && i < |states| && Invariant(states[0])
    ensures Invariant(states[i])
  {
    if i > 0 {
      RunKeepsInvariant(states, steps, i - 1);
      assert Next(states[i - 1], steps[i - 1], states[i - 1 + 1]);
      StepKeepsInvariant(states[i - 1], steps[i - 1], states[i]);
    }
  }

  lemma InitiallyInvariant()
    ensures Invariant(Initial)
  {
    assert OutstandingJobs(Initial) == {};
  }

  // In every interleaving the counter is the number of jobs dispatched and not yet finished,
  // and every job gives its count back at most once; a destroyed job, exactly once.
  lemma CounterCountsOutstandingJobs(states: seq<State>, steps: seq<Step>, i: nat)
    requires Run(states, steps) && states[0] == Initial && i < |states|
    ensures states[i].counter == |OutstandingJobs(states[i])| >= 0
    ensures forall j :: j in states[i].jobs ==> states[i].jobs[j].givenBack <= 1
    ensures forall j :: j in states[i].jobs && states[i].jobs[j].phase.Destroyed? ==> states[i].jobs[j].givenBack == 1
  {
    InitiallyInvariant();
    RunKeepsInvariant(states, steps, i);
    forall j | j in states[i].jobs
      ensures states[i].jobs[j].givenBack <= 1
      ensures states[i].jobs[j].phase.Destroyed? ==> states[i].jobs[j].givenBack == 1
    {
      assert JobConsistent(states[i].jobs[j]);
    }
  }

  lemma {:induction false} LastSawNoneLasts(states: seq<State>, steps: seq<Step>, i: nat, k: nat)
    requires Run(states, steps) && i <= k < |states| && states[i].walker == SawNone(true)
    ensures states[k].walker == SawNone(true)
    decreases k
  {
    if i < k {
      LastSawNoneLasts(states, steps, i, k - 1);
      assert Next(states[k - 1], steps[k - 1], states[k - 1 + 1]);
    }
  }

  // Right after a wait that ended without a stop request no job is outstanding or being dispatched.
  lemma WaitFindsNone(states: seq<State>, steps: seq<Step>, i: nat)
    requires Run(states, steps) && states[0] == Initial && i < |states| && states[i].walker.SawNone?
    ensures OutstandingJobs(states[i]) == {} && states[i].counter == 0
    ensures forall j :: j in states[i].jobs ==> !BeingDispatched(states[i].jobs[j])
  {
    InitiallyInvariant();
    RunKeepsInvariant(states, steps, i);
    var now := states[i];
    assert forall j :: j in now.jobs ==> !Outstanding(now.jobs[j]);
    assert OutstandingJobs(now) == {};
  }

  // After the last wait that is so for ever: none will be dispatched any more.
  lemma WaitIsFinal(states: seq<State>, steps: seq<Step>, i: nat, k: nat)
    requires Run(states, steps) && states[0] == Initial && i <= k < |states|
    requires states[i].walker == SawNone(true)
    ensures OutstandingJobs(states[k]) == {} && states[k].counter == 0
    ensures forall j :: j in states[k].jobs ==> !BeingDispatched(states[k].jobs[j])
  {
    LastSawNoneLasts(states, steps, i, k);
    WaitFindsNone(states, steps, k);
  }

  // After the wait that ends the walk it is not: an extension may dispatch a job.
  lemma FirstWaitIsNotFinal() returns (states: seq<State>, steps: seq<Step>)
    ensures Run(states, steps) && states[0] == Initial && 2 < |states|
    ensures states[2].walker == SawNone(false) && states[|states| - 1].counter == 1
  {
    var walked, waited := Initial.(walker := Waiting(false)), Initial.(walker := SawNone(false));
    var finalizing := Initial.(walker := Finalizing);
    var created := With(finalizing, 0, Job(Created, false, 0, Walker), 0);
    var pointing := With(created, 0, Job(Pointing, true, 0, Walker), 0);
    var counted := With(pointing, 0, Job(Counted, true, 0, Walker), 1);
    states := [Initial, walked, waited, finalizing, created, pointing, counted];
    steps := [BeginWait, ReadZero, BeginFinalize, Create(0, Walker, false), Point(0), Increment(0)];
  }
}
