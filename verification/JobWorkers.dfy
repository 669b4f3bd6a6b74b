/** Any number of workers on the same jobs: each locks the job it tries, and a worker may die at any time. */
module JobWorkers {
  import opened Sums
  import opened JobWorker

  /** Pausing is what comes between finding nothing to do and looking again; a dead worker keeps its place in the books. */
  datatype Phase = Polling | Running(job: nat) | Counting | Pausing | Returned | Dead

  datatype Worker = Worker(queue: nat, phase: Phase, stats: WorkerStats)

  datatype State = State(jobs: seq<Job>, workers: seq<Worker>)

  datatype Action =
    | Start(queue: nat)
    | Claim(w: nat)
    | FindNone(w: nat)
    | Commit(w: nat, answer: Answer)
    | Count(w: nat)
    | Wake(w: nat)
    | Die(w: nat)

  ghost predicate IsLocked(s: State, j: nat) {
    exists w :: 0 <= w < |s.workers| && s.workers[w].phase == Running(j)
  }

  ghost predicate Claimable(s: State, j: nat, queue: nat) {
    j < |s.jobs| && Waits(s.jobs[j], queue) && !IsLocked(s, j)
  }

  /** ORDER BY id LIMIT 1 FOR UPDATE SKIP LOCKED */
  ghost predicate FirstClaimable(s: State, j: nat, queue: nat) {
    Claimable(s, j, queue) && forall i | 0 <= i < j :: !Claimable(s, i, queue)
  }

  ghost predicate Enabled(s: State, a: Action) {
    match a
    case Start(_) => true
    case Claim(w) =>
      w < |s.workers| && s.workers[w].phase.Polling? && exists j :: FirstClaimable(s, j, s.workers[w].queue)
    case FindNone(w) =>
      w < |s.workers| && s.workers[w].phase.Polling? && forall j :: !Claimable(s, j, s.workers[w].queue)
    case Commit(w, _) => w < |s.workers| && s.workers[w].phase.Running? && s.workers[w].phase.job < |s.jobs|
    case Count(w) => w < |s.workers| && s.workers[w].phase.Counting?
    case Wake(w) => w < |s.workers| && s.workers[w].phase.Pausing?
    case Die(w) => w < |s.workers| && !s.workers[w].phase.Returned?
  }

  function InPhase(s: State, w: nat, phase: Phase): State
    requires w < |s.workers|
  {
    s.(workers := s.workers[w := s.workers[w].(phase := phase)])
  }

  /** The outcome of the job a worker has locked. */
  function Outcome(s: State, a: Action, maxAttempts: int): JobOutcome
    requires a.Commit? && Enabled(s, a)
  {
    OutcomeOf(s.jobs[s.workers[a.w].phase.job], maxAttempts, a.answer)
  }

  ghost function Next(s: State, a: Action, maxAttempts: int): State
    requires Enabled(s, a)
  {
    match a
    case Start(queue) => s.(workers := s.workers + [Worker(queue, Polling, WorkerStats(0, 0, 0))])
    case Claim(w) =>
      var j :| FirstClaimable(s, j, s.workers[w].queue);
      InPhase(s, w, Running(j))
    case FindNone(w) => InPhase(s, w, Counting)
    case Commit(w, answer) =>
      var worker, j, outcome := s.workers[w], s.workers[w].phase.job, Outcome(s, a, maxAttempts);
      State(s.jobs[j := JobAfter(s.jobs[j], maxAttempts, w, answer)],
            s.workers[w := Worker(worker.queue, Polling, Counted(worker.stats, outcome))])
    case Count(w) => InPhase(s, w, if Waiting(s.jobs, s.workers[w].queue) == {} then Returned else Pausing)
    case Wake(w) => InPhase(s, w, Polling)
    case Die(w) => InPhase(s, w, Dead)
  }

  ghost predicate Executes(s: State, actions: seq<Action>, t: State, maxAttempts: int)
    decreases |actions|
  {
    if actions == [] then s == t
    else Enabled(s, actions[0]) && Executes(Next(s, actions[0], maxAttempts), actions[1..], t, maxAttempts)
  }

  /** A job as the table admits it between attempts. */
  predicate Plausible(job: Job, maxAttempts: int) {
    match job.status
    case Pending => job.attempts < maxAttempts && job.processed == 0
    case Done => job.attempts <= maxAttempts && job.processed == 1 && job.processedAt.Some?
    case Failed => job.attempts <= maxAttempts && job.processed == 0 && job.lastError.Some?
  }

  ghost predicate Starts(jobs: seq<Job>, maxAttempts: int) {
    forall j | 0 <= j < |jobs| :: Plausible(jobs[j], maxAttempts)
  }

  ghost predicate Reachable(start: seq<Job>, s: State, maxAttempts: int) {
    exists actions :: Executes(State(start, []), actions, s, maxAttempts)
  }

  // ----- what every step keeps -----

  function DoneBy(w: Worker): int { w.stats.done }

  function RetriedBy(w: Worker): int { w.stats.retried }

  function FailedBy(w: Worker): int { w.stats.failed }

  ghost predicate LocksInv(s: State) {
    && (forall w | 0 <= w < |s.workers| && s.workers[w].phase.Running? ::
          s.workers[w].phase.job < |s.jobs| && Waits(s.jobs[s.workers[w].phase.job], s.workers[w].queue))
    && (forall v, w | 0 <= v < w < |s.workers| && s.workers[v].phase.Running? && s.workers[w].phase.Running? ::
          s.workers[v].phase.job != s.workers[w].phase.job)
  }

  ghost predicate ReturnedInv(s: State) {
    forall w, j | 0 <= w < |s.workers| && s.workers[w].phase.Returned? && 0 <= j < |s.jobs| ::
      !Waits(s.jobs[j], s.workers[w].queue)
  }

  ghost predicate BooksInv(start: seq<Job>, s: State) {
    Accounts(start, s.jobs, SumBy(DoneBy, s.workers), SumBy(RetriedBy, s.workers), SumBy(FailedBy, s.workers))
  }

  ghost predicate Inv(start: seq<Job>, s: State, maxAttempts: int) {
    && |s.jobs| == |start| && Starts(s.jobs, maxAttempts)
    && LocksInv(s) && ReturnedInv(s) && BooksInv(start, s)
  }

  lemma SamePlaceSameStats(s: State, w: nat, worker: Worker)
    requires w < |s.workers| && worker.stats == s.workers[w].stats
    ensures var workers := s.workers[w := worker];
            && SumBy(DoneBy, workers) == SumBy(DoneBy, s.workers)
            && SumBy(RetriedBy, workers) == SumBy(RetriedBy, s.workers)
            && SumBy(FailedBy, workers) == SumBy(FailedBy, s.workers)
  {
    SumUpdated(DoneBy, s.workers, w, worker);
    SumUpdated(RetriedBy, s.workers, w, worker);
    SumUpdated(FailedBy, s.workers, w, worker);
  }

  lemma PhaseKeepsInv(start: seq<Job>, s: State, a: Action, maxAttempts: int)
    requires Inv(start, s, maxAttempts) && Enabled(s, a) && !a.Start? && !a.Commit?
    ensures Inv(start, Next(s, a, maxAttempts), maxAttempts)
  {
    var t := Next(s, a, maxAttempts);
    SamePlaceSameStats(s, a.w, t.workers[a.w]);
    if a.Claim? {
      var j := t.workers[a.w].phase.job;
      assert FirstClaimable(s, j, s.workers[a.w].queue);
      assert forall w | 0 <= w < |s.workers| :: s.workers[w].phase != Running(j);
    }
    if a.Count? {
      assert forall j: nat | j < |s.jobs| && Waits(s.jobs[j], s.workers[a.w].queue) ::
          j in Waiting(s.jobs, s.workers[a.w].queue);
    }
  }

  lemma StartKeepsInv(start: seq<Job>, s: State, a: Action, maxAttempts: int)
    requires Inv(start, s, maxAttempts) && a.Start?
    ensures Inv(start, Next(s, a, maxAttempts), maxAttempts)
  {
    var worker := Worker(a.queue, Polling, WorkerStats(0, 0, 0));
    SumAddLast(DoneBy, s.workers, worker);
    SumAddLast(RetriedBy, s.workers, worker);
    SumAddLast(FailedBy, s.workers, worker);
  }

  lemma CommitIsAccounted(start: seq<Job>, s: State, a: Action, maxAttempts: int)
    requires LocksInv(s) && BooksInv(start, s) && Enabled(s, a) && a.Commit?
    ensures BooksInv(start, Next(s, a, maxAttempts))
    ensures SumBy(Chances(maxAttempts), Next(s, a, maxAttempts).jobs) < SumBy(Chances(maxAttempts), s.jobs)
  {
    var worker := Next(s, a, maxAttempts).workers[a.w];
    SumUpdated(DoneBy, s.workers, a.w, worker);
    SumUpdated(RetriedBy, s.workers, a.w, worker);
    SumUpdated(FailedBy, s.workers, a.w, worker);
    OutcomeIsAccounted(start, s.jobs, SumBy(DoneBy, s.workers), SumBy(RetriedBy, s.workers), SumBy(FailedBy, s.workers),
                       s.workers[a.w].phase.job, maxAttempts, a.w, a.answer);
  }

  lemma CommitKeepsLocks(s: State, a: Action, maxAttempts: int)
    requires LocksInv(s) && ReturnedInv(s) && Enabled(s, a) && a.Commit?
    ensures LocksInv(Next(s, a, maxAttempts)) && ReturnedInv(Next(s, a, maxAttempts))
  {
    var t, j := Next(s, a, maxAttempts), s.workers[a.w].phase.job;
    assert forall i | 0 <= i < |t.jobs| && i != j :: t.jobs[i] == s.jobs[i];
    assert t.jobs[j].queue == s.jobs[j].queue;
  }

  lemma StepKeepsInv(start: seq<Job>, s: State, a: Action, maxAttempts: int)
    requires Inv(start, s, maxAttempts) && Enabled(s, a)
    ensures Inv(start, Next(s, a, maxAttempts), maxAttempts)
    ensures var before, after := SumBy(Chances(maxAttempts), s.jobs), SumBy(Chances(maxAttempts), Next(s, a, maxAttempts).jobs);
            if a.Commit? then after < before else after == before
  {
    if a.Commit? {
      CommitIsAccounted(start, s, a, maxAttempts);
      CommitKeepsLocks(s, a, maxAttempts);
    } else if a.Start? {
      StartKeepsInv(start, s, a, maxAttempts);
    } else {
      PhaseKeepsInv(start, s, a, maxAttempts);
    }
  }

  function Commits(actions: seq<Action>): nat {
    if actions == [] then 0 else (if actions[0].Commit? then 1 else 0) + Commits(actions[1..])
  }

  /** A run keeps the invariant, and each of its outcomes uses up a chance. */
  lemma {:induction false} RunKeepsInv(start: seq<Job>, s: State, actions: seq<Action>, t: State, maxAttempts: int)
    requires Inv(start, s, maxAttempts) && Executes(s, actions, t, maxAttempts)
    ensures Inv(start, t, maxAttempts)
    ensures SumBy(Chances(maxAttempts), t.jobs) + Commits(actions) <= SumBy(Chances(maxAttempts), s.jobs)
    decreases |actions|
  {
    if actions != [] {
      StepKeepsInv(start, s, actions[0], maxAttempts);
      RunKeepsInv(start, Next(s, actions[0], maxAttempts), actions[1..], t, maxAttempts);
    }
  }

  lemma ReachableInv(start: seq<Job>, s: State, maxAttempts: int)
    requires Starts(start, maxAttempts) && Reachable(start, s, maxAttempts)
    ensures Inv(start, s, maxAttempts)
  {
    var actions :| Executes(State(start, []), actions, s, maxAttempts);
    RunKeepsInv(start, State(start, []), actions, s, maxAttempts);
  }

  // ----- results -----

  /** No job is done twice or tried more often than the limit; a pending job has attempts left. */
  lemma JobsAreDoneAtMostOnce(start: seq<Job>, s: State, j: nat, maxAttempts: int)
    requires Starts(start, maxAttempts) && Reachable(start, s, maxAttempts) && j < |s.jobs|
    ensures s.jobs[j].processed == (if s.jobs[j].status.Done? then 1 else 0) && s.jobs[j].attempts <= maxAttempts
    ensures s.jobs[j].status.Pending? ==> s.jobs[j].attempts < maxAttempts
  {
    ReachableInv(start, s, maxAttempts);
    assert Plausible(s.jobs[j], maxAttempts);
  }

  /** No two workers try the same job at the same time. */
  lemma WorkersTryDifferentJobs(start: seq<Job>, s: State, v: nat, w: nat, maxAttempts: int)
    requires Starts(start, maxAttempts) && Reachable(start, s, maxAttempts) && v < |s.workers| && w < |s.workers| && v != w
    requires s.workers[v].phase.Running? && s.workers[w].phase.Running?
    ensures s.workers[v].phase.job != s.workers[w].phase.job
  {
    ReachableInv(start, s, maxAttempts);
  }

  /** Every outcome uses up one of the chances the jobs have, so a run has no more outcomes than that. */
  lemma OutcomesAreBounded(start: seq<Job>, actions: seq<Action>, s: State, maxAttempts: int)
    requires Starts(start, maxAttempts) && Executes(State(start, []), actions, s, maxAttempts)
    ensures Commits(actions) <= SumBy(Chances(maxAttempts), start)
  {
    RunKeepsInv(start, State(start, []), actions, s, maxAttempts);
    ChancesLeft(s.jobs, maxAttempts);
  }

  /** A worker that has returned leaves no pending job in its queue, then or later. */
  lemma ReturnedWorkerLeavesNothing(start: seq<Job>, s: State, w: nat, j: nat, maxAttempts: int)
    requires Starts(start, maxAttempts) && Reachable(start, s, maxAttempts)
    requires w < |s.workers| && s.workers[w].phase.Returned? && j < |s.jobs| && s.jobs[j].queue == s.workers[w].queue
    ensures s.jobs[j].status.Done? || s.jobs[j].status.Failed?
  {
    ReachableInv(start, s, maxAttempts);
  }

  /** The workers' statistics sum to the jobs done and failed and, with the retries, to the attempts made. */
  lemma StatisticsAreExact(start: seq<Job>, s: State, maxAttempts: int)
    requires Starts(start, maxAttempts) && Reachable(start, s, maxAttempts)
    ensures SumBy(DoneBy, s.workers) == SumBy(IsDone, s.jobs) - SumBy(IsDone, start)
    ensures SumBy(FailedBy, s.workers) == SumBy(IsFailed, s.jobs) - SumBy(IsFailed, start)
    ensures SumBy(DoneBy, s.workers) + SumBy(RetriedBy, s.workers) + SumBy(FailedBy, s.workers)
         == SumBy(Attempts, s.jobs) - SumBy(Attempts, start)
  {
    ReachableInv(start, s, maxAttempts);
  }

  // ----- progress -----

  /** A step of the workers that are there: none dies or joins, and a handler answers as `handler` says. */
  ghost predicate Regular(s: State, a: Action, handler: Handler) {
    && Enabled(s, a) && !a.Start? && !a.Die?
    && (a.Commit? ==> a.answer == handler(s.workers[a.w].phase.job, s.jobs[s.workers[a.w].phase.job].attempts))
  }

  ghost predicate RunsTo(s: State, actions: seq<Action>, t: State, maxAttempts: int, handler: Handler)
    decreases |actions|
  {
    if actions == [] then s == t
    else Regular(s, actions[0], handler) && RunsTo(Next(s, actions[0], maxAttempts), actions[1..], t, maxAttempts, handler)
  }

  predicate Live(s: State, w: nat) {
    w < |s.workers| && !s.workers[w].phase.Dead? && !s.workers[w].phase.Returned?
  }

  /** How far a worker is from returning or claiming, while nobody tries a job. */
  function StepsLeft(s: State, w: nat): nat
    requires w < |s.workers|
  {
    match s.workers[w].phase
    case Counting => if Waiting(s.jobs, s.workers[w].queue) == {} then 1 else 4
    case Polling => 2
    case Pausing => 3
    case _ => 0
  }

  /** The step that brings some worker's outcome, or w, forward. */
  lemma SomeStepIsRegular(s: State, w: nat, handler: Handler) returns (a: Action)
    requires LocksInv(s) && Live(s, w)
    ensures Regular(s, a, handler)
    ensures a.Commit? || (a.Claim? && a.w == w && forall v | 0 <= v < |s.workers| :: !s.workers[v].phase.Running?)
         || ((a.FindNone? || a.Count? || a.Wake?) && a.w == w
             && forall v | 0 <= v < |s.workers| :: !s.workers[v].phase.Running?)
  {
    if v :| 0 <= v < |s.workers| && s.workers[v].phase.Running? {
      var j := s.workers[v].phase.job;
      return Commit(v, handler(j, s.jobs[j].attempts));
    }
    match s.workers[w].phase
    case Counting => a := Count(w);
    case Pausing => a := Wake(w);
    case Polling =>
      if j :| Claimable(s, j, s.workers[w].queue) {
        FirstClaimableExists(s, j, s.workers[w].queue);
        a := Claim(w);
      } else {
        a := FindNone(w);
      }
  }

  lemma {:induction false} FirstClaimableExists(s: State, j: nat, queue: nat)
    requires Claimable(s, j, queue)
    ensures exists i :: FirstClaimable(s, i, queue)
    decreases j
  {
    if i :| 0 <= i < j && Claimable(s, i, queue) {
      FirstClaimableExists(s, i, queue);
    } else {
      assert FirstClaimable(s, j, queue);
    }
  }

  /** A worker that finds nothing although nobody tries a job has nothing left to count. */
  lemma FoundNoneMeansNoneWaits(s: State, w: nat)
    requires Enabled(s, FindNone(w)) && forall v | 0 <= v < |s.workers| :: !s.workers[v].phase.Running?
    ensures Waiting(s.jobs, s.workers[w].queue) == {}
  {
    forall j: nat
      ensures j in Waiting(s.jobs, s.workers[w].queue) ==> Claimable(s, j, s.workers[w].queue)
    {
    }
  }

  lemma RegularStepStaysLive(s: State, a: Action, w: nat, maxAttempts: int, handler: Handler)
    requires LocksInv(s) && Live(s, w) && Regular(s, a, handler)
    ensures var t := Next(s, a, maxAttempts);
            w < |t.workers| && (Live(t, w) || (t.workers[w].phase.Returned? && a == Count(w)))
  {
  }

  /**
   Nobody gets stuck: from every state of a run, whatever the handlers answer, the workers that
   are there can go on, without any of them dying, until a given live one has returned.
   */
  lemma {:induction false} LiveWorkerCanReturn(start: seq<Job>, s: State, w: nat, maxAttempts: int, handler: Handler)
    returns (actions: seq<Action>, t: State)
    requires Inv(start, s, maxAttempts) && Live(s, w)
    ensures RunsTo(s, actions, t, maxAttempts, handler)
    ensures w < |t.workers| && t.workers[w].phase.Returned?
    decreases SumBy(Chances(maxAttempts), s.jobs), if s.workers[w].phase.Running? then 0 else 1, StepsLeft(s, w)
  {
    ChancesLeft(s.jobs, maxAttempts);
    var a := SomeStepIsRegular(s, w, handler);
    var next := Next(s, a, maxAttempts);
    StepKeepsInv(start, s, a, maxAttempts);
    RegularStepStaysLive(s, a, w, maxAttempts, handler);
    if a.FindNone? {
      FoundNoneMeansNoneWaits(s, w);
    }
    ChancesLeft(next.jobs, maxAttempts);
    var rest: seq<Action> := [];
    t := next;
    if Live(next, w) {
      rest, t := LiveWorkerCanReturn(start, next, w, maxAttempts, handler);
    }
    actions := [a] + rest;
    assert actions[1..] == rest;
  }

  /** The same for reachable states: what `LiveWorkerCanReturn` gives is a run. */
  lemma EveryLiveWorkerCanReturn(start: seq<Job>, s: State, w: nat, maxAttempts: int, handler: Handler)
    requires Starts(start, maxAttempts) && Reachable(start, s, maxAttempts) && Live(s, w)
    ensures exists actions, t :: RunsTo(s, actions, t, maxAttempts, handler)
              && w < |t.workers| && t.workers[w].phase.Returned?
  {
    ReachableInv(start, s, maxAttempts);
    var actions, t := LiveWorkerCanReturn(start, s, w, maxAttempts, handler);
  }

  /** A worker takes the first pending job of its queue that nobody else is trying. */
  lemma ClaimTakesTheFirst(s: State, w: nat, maxAttempts: int)
    requires Enabled(s, Claim(w))
    ensures var t := Next(s, Claim(w), maxAttempts);
            && t.workers[w].phase.Running? && t.jobs == s.jobs
            && var j, queue := t.workers[w].phase.job, s.workers[w].queue;
               && j < |s.jobs| && s.jobs[j].status.Pending? && s.jobs[j].queue == queue
               && (forall v | 0 <= v < |s.workers| :: s.workers[v].phase != Running(j))
               && forall i | 0 <= i < j && s.jobs[i].status.Pending? && s.jobs[i].queue == queue ::
                    exists v :: 0 <= v < |s.workers| && s.workers[v].phase == Running(i)
  {
    var j := Next(s, Claim(w), maxAttempts).workers[w].phase.job;
    assert FirstClaimable(s, j, s.workers[w].queue);
    forall i | 0 <= i < j && s.jobs[i].status.Pending? && s.jobs[i].queue == s.workers[w].queue
      ensures exists v :: 0 <= v < |s.workers| && s.workers[v].phase == Running(i)
    {
      assert !Claimable(s, i, s.workers[w].queue);
    }
  }

  // ----- the method as a run -----

  ghost predicate NobodyTries(s: State) {
    forall v | 0 <= v < |s.workers| :: !s.workers[v].phase.Running?
  }

  /** A worker alone takes the first job that waits and tries it once. */
  ghost predicate TriesOne(s: State, w: nat, j: nat, maxAttempts: int, handler: Handler, t: State) {
    && w < |s.workers| && j < |s.jobs| && Waits(s.jobs[j], s.workers[w].queue)
    && var answer := handler(j, s.jobs[j].attempts);
       var outcome := OutcomeOf(s.jobs[j], maxAttempts, answer);
       && t.jobs == s.jobs[j := JobAfter(s.jobs[j], maxAttempts, w, answer)]
       && t.workers == s.workers[w := Worker(s.workers[w].queue, Polling, Counted(s.workers[w].stats, outcome))]
  }

  lemma LoneTryIsARun(s: State, w: nat, maxAttempts: int, handler: Handler) returns (actions: seq<Action>, t: State, j: nat)
    requires w < |s.workers| && s.workers[w].phase.Polling? && NobodyTries(s)
    requires Waiting(s.jobs, s.workers[w].queue) != {}
    ensures RunsTo(s, actions, t, maxAttempts, handler) && TriesOne(s, w, j, maxAttempts, handler, t)
  {
    var i :| i in Waiting(s.jobs, s.workers[w].queue);
    assert Claimable(s, i, s.workers[w].queue);
    FirstClaimableExists(s, i, s.workers[w].queue);
    var claimed := Next(s, Claim(w), maxAttempts);
    j := claimed.workers[w].phase.job;
    assert FirstClaimable(s, j, s.workers[w].queue);
    var commit := Commit(w, handler(j, s.jobs[j].attempts));
    t := Next(claimed, commit, maxAttempts);
    actions := [Claim(w), commit];
    assert [Claim(w), commit][1..] == [commit] && [commit][1..] == [];
    assert RunsTo(claimed, [commit], t, maxAttempts, handler);
  }

  lemma LoneReturnIsARun(s: State, w: nat, maxAttempts: int, handler: Handler) returns (actions: seq<Action>, t: State)
    requires w < |s.workers| && s.workers[w].phase.Polling? && Waiting(s.jobs, s.workers[w].queue) == {}
    ensures RunsTo(s, actions, t, maxAttempts, handler) && t == InPhase(s, w, Returned)
  {
    forall j: nat
      ensures !Claimable(s, j, s.workers[w].queue)
    {
      assert j !in Waiting(s.jobs, s.workers[w].queue);
    }
    var counting := Next(s, FindNone(w), maxAttempts);
    t := Next(counting, Count(w), maxAttempts);
    actions := [FindNone(w), Count(w)];
    assert [FindNone(w), Count(w)][1..] == [Count(w)] && [Count(w)][1..] == [];
    assert RunsTo(counting, [Count(w)], t, maxAttempts, handler);
  }

  lemma {:induction false} RunsToCompose(s: State, first: seq<Action>, t: State, second: seq<Action>, u: State,
                                         maxAttempts: int, handler: Handler)
    requires RunsTo(s, first, t, maxAttempts, handler) && RunsTo(t, second, u, maxAttempts, handler)
    ensures RunsTo(s, first + second, u, maxAttempts, handler)
    decreases |first|
  {
    if first == [] {
      assert first + second == second;
    } else {
      RunsToCompose(Next(s, first[0], maxAttempts), first[1..], t, second, u, maxAttempts, handler);
      assert (first + second)[1..] == first[1..] + second;
    }
  }

  lemma OneTrySettlesTheSame(s: State, w: nat, j: nat, maxAttempts: int, handler: Handler, t: State, after: seq<Job>)
    requires TriesOne(s, w, j, maxAttempts, handler, t)
    requires Settles(t.jobs, s.workers[w].queue, maxAttempts, w, handler, after)
    ensures Settles(s.jobs, s.workers[w].queue, maxAttempts, w, handler, after)
  {
    assert forall i | 0 <= i < |s.jobs| && i != j :: t.jobs[i] == s.jobs[i];
  }

  /** What the worker's statistics gained accounts for what became of the jobs. */
  ghost predicate GainAccounts(s: State, w: nat, t: State)
    requires w < |s.workers| && w < |t.workers|
  {
    var before, after := s.workers[w].stats, t.workers[w].stats;
    Accounts(s.jobs, t.jobs, after.done - before.done, after.retried - before.retried, after.failed - before.failed)
  }

  lemma OneTryAccounts(s: State, w: nat, j: nat, maxAttempts: int, handler: Handler, t: State)
    requires TriesOne(s, w, j, maxAttempts, handler, t)
    ensures GainAccounts(s, w, t) && SumBy(Chances(maxAttempts), t.jobs) < SumBy(Chances(maxAttempts), s.jobs)
  {
    OutcomeIsAccounted(s.jobs, s.jobs, 0, 0, 0, j, maxAttempts, w, handler(j, s.jobs[j].attempts));
  }

  /** What `JobQueue.RunWorker` promises is what the workers' state machine does while nobody else tries a job. */
  lemma {:induction false} LoneWorkerIsARun(s: State, w: nat, maxAttempts: int, handler: Handler)
    returns (actions: seq<Action>, t: State)
    requires w < |s.workers| && s.workers[w].phase.Polling? && NobodyTries(s)
    ensures RunsTo(s, actions, t, maxAttempts, handler)
    ensures Settles(s.jobs, s.workers[w].queue, maxAttempts, w, handler, t.jobs)
    ensures |t.workers| == |s.workers| && t.workers[w].phase.Returned?
    ensures t.workers == s.workers[w := t.workers[w]] && GainAccounts(s, w, t)
    decreases SumBy(Chances(maxAttempts), s.jobs)
  {
    if Waiting(s.jobs, s.workers[w].queue) == {} {
      actions, t := LoneReturnIsARun(s, w, maxAttempts, handler);
      assert forall i: nat | i < |s.jobs| && Waits(s.jobs[i], s.workers[w].queue) :: i in Waiting(s.jobs, s.workers[w].queue);
      return;
    }
    var first, next, j := LoneTryIsARun(s, w, maxAttempts, handler);
    OneTryAccounts(s, w, j, maxAttempts, handler, next);
    ChancesLeft(next.jobs, maxAttempts);
    var rest;
    rest, t := LoneWorkerIsARun(next, w, maxAttempts, handler);
    OneTrySettlesTheSame(s, w, j, maxAttempts, handler, next, t.jobs);
    RunsToCompose(s, first, next, rest, t, maxAttempts, handler);
    actions := first + rest;
  }
}
