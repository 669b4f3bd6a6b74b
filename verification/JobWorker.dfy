/** The job queue: jobs that are retried up to a limit, and the loop of a worker that has the queue to itself. */
module JobWorker {
  import opened Options
  import opened Sums
  import opened Text

  datatype JobStatus = Pending | Done | Failed

  /** A row of `jobs`; its id is its place in the table. */
  datatype Job = Job(
    queue: nat, status: JobStatus, attempts: nat, processed: nat,
    lastError: Option<Text>, worker: Option<nat>, processedAt: Option<int>)

  datatype JobOutcome = JobDone | JobRetry | JobFailed

  datatype WorkerStats = WorkerStats(done: nat, retried: nat, failed: nat)

  /** How an attempt goes: the error the handler throws, if any, and the time of the transaction. */
  datatype Answer = Answer(error: Option<Text>, at: int)

  /** The handler's answer for a job and the number of attempts made before. */
  type Handler = (nat, nat) -> Answer

  function OutcomeOf(job: Job, maxAttempts: int, answer: Answer): JobOutcome {
    if answer.error.None? then JobDone else if job.attempts + 1 >= maxAttempts then JobFailed else JobRetry
  }

  function JobAfter(job: Job, maxAttempts: int, worker: nat, answer: Answer): Job {
    var tried := job.(attempts := job.attempts + 1, worker := Some(worker));
    match OutcomeOf(job, maxAttempts, answer)
    case JobDone => tried.(status := Done, processed := job.processed + 1, processedAt := Some(answer.at))
    case JobRetry => tried.(lastError := answer.error)
    case JobFailed => tried.(lastError := answer.error, status := Failed)
  }

  function Counted(stats: WorkerStats, outcome: JobOutcome): WorkerStats {
    match outcome
    case JobDone => stats.(done := stats.done + 1)
    case JobRetry => stats.(retried := stats.retried + 1)
    case JobFailed => stats.(failed := stats.failed + 1)
  }

  predicate Waits(job: Job, queue: nat) {
    job.status.Pending? && job.queue == queue
  }

  function Waiting(jobs: seq<Job>, queue: nat): set<nat> {
    set i: nat | i < |jobs| && Waits(jobs[i], queue)
  }

  lemma WaitingNext(jobs: seq<Job>, job: Job, queue: nat)
    ensures Waiting(jobs + [job], queue) == Waiting(jobs, queue) + if Waits(job, queue) then {|jobs|} else {}
    ensures |jobs| !in Waiting(jobs, queue)
  {
  }

  /** Where a job ends up when one worker tries it until it is done or failed. */
  function Settled(id: nat, job: Job, maxAttempts: int, worker: nat, handler: Handler): Job
    decreases if job.status.Pending? then 1 else 0, maxAttempts - job.attempts
  {
    if !job.status.Pending? then job
    else
      var answer := handler(id, job.attempts);
      var after := JobAfter(job, maxAttempts, worker, answer);
      if OutcomeOf(job, maxAttempts, answer).JobRetry? then Settled(id, after, maxAttempts, worker, handler) else after
  }

  /** The jobs of a queue are where trying them to the end takes them, and the others are untouched. */
  ghost predicate Settles(jobs: seq<Job>, queue: nat, maxAttempts: int, w: nat, handler: Handler, after: seq<Job>) {
    && |after| == |jobs|
    && forall i | 0 <= i < |jobs| ::
         after[i] == if Waits(jobs[i], queue) then Settled(i, jobs[i], maxAttempts, w, handler) else jobs[i]
  }

  // ----- counting -----

  function IsDone(job: Job): int {
    if job.status.Done? then 1 else 0
  }

  function IsFailed(job: Job): int {
    if job.status.Failed? then 1 else 0
  }

  function Attempts(job: Job): int {
    job.attempts
  }

  /** How many more outcomes a job can have. */
  function Chances(maxAttempts: int): Job -> int {
    (job: Job) =>
      if !job.status.Pending? then 0 else if job.attempts + 1 >= maxAttempts then 1 else maxAttempts - job.attempts
  }

  /** The statistics account for what became of the jobs. */
  ghost predicate Accounts(before: seq<Job>, after: seq<Job>, done: int, retried: int, failed: int) {
    && SumBy(IsDone, after) == SumBy(IsDone, before) + done
    && SumBy(IsFailed, after) == SumBy(IsFailed, before) + failed
    && SumBy(Attempts, after) == SumBy(Attempts, before) + done + retried + failed
  }

  lemma {:induction false} SumUpdated<T>(f: T -> int, xs: seq<T>, i: nat, x: T)
    requires i < |xs|
    ensures SumBy(f, xs[i := x]) == SumBy(f, xs) - f(xs[i]) + f(x)
  {
    var n := |xs| - 1;
    if i < n {
      SumUpdated(f, xs[..n], i, x);
      assert xs[i := x][..n] == xs[..n][i := x];
    } else {
      assert xs[i := x][..n] == xs[..n];
    }
  }

  /** One outcome: the account stays balanced, and there is one chance less. */
  lemma OutcomeIsAccounted(before: seq<Job>, jobs: seq<Job>, done: int, retried: int, failed: int, i: nat,
                           maxAttempts: int, worker: nat, answer: Answer)
    requires Accounts(before, jobs, done, retried, failed) && i < |jobs| && jobs[i].status.Pending?
    ensures var outcome := OutcomeOf(jobs[i], maxAttempts, answer);
            var after := jobs[i := JobAfter(jobs[i], maxAttempts, worker, answer)];
            && Accounts(before, after, done + (if outcome.JobDone? then 1 else 0),
                        retried + (if outcome.JobRetry? then 1 else 0), failed + (if outcome.JobFailed? then 1 else 0))
            && SumBy(Chances(maxAttempts), after) < SumBy(Chances(maxAttempts), jobs)
  {
    var job := JobAfter(jobs[i], maxAttempts, worker, answer);
    SumUpdated(IsDone, jobs, i, job);
    SumUpdated(IsFailed, jobs, i, job);
    SumUpdated(Attempts, jobs, i, job);
    SumUpdated(Chances(maxAttempts), jobs, i, job);
  }

  lemma ChancesLeft(jobs: seq<Job>, maxAttempts: int)
    ensures SumBy(Chances(maxAttempts), jobs) >= 0
  {
    SumNonNegative(Chances(maxAttempts), jobs);
  }

  // ----- one worker -----

  class JobQueue {
    var jobs: seq<Job>

    constructor (jobs: seq<Job>)
      ensures this.jobs == jobs
    {
      this.jobs := jobs;
    }

    /** Tries the first pending job of the queue. */
    method ProcessNextJob(queue: nat, maxAttempts: int, worker: nat, handler: Handler)
      returns (outcome: Option<JobOutcome>, ghost id: nat)
      modifies this
      ensures outcome.None? ==> jobs == old(jobs) && forall i | 0 <= i < |jobs| :: !Waits(jobs[i], queue)
      ensures outcome.Some? ==>
                && id < |old(jobs)| && Waits(old(jobs)[id], queue)
                && (forall i | 0 <= i < id :: !Waits(old(jobs)[i], queue))
                && outcome.value == OutcomeOf(old(jobs)[id], maxAttempts, handler(id, old(jobs)[id].attempts))
                && jobs == old(jobs)[id := JobAfter(old(jobs)[id], maxAttempts, worker, handler(id, old(jobs)[id].attempts))]
    {
      for i := 0 to |jobs|
        invariant forall j | 0 <= j < i :: !Waits(jobs[j], queue)
        invariant jobs == old(jobs)
      {
        if Waits(jobs[i], queue) {
          var job := jobs[i];
          var answer := handler(i, job.attempts);
          if answer.error.Some? {
            var status := if job.attempts + 1 >= maxAttempts then Failed else Pending;
            jobs := jobs[i := job.(attempts := job.attempts + 1, lastError := answer.error, worker := Some(worker),
                                   status := status)];
            return Some(if status.Failed? then JobFailed else JobRetry), i;
          }
          jobs := jobs[i := job.(status := Done, processed := job.processed + 1, attempts := job.attempts + 1,
                                 worker := Some(worker), processedAt := Some(answer.at))];
          return Some(JobDone), i;
        }
      }
      outcome, id := None, 0;
    }

    method CountPendingJobs(queue: nat) returns (count: nat)
      ensures count == |Waiting(jobs, queue)|
      ensures count == 0 <==> forall i | 0 <= i < |jobs| :: !Waits(jobs[i], queue)
    {
      count := 0;
      for i := 0 to |jobs|
        invariant count == |Waiting(jobs[..i], queue)|
      {
        WaitingNext(jobs[..i], jobs[i], queue);
        assert jobs[..i + 1] == jobs[..i] + [jobs[i]];
        if Waits(jobs[i], queue) {
          count := count + 1;
        }
      }
      assert jobs[..|jobs|] == jobs;
      if i :| 0 <= i < |jobs| && Waits(jobs[i], queue) {
        assert i in Waiting(jobs, queue);
      } else {
        assert Waiting(jobs, queue) == {};
      }
    }

    /**
     A worker alone with the queue comes to an end, and then every job of the queue is where trying it to the end takes
     it. The statistics are exact.
     */
    method RunWorker(queue: nat, maxAttempts: int, worker: nat, handler: Handler) returns (stats: WorkerStats)
      modifies this
      ensures Settles(old(jobs), queue, maxAttempts, worker, handler, jobs)
      ensures forall i | 0 <= i < |jobs| :: old(jobs)[i].queue != queue || !old(jobs)[i].status.Pending? ==> jobs[i] == old(jobs)[i]
      ensures forall i | 0 <= i < |jobs| :: jobs[i].queue == queue ==> !jobs[i].status.Pending?
      ensures Accounts(old(jobs), jobs, stats.done, stats.retried, stats.failed)
    {
      stats := WorkerStats(0, 0, 0);
      while true
        invariant |jobs| == |old(jobs)|
        invariant forall i | 0 <= i < |jobs| ::
                    if Waits(old(jobs)[i], queue)
                    then jobs[i].queue == queue
                         && Settled(i, jobs[i], maxAttempts, worker, handler)
                            == Settled(i, old(jobs)[i], maxAttempts, worker, handler)
                    else jobs[i] == old(jobs)[i]
        invariant Accounts(old(jobs), jobs, stats.done, stats.retried, stats.failed)
        decreases SumBy(Chances(maxAttempts), jobs)
      {
        ghost var before := jobs;
        ChancesLeft(jobs, maxAttempts);
        var outcome, id := ProcessNextJob(queue, maxAttempts, worker, handler);
        if outcome.Some? {
          OutcomeIsAccounted(old(jobs), before, stats.done, stats.retried, stats.failed, id, maxAttempts, worker,
                             handler(id, before[id].attempts));
          match outcome.value {
            case JobDone => stats := stats.(done := stats.done + 1);
            case JobRetry => stats := stats.(retried := stats.retried + 1);
            case JobFailed => stats := stats.(failed := stats.failed + 1);
          }
          continue;
        }
        var left := CountPendingJobs(queue);
        if left == 0 {
          return;
        }
        assert false;
      }
    }
  }

  /**
   Trying a job to the end leaves it done at the first attempt that does not throw, or failed at the limit, with the
   last error, the worker and the time of its success on record.
   */
  lemma {:induction false} SettledJobIsDoneOrFailed(id: nat, job: Job, maxAttempts: int, worker: nat, handler: Handler)
    requires job.status.Pending?
    ensures var end := Settled(id, job, maxAttempts, worker, handler);
            var limit := if job.attempts + 1 >= maxAttempts then job.attempts + 1 else maxAttempts;
            && end.queue == job.queue && job.attempts < end.attempts <= limit && end.worker == Some(worker)
            && (forall k | job.attempts <= k < end.attempts - 1 :: handler(id, k).error.Some?)
            && match handler(id, end.attempts - 1).error
               case None =>
                 end.status.Done? && end.processed == job.processed + 1
                 && end.processedAt == Some(handler(id, end.attempts - 1).at)
                 && end.lastError == if end.attempts == job.attempts + 1 then job.lastError
                                     else handler(id, end.attempts - 2).error
               case Some(error) =>
                 end.status.Failed? && end.attempts == limit && end.lastError == Some(error)
                 && end.processed == job.processed && end.processedAt == job.processedAt
    decreases maxAttempts - job.attempts
  {
    var answer := handler(id, job.attempts);
    if OutcomeOf(job, maxAttempts, answer).JobRetry? {
      SettledJobIsDoneOrFailed(id, JobAfter(job, maxAttempts, worker, answer), maxAttempts, worker, handler);
    }
  }
}
