/**
 * The job queue of `JobManager`: jobs are appended, a scheduler dispatches
 * them one at a time to worker threads under a cap on the number of
 * computationally heavy jobs running at once, and completions remove them.
 *
 * Every block the source runs under `lock(this)` is one method here, so each
 * method is one atomic transition of the queue. Worker threads become
 * abstract worker ids and the body of a job becomes an outcome supplied by
 * the caller.
 */
module JobManager {
  import opened Wrappers

  /** Identity of a `BackgroundWorker` that runs one job. */
  type WorkerId = nat

  /** An `IRunnable` as the manager sees it. */
  datatype Job = Job(id: nat, isComputationallyTimeConsuming: bool, isCompleted: bool, errorMessage: Option<string>)

  /** One element of the queue: the worker running the job (none until it is dispatched) and the job. */
  datatype Entry = Entry(worker: Option<WorkerId>, job: Job)

  /** What running the body of a job produced. */
  datatype Outcome = Ok | Error(message: string)

  /** 1 for an entry that occupies a processor under the cap: dispatched and heavy. */
  function Weight(e: Entry): nat
  {
    if e.worker.Some? && e.job.isComputationallyTimeConsuming then 1 else 0
  }

  /** The number of dispatched heavy entries in `jobs`. */
  function HeavyRunning(jobs: seq<Entry>): nat
  {
    if jobs == [] then 0 else HeavyRunning(jobs[..|jobs| - 1]) + Weight(jobs[|jobs| - 1])
  }

  /** Each entry adds at most one heavy job. */
  lemma {:induction false} HeavyRunningBounded(jobs: seq<Entry>)
    ensures HeavyRunning(jobs) <= |jobs|
  {
    if jobs != [] {
      HeavyRunningBounded(jobs[..|jobs| - 1]);
    }
  }

  /** The index of the first entry without a worker, or `|jobs|` when every entry has one. */
  function FirstFree(jobs: seq<Entry>): (f: nat)
    ensures f <= |jobs|
    ensures forall k :: 0 <= k < f ==> jobs[k].worker.Some?
    ensures f < |jobs| ==> jobs[f].worker.None?
  {
    if jobs == [] || jobs[0].worker.None? then 0 else 1 + FirstFree(jobs[1..])
  }

  /**
   * The selection rule: the first entry without a worker, provided fewer than
   * `cap` heavy entries are running ahead of it. A negative cap never matches
   * the running count, so it places no limit.
   */
  function NextJob(jobs: seq<Entry>, cap: int): int
  {
    var f := FirstFree(jobs);
    if f < |jobs| && (cap < 0 || HeavyRunning(jobs[..f]) < cap) then f else -1
  }

  /** Dispatched entries always come before undispatched ones. */
  predicate DispatchedPrefix(jobs: seq<Entry>)
  {
    forall i, j :: 0 <= i < j < |jobs| && jobs[j].worker.Some? ==> jobs[i].worker.Some?
  }

  /** No worker runs two entries. */
  predicate DistinctWorkers(jobs: seq<Entry>)
  {
    forall i, j :: 0 <= i < j < |jobs| && jobs[i].worker.Some? ==> jobs[i].worker != jobs[j].worker
  }

  /** The cap bounds the heavy jobs running; a negative cap bounds nothing. */
  predicate WithinCap(jobs: seq<Entry>, cap: int)
  {
    cap >= 0 ==> HeavyRunning(jobs) <= cap
  }

  /** The queue invariant: dispatched entries in front, distinct workers below `nextWorker`, the cap respected. */
  predicate ValidQueue(jobs: seq<Entry>, cap: int, nextWorker: nat)
  {
    && DispatchedPrefix(jobs)
    && DistinctWorkers(jobs)
    && WithinCap(jobs, cap)
    && (forall k :: 0 <= k < |jobs| && jobs[k].worker.Some? ==> jobs[k].worker.value < nextWorker)
  }

  /** Marking jobs completed or recording their errors keeps the queue invariant. */
  lemma SameWorkersKeepInvariant(a: seq<Entry>, b: seq<Entry>, cap: int, nextWorker: nat)
    requires ValidQueue(a, cap, nextWorker)
    requires |a| == |b|
    requires forall k :: 0 <= k < |a| ==> a[k].worker == b[k].worker
    requires forall k :: 0 <= k < |a| ==> a[k].job.isComputationallyTimeConsuming == b[k].job.isComputationallyTimeConsuming
    ensures ValidQueue(b, cap, nextWorker)
  {
    HeavyRunningFrame(a, b);
  }

  /** `jobs` with the first `n` entries marked completed. */
  function MarkCompleted(jobs: seq<Entry>, n: nat): (r: seq<Entry>)
    requires n <= |jobs|
    ensures |r| == |jobs|
    ensures forall k :: 0 <= k < |r| ==> r[k].worker == jobs[k].worker && r[k].job.id == jobs[k].job.id
    ensures forall k :: 0 <= k < |r| ==> r[k].job.isComputationallyTimeConsuming == jobs[k].job.isComputationallyTimeConsuming
    ensures forall k :: 0 <= k < |r| ==> r[k].job.isCompleted == (k < n || jobs[k].job.isCompleted)
    ensures r[n..] == jobs[n..]
  {
    if n == 0 then jobs
    else MarkCompleted(jobs, n - 1)[n - 1 := Entry(jobs[n - 1].worker, jobs[n - 1].job.(isCompleted := true))]
  }

  /** Marking jobs completed keeps the queue invariant. */
  lemma MarkCompletedKeepsInvariant(jobs: seq<Entry>, n: nat, cap: int, nextWorker: nat)
    requires n <= |jobs| && ValidQueue(jobs, cap, nextWorker)
    ensures ValidQueue(MarkCompleted(jobs, n), cap, nextWorker)
  {
    SameWorkersKeepInvariant(jobs, MarkCompleted(jobs, n), cap, nextWorker);
  }

  /** Counting is additive over concatenation. */
  lemma {:induction false} HeavyRunningConcat(a: seq<Entry>, b: seq<Entry>)
    ensures HeavyRunning(a + b) == HeavyRunning(a) + HeavyRunning(b)
    decreases |b|
  {
    if b != [] {
      var b' := b[..|b| - 1];
      assert (a + b)[..|a + b| - 1] == a + b';
      HeavyRunningConcat(a, b');
    } else {
      assert a + b == a;
    }
  }

  /** A queue without dispatched entries has no heavy entry running. */
  lemma {:induction false} HeavyRunningUndispatched(s: seq<Entry>)
    requires forall k :: 0 <= k < |s| ==> s[k].worker.None?
    ensures HeavyRunning(s) == 0
  {
    if s != [] {
      HeavyRunningUndispatched(s[..|s| - 1]);
    }
  }

  /** The running count of a prefix never exceeds that of a longer prefix. */
  lemma {:induction false} HeavyRunningMonotone(jobs: seq<Entry>, i: nat, j: nat)
    requires i <= j <= |jobs|
    ensures HeavyRunning(jobs[..i]) <= HeavyRunning(jobs[..j])
    decreases j - i
  {
    if i < j {
      assert jobs[..j][..j - 1] == jobs[..j - 1];
      HeavyRunningMonotone(jobs, i, j - 1);
    }
  }

  /** The count depends only on the workers and the heaviness of the entries. */
  lemma {:induction false} HeavyRunningFrame(a: seq<Entry>, b: seq<Entry>)
    requires |a| == |b|
    requires forall k :: 0 <= k < |a| ==> a[k].worker == b[k].worker
    requires forall k :: 0 <= k < |a| ==> a[k].job.isComputationallyTimeConsuming == b[k].job.isComputationallyTimeConsuming
    ensures HeavyRunning(a) == HeavyRunning(b)
  {
    if a != [] {
      HeavyRunningFrame(a[..|a| - 1], b[..|b| - 1]);
    }
  }

  /**
   * The selected index is the first free entry, and it is selected only when
   * fewer than `cap` heavy jobs are running ahead of it.
   */
  lemma NextJobSound(jobs: seq<Entry>, cap: int)
    ensures var i := NextJob(jobs, cap);
      -1 <= i < |jobs| &&
      (i >= 0 ==> jobs[i].worker.None? && (forall k :: 0 <= k < i ==> jobs[k].worker.Some?) &&
                  (cap >= 0 ==> HeavyRunning(jobs[..i]) < cap))
    ensures cap == 0 ==> NextJob(jobs, cap) == -1
  {
  }

  /** -1 means that every entry is dispatched or the cap is reached before the first free one. */
  lemma NextJobNone(jobs: seq<Entry>, cap: int)
    requires NextJob(jobs, cap) == -1
    ensures forall k :: 0 <= k < |jobs| && jobs[k].worker.None? ==>
      cap >= 0 && HeavyRunning(jobs[..k]) >= cap
  {
    var f := FirstFree(jobs);
    forall k | 0 <= k < |jobs| && jobs[k].worker.None?
      ensures cap >= 0 && HeavyRunning(jobs[..k]) >= cap
    {
      HeavyRunningMonotone(jobs, f, k);
    }
  }

  /** Dispatched jobs that are not heavy never hold up the next free job. */
  lemma {:induction false} LightJobsNeverBlock(jobs: seq<Entry>, cap: int)
    requires cap != 0
    requires forall k :: 0 <= k < |jobs| && jobs[k].worker.Some? ==> !jobs[k].job.isComputationallyTimeConsuming
    requires FirstFree(jobs) < |jobs|
    ensures NextJob(jobs, cap) == FirstFree(jobs)
  {
    var f := FirstFree(jobs);
    NoHeavyNoCount(jobs[..f]);
  }

  lemma {:induction false} NoHeavyNoCount(s: seq<Entry>)
    requires forall k :: 0 <= k < |s| && s[k].worker.Some? ==> !s[k].job.isComputationallyTimeConsuming
    ensures HeavyRunning(s) == 0
  {
    if s != [] {
      NoHeavyNoCount(s[..|s| - 1]);
    }
  }

  /**
   * A dispatch step keeps the dispatched entries in front and never takes the
   * number of running heavy jobs above the cap.
   */
  lemma {:induction false} DispatchKeepsInvariant(jobs: seq<Entry>, cap: int, w: WorkerId)
    requires DispatchedPrefix(jobs) && WithinCap(jobs, cap)
    requires NextJob(jobs, cap) >= 0
    ensures var i := NextJob(jobs, cap);
      var jobs' := jobs[i := Entry(Some(w), jobs[i].job)];
      DispatchedPrefix(jobs') && WithinCap(jobs', cap)
  {
    var i := NextJob(jobs, cap);
    var jobs' := jobs[i := Entry(Some(w), jobs[i].job)];
    assert jobs' == jobs[..i] + [jobs'[i]] + jobs[i + 1..];
    forall k | i < k < |jobs| ensures jobs[k].worker.None? {
    }
    HeavyRunningUndispatched(jobs[i + 1..]);
    HeavyRunningConcat(jobs[..i] + [jobs'[i]], jobs[i + 1..]);
    HeavyRunningConcat(jobs[..i], [jobs'[i]]);
    assert [jobs'[i]][..0] == [];
  }

  /** Removing an entry keeps the dispatched entries in front and lowers the count by its weight. */
  lemma {:induction false} RemoveKeepsInvariant(jobs: seq<Entry>, cap: int, nextWorker: nat, i: nat)
    requires i < |jobs|
    requires ValidQueue(jobs, cap, nextWorker)
    ensures var jobs' := jobs[..i] + jobs[i + 1..];
      ValidQueue(jobs', cap, nextWorker) &&
      HeavyRunning(jobs') == HeavyRunning(jobs) - Weight(jobs[i])
  {
    var jobs' := jobs[..i] + jobs[i + 1..];
    RemoveCount(jobs, i);
    RemovedIndices(jobs, i);
    forall a, b | 0 <= a < b < |jobs'| && jobs'[b].worker.Some?
      ensures jobs'[a].worker.Some?
    {
      assert jobs'[b] == jobs[if b < i then b else b + 1];
    }
    forall a, b | 0 <= a < b < |jobs'| && jobs'[a].worker.Some?
      ensures jobs'[a].worker != jobs'[b].worker
    {
      assert jobs'[b] == jobs[if b < i then b else b + 1];
    }
  }

  /** Removing an entry lowers the count by its weight. */
  lemma RemoveCount(jobs: seq<Entry>, i: nat)
    requires i < |jobs|
    ensures HeavyRunning(jobs[..i] + jobs[i + 1..]) == HeavyRunning(jobs) - Weight(jobs[i])
  {
    var front, back := jobs[..i], jobs[i + 1..];
    SplitAround(jobs, i);
    HeavyRunningConcat(front + [jobs[i]], back);
    HeavyRunningAppend(front, jobs[i]);
    HeavyRunningConcat(front, back);
  }

  /** A sequence is the entries before `i`, the entry at `i` and the entries after it. */
  lemma SplitAround(jobs: seq<Entry>, i: nat)
    requires i < |jobs|
    ensures jobs == (jobs[..i] + [jobs[i]]) + jobs[i + 1..]
  {
  }

  /** One more entry adds its weight. */
  lemma HeavyRunningAppend(s: seq<Entry>, e: Entry)
    ensures HeavyRunning(s + [e]) == HeavyRunning(s) + Weight(e)
  {
    assert (s + [e])[..|s|] == s;
  }

  /** The entries after the removed one move down by one place. */
  lemma RemovedIndices(jobs: seq<Entry>, i: nat)
    requires i < |jobs|
    ensures var jobs' := jobs[..i] + jobs[i + 1..];
      |jobs'| == |jobs| - 1 && forall a :: 0 <= a < |jobs'| ==> jobs'[a] == jobs[if a < i then a else a + 1]
  {
  }

  /** Removing the front entry keeps the queue invariant. */
  lemma RemoveFrontKeepsInvariant(jobs: seq<Entry>, cap: int, nextWorker: nat)
    requires |jobs| > 0 && ValidQueue(jobs, cap, nextWorker)
    ensures ValidQueue(jobs[1..], cap, nextWorker)
  {
    var rest := jobs[1..];
    assert jobs == [jobs[0]] + rest;
    HeavyRunningConcat([jobs[0]], rest);
    forall a, b | 0 <= a < b < |rest| && rest[b].worker.Some?
      ensures rest[a].worker.Some?
    {
      assert rest[a] == jobs[a + 1] && rest[b] == jobs[b + 1];
    }
    forall a, b | 0 <= a < b < |rest| && rest[a].worker.Some?
      ensures rest[a].worker != rest[b].worker
    {
      assert rest[a] == jobs[a + 1] && rest[b] == jobs[b + 1];
    }
  }

  /** Whether some job in `completed` carries an error message. */
  predicate CarriesError(completed: seq<Job>)
  {
    exists k :: 0 <= k < |completed| && completed[k].errorMessage.Some?
  }

  /** The number of successful outcomes. */
  function CountOk(outcomes: seq<Outcome>): nat
  {
    if outcomes == [] then 0 else CountOk(outcomes[..|outcomes| - 1]) + (if outcomes[|outcomes| - 1].Ok? then 1 else 0)
  }

  /** The completed jobs are the first entries of `queue`, in order, each marked completed. */
  predicate CompletedInOrder(completed: seq<Job>, queue: seq<Entry>)
  {
    |completed| <= |queue| &&
    forall k :: 0 <= k < |completed| ==> completed[k].id == queue[k].job.id && completed[k].isCompleted
  }

  /** Completing the next entry of the queue keeps the completed jobs in order. */
  lemma CompletedInOrderAppend(completed: seq<Job>, queue: seq<Entry>, job: Job)
    requires CompletedInOrder(completed, queue) && |completed| < |queue|
    requires job.id == queue[|completed|].job.id
    ensures CompletedInOrder(completed + [job.(isCompleted := true)], queue)
  {
  }

  /** Some outcome is an error. */
  predicate SomeError(outcomes: seq<Outcome>)
  {
    exists k :: 0 <= k < |outcomes| && outcomes[k].Error?
  }

  /** One more outcome adds one to the count when it is a success, and an error when it is one. */
  lemma OutcomesStep(outcomes: seq<Outcome>, n: nat)
    requires n < |outcomes|
    ensures CountOk(outcomes[..n + 1]) == CountOk(outcomes[..n]) + (if outcomes[n].Ok? then 1 else 0)
    ensures SomeError(outcomes[..n + 1]) == (SomeError(outcomes[..n]) || outcomes[n].Error?)
  {
    var next := outcomes[..n + 1];
    assert next[..n] == outcomes[..n];
    if SomeError(next) && !outcomes[n].Error? {
      var k :| 0 <= k < |next| && next[k].Error?;
      assert next[..n][k] == next[k];
    }
    if SomeError(outcomes[..n]) {
      var k :| 0 <= k < n && outcomes[..n][k].Error?;
      assert next[k] == outcomes[..n][k];
    }
    if outcomes[n].Error? {
      assert next[n].Error?;
    }
  }

  /** The maximum number of processors: an explicit argument other than -1 is taken as it is, otherwise the host's count floored at 1. */
  function ProcessorCap(argument: int, numberOfProcessors: Option<int>): (cap: int)
    ensures argument != -1 ==> cap == argument
    ensures argument == -1 ==> cap >= 1
    ensures argument == -1 && numberOfProcessors.Some? && numberOfProcessors.value >= 1 ==> cap == numberOfProcessors.value
    ensures argument == -1 && (numberOfProcessors.None? || numberOfProcessors.value < 1) ==> cap == 1
  {
    if argument != -1 then argument
    else
      var fromHost := if numberOfProcessors.Some? then numberOfProcessors.value else 1;
      if fromHost < 1 then 1 else fromHost
  }

  class JobManager {
    /** The cap on heavy jobs running at once. */
    var maximumNumOfProcessors: int
    /** The queue, in the order jobs were added. */
    var jobs: seq<Entry>
    /** Jobs completed since the last `Start` or `Run`, in completion order. */
    var completedJobs: seq<Job>
    var someHadErrors: bool
    var allDone: bool
    /** The next fresh worker id (a `new BackgroundWorker()`). */
    var nextWorker: nat
    /** Whether a scheduler thread has been created by `Start`. */
    var schedulerStarted: bool
    /** `CancellationPending` of the scheduler thread. */
    var cancellationPending: bool
    /** How many times `AllJobsCompleted` has been raised. */
    var completionNotices: nat

    ghost predicate Valid()
      reads this
    {
      ValidQueue(jobs, maximumNumOfProcessors, nextWorker)
    }

    /**
     * `JobCount`: the number of entries still in the queue, zero exactly when
     * it is empty, and never fewer than the heavy jobs running.
     */
    function JobCount(): (n: nat)
      reads this
      ensures n == 0 <==> jobs == []
      ensures HeavyRunning(jobs) <= n
    {
      HeavyRunningBounded(jobs);
      |jobs|
    }

    /**
     * The cap is the argument unless it is -1, in which case it is the host's
     * processor count (the environment variable, given here already parsed), at least 1.
     */
    constructor (maximumNumberOfProcessors: int, numberOfProcessors: Option<int>)
      ensures Valid()
      ensures maximumNumOfProcessors == ProcessorCap(maximumNumberOfProcessors, numberOfProcessors)
      ensures jobs == [] && completedJobs == [] && !someHadErrors && !allDone
      ensures !schedulerStarted && !cancellationPending && completionNotices == 0
    {
      maximumNumOfProcessors := ProcessorCap(maximumNumberOfProcessors, numberOfProcessors);
      jobs := [];
      completedJobs := [];
      someHadErrors := false;
      allDone := false;
      nextWorker := 0;
      schedulerStarted := false;
      cancellationPending := false;
      completionNotices := 0;
    }

    /** Appends one undispatched entry; nothing else changes. */
    method AddJob(job: Job)
      requires Valid()
      modifies this`jobs
      ensures Valid()
      ensures jobs == old(jobs) + [Entry(None, job)]
      ensures JobCount() == old(JobCount()) + 1
    {
      jobs := jobs + [Entry(None, job)];
      HeavyRunningConcat(old(jobs), [Entry(None, job)]);
      assert [Entry(None, job)][..0] == [];
    }

    /** The scan of `GetNextJobToRun`: the index of the next job to dispatch, or -1. */
    method GetNextJobToRun() returns (index: int)
      ensures index == NextJob(jobs, maximumNumOfProcessors)
      ensures -1 <= index < |jobs|
      ensures index >= 0 ==> jobs[index].worker.None?
      ensures maximumNumOfProcessors == 0 ==> index == -1
    {
      var i := 0;
      var countRunning := 0;
      while i < |jobs|
        invariant 0 <= i <= |jobs|
        invariant forall k :: 0 <= k < i ==> jobs[k].worker.Some?
        invariant countRunning == HeavyRunning(jobs[..i])
        invariant maximumNumOfProcessors >= 0 ==> countRunning <= maximumNumOfProcessors
      {
        if countRunning == maximumNumOfProcessors {
          HeavyRunningMonotone(jobs, i, FirstFree(jobs));
          return -1;
        }
        if jobs[i].worker.None? {
          return i;
        }
        assert jobs[..i + 1][..i] == jobs[..i];
        if jobs[i].job.isComputationallyTimeConsuming {
          countRunning := countRunning + 1;
        }
        i := i + 1;
      }
      index := -1;
    }

    /** `JobCount > 0` and no cancellation: the scheduler loop of `DoWork` goes on. */
    predicate SchedulerLoopContinues()
      reads this
    {
      !cancellationPending && |jobs| > 0
    }

    /**
     * One pass of the `DoWork` loop: select the next job and give it a fresh
     * worker. Only the selected entry changes.
     */
    method DispatchStep() returns (index: int)
      requires Valid()
      modifies this`jobs, this`nextWorker
      ensures Valid()
      ensures index == NextJob(old(jobs), maximumNumOfProcessors)
      ensures index == -1 ==> jobs == old(jobs) && nextWorker == old(nextWorker)
      ensures index >= 0 ==> jobs == old(jobs)[index := Entry(Some(old(nextWorker)), old(jobs)[index].job)]
      ensures index >= 0 ==> nextWorker == old(nextWorker) + 1
      ensures |jobs| == |old(jobs)|
    {
      index := GetNextJobToRun();
      if index != -1 {
        DispatchKeepsInvariant(jobs, maximumNumOfProcessors, nextWorker);
        jobs := jobs[index := Entry(Some(nextWorker), jobs[index].job)];
        nextWorker := nextWorker + 1;
      }
    }

    /** `GetJob`: the position of the entry run by `worker`; throws "Cannot find job." when there is none. */
    method GetJob(worker: WorkerId) returns (r: Result<nat>)
      ensures r.Success? ==> r.value < |jobs| && jobs[r.value].worker == Some(worker)
      ensures r.Success? ==> forall k :: 0 <= k < r.value ==> jobs[k].worker != Some(worker)
      ensures r.Failure? <==> forall k :: 0 <= k < |jobs| ==> jobs[k].worker != Some(worker)
      ensures r.Failure? ==> r.error == "Cannot find job."
    {
      var i := 0;
      while i < |jobs|
        invariant 0 <= i <= |jobs|
        invariant forall k :: 0 <= k < i ==> jobs[k].worker != Some(worker)
      {
        if jobs[i].worker == Some(worker) {
          return Success(i);
        }
        i := i + 1;
      }
      r := Failure("Cannot find job.");
    }

    /**
     * `OnJobCompleted`: the entry of `worker` is marked completed, its error
     * recorded, appended to the completed jobs and removed from the queue.
     */
    method OnJobCompleted(worker: WorkerId, outcome: Outcome) returns (r: Result<Job>)
      requires Valid()
      modifies this`jobs, this`completedJobs, this`someHadErrors
      ensures Valid()
      ensures r.Failure? ==> r.error == "Cannot find job." && jobs == old(jobs)
      ensures r.Failure? ==> completedJobs == old(completedJobs) && someHadErrors == old(someHadErrors)
      ensures r.Failure? <==> forall k :: 0 <= k < |old(jobs)| ==> old(jobs)[k].worker != Some(worker)
      ensures r.Success? ==> exists i :: (0 <= i < |old(jobs)| && old(jobs)[i].worker == Some(worker) &&
        jobs == old(jobs)[..i] + old(jobs)[i + 1..] &&
        r.value == old(jobs)[i].job.(isCompleted := true,
          errorMessage := if outcome.Error? then Some(outcome.message) else old(jobs)[i].job.errorMessage))
      ensures r.Success? ==> completedJobs == old(completedJobs) + [r.value] && |jobs| == |old(jobs)| - 1
      ensures r.Success? ==> r.value.isCompleted
      ensures r.Success? ==> someHadErrors == (old(someHadErrors) || outcome.Error?)
    {
      var found := GetJob(worker);
      if found.Failure? {
        return Failure(found.error);
      }
      var i := found.value;
      var job := jobs[i].job.(isCompleted := true);
      if outcome.Error? {
        someHadErrors := true;
        job := job.(errorMessage := Some(outcome.message));
      }
      completedJobs := completedJobs + [job];
      RemoveKeepsInvariant(jobs, maximumNumOfProcessors, nextWorker, i);
      jobs := jobs[..i] + jobs[i + 1..];
      r := Success(job);
    }

    /**
     * `Start`: resets the completed list and the flags and creates the
     * scheduler thread; the queue itself is untouched.
     */
    method Start()
      requires Valid()
      modifies this`completedJobs, this`someHadErrors, this`allDone, this`schedulerStarted, this`cancellationPending
      ensures Valid()
      ensures completedJobs == [] && !someHadErrors && !allDone
      ensures schedulerStarted && !cancellationPending
    {
      completedJobs := [];
      someHadErrors := false;
      allDone := false;
      schedulerStarted := true;
      cancellationPending := false;
    }

    /**
     * `OnWorkerCompleted`, run once the `DoWork` loop has ended: raises
     * `AllJobsCompleted`, flags an error if a completed job carries one, and
     * sets `allDone`.
     */
    method OnWorkerCompleted()
      requires Valid()
      requires schedulerStarted && !SchedulerLoopContinues()
      modifies this`someHadErrors, this`allDone, this`completionNotices
      ensures Valid()
      ensures allDone
      ensures completionNotices == old(completionNotices) + 1
      ensures someHadErrors == (old(someHadErrors) || CarriesError(completedJobs))
    {
      completionNotices := completionNotices + 1;
      var k := 0;
      while k < |completedJobs|
        invariant 0 <= k <= |completedJobs|
        invariant someHadErrors == (old(someHadErrors) || CarriesError(completedJobs[..k]))
        invariant completionNotices == old(completionNotices) + 1
      {
        if completedJobs[k].errorMessage.Some? {
          someHadErrors := true;
        }
        assert completedJobs[..k + 1] == completedJobs[..k] + [completedJobs[k]];
        k := k + 1;
      }
      assert completedJobs[..k] == completedJobs;
      allDone := true;
    }

    /**
     * `Stop`: marks each entry completed in queue order (the entries are
     * marked on a copy that replaces the queue when the loop ends, which no
     * other thread can observe under the lock). The source then reads
     * the entry's worker, which is null for an undispatched entry, so the loop
     * fails at the first undispatched entry (after marking it) and the
     * scheduler is not cancelled. When every entry is dispatched all are marked
     * and the scheduler thread, if there is one, is asked to cancel.
     */
    method Stop() returns (r: Result<()>)
      requires Valid()
      modifies this`jobs, this`cancellationPending
      ensures Valid()
      ensures jobs == MarkCompleted(old(jobs), if FirstFree(old(jobs)) < |old(jobs)| then FirstFree(old(jobs)) + 1 else |old(jobs)|)
      ensures r.Success? <==> FirstFree(old(jobs)) == |old(jobs)|
      ensures r.Success? ==> cancellationPending == (old(cancellationPending) || schedulerStarted)
      ensures r.Failure? ==> cancellationPending == old(cancellationPending)
    {
      var marked := jobs;
      var i := 0;
      while i < |marked|
        invariant 0 <= i <= FirstFree(jobs)
        invariant i <= |jobs| && marked == MarkCompleted(jobs, i)
      {
        assert marked[i] == marked[i..][0] == jobs[i];
        marked := marked[i := Entry(marked[i].worker, marked[i].job.(isCompleted := true))];
        assert marked == MarkCompleted(jobs, i + 1);
        if marked[i].worker.None? {
          assert i == FirstFree(jobs);
          MarkCompletedKeepsInvariant(jobs, i + 1, maximumNumOfProcessors, nextWorker);
          jobs := marked;
          return Failure(NullReference);
        }
        i := i + 1;
      }
      MarkCompletedKeepsInvariant(jobs, i, maximumNumOfProcessors, nextWorker);
      jobs := marked;
      if schedulerStarted {
        cancellationPending := true;
      }
      r := Success(());
    }

    /**
     * One pass of the `Run` loop on the front job: a success completes and
     * removes it, a failure records its error and leaves it in front.
     */
    method RunFront(outcome: Outcome)
      requires Valid() && |jobs| > 0
      modifies this`jobs, this`completedJobs, this`someHadErrors
      ensures Valid()
      ensures outcome.Ok? ==> jobs == old(jobs)[1..] && someHadErrors == old(someHadErrors)
      ensures outcome.Ok? ==> completedJobs == old(completedJobs) + [old(jobs)[0].job.(isCompleted := true)]
      ensures outcome.Error? ==> someHadErrors && completedJobs == old(completedJobs)
      ensures outcome.Error? ==>
        jobs == old(jobs)[0 := Entry(old(jobs)[0].worker, old(jobs)[0].job.(errorMessage := Some(outcome.message)))]
    {
      var job := jobs[0].job;
      match outcome {
        case Ok =>
          completedJobs := completedJobs + [job.(isCompleted := true)];
          RemoveFrontKeepsInvariant(jobs, maximumNumOfProcessors, nextWorker);
          jobs := jobs[1..];
        case Error(message) =>
          var jobs' := jobs[0 := Entry(jobs[0].worker, job.(errorMessage := Some(message)))];
          SameWorkersKeepInvariant(jobs, jobs', maximumNumOfProcessors, nextWorker);
          jobs := jobs';
          someHadErrors := true;
      }
    }

    /**
     * `Run`: the synchronous runner. Each attempt runs the front job with the
     * next outcome. The source retries a failing job for as long as it takes;
     * here the attempts end when the outcomes do, and `allDone` is set (and
     * `AllJobsCompleted` raised) once the queue is empty.
     */
    method Run(outcomes: seq<Outcome>) returns (attempts: nat)
      requires Valid()
      modifies this`jobs, this`completedJobs, this`someHadErrors, this`allDone, this`completionNotices
      ensures Valid()
      ensures attempts <= |outcomes|
      ensures jobs == [] || attempts == |outcomes|
      ensures allDone <==> jobs == []
      ensures |completedJobs| == CountOk(outcomes[..attempts])
      ensures |jobs| + |completedJobs| == |old(jobs)|
      ensures CompletedInOrder(completedJobs, old(jobs))
      ensures jobs != [] ==> jobs[0].job.id == old(jobs)[|completedJobs|].job.id
      ensures jobs != [] ==> jobs[1..] == old(jobs)[|completedJobs| + 1..]
      ensures someHadErrors <==> SomeError(outcomes[..attempts])
      ensures CountOk(outcomes) >= |old(jobs)| ==> jobs == [] && allDone
      ensures completionNotices == old(completionNotices) + (if jobs == [] then 1 else 0)
    {
      completedJobs := [];
      someHadErrors := false;
      allDone := false;
      attempts := 0;
      while |jobs| > 0 && attempts < |outcomes|
        invariant Valid()
        invariant attempts <= |outcomes|
        invariant |completedJobs| == CountOk(outcomes[..attempts])
        invariant |jobs| + |completedJobs| == |old(jobs)|
        invariant CompletedInOrder(completedJobs, old(jobs))
        invariant jobs != [] ==> jobs[0].job.id == old(jobs)[|completedJobs|].job.id
        invariant jobs != [] ==> jobs[1..] == old(jobs)[|completedJobs| + 1..]
        invariant someHadErrors <==> SomeError(outcomes[..attempts])
        invariant !allDone && completionNotices == old(completionNotices)
      {
        OutcomesStep(outcomes, attempts);
        ghost var before, completedBefore := jobs, completedJobs;
        RunFront(outcomes[attempts]);
        if outcomes[attempts].Ok? {
          CompletedInOrderAppend(completedBefore, old(jobs), before[0].job);
          if jobs != [] {
            assert jobs[0] == before[1];
          }
        }
        attempts := attempts + 1;
      }
      if |jobs| == 0 {
        allDone := true;
        completionNotices := completionNotices + 1;
      } else {
        assert outcomes[..attempts] == outcomes;
      }
    }
  }
}
