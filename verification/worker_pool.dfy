/** The worker pool as a sequential state machine: the buffered job channel is a FIFO queue, the
    `WaitGroup` is a pending counter, and one `Step` is a worker taking the oldest job and running
    it to completion, normally or by a recovered panic. */
module WorkerPool {

  datatype Outcome = Returned | Panicked

  /** A job that has been taken from the queue and run. */
  datatype Completion<J> = Completion(job: J, outcome: Outcome)

  /** `WorkerPool` plus the history a proof needs: every job submitted and every completion. */
  datatype Pool<J> = Pool(
    workers: nat,
    capacity: nat,
    queue: seq<J>,
    pending: nat,
    submitted: seq<J>,
    completed: seq<Completion<J>>,
    stopped: bool)

  function Jobs<J>(cs: seq<Completion<J>>): (js: seq<J>)
    ensures |js| == |cs|
    ensures forall i :: 0 <= i < |cs| ==> js[i] == cs[i].job
  {
    seq(|cs|, i requires 0 <= i < |cs| => cs[i].job)
  }

  /** The bookkeeping invariant: at least one worker, a buffer of twice the workers, the counter
      equal to the number of queued jobs, and every submitted job either completed or queued, in
      submission order. */
  ghost predicate Valid<J>(p: Pool<J>) {
    && p.workers >= 1
    && p.capacity == 2 * p.workers
    && |p.queue| <= p.capacity
    && p.pending == |p.queue|
    && p.submitted == Jobs(p.completed) + p.queue
  }

  /** `NewWorkerPool`: a non-positive size is clamped to one worker. */
  function NewWorkerPool<J>(maxWorkers: int): (p: Pool<J>)
    ensures maxWorkers <= 0 ==> p.workers == 1
    ensures maxWorkers > 0 ==> p.workers == maxWorkers
    ensures p.capacity == 2 * p.workers
    ensures p.pending == 0 && p.queue == [] && p.submitted == [] && !p.stopped
    ensures Valid(p)
  {
    var n := if maxWorkers <= 0 then 1 else maxWorkers;
    Pool(n, 2 * n, [], 0, [], [], false)
  }

  /** A send on the job channel completes at once only while its buffer has room; a fuller
      channel is drained by `Step` first. */
  predicate CanSubmit<J>(p: Pool<J>) {
    !p.stopped && |p.queue| < p.capacity
  }

  /** `Submit`: count the job, then enqueue it. */
  function Submit<J>(p: Pool<J>, job: J): (r: Pool<J>)
    requires CanSubmit(p)
    ensures r.pending == p.pending + 1
    ensures r.queue == p.queue + [job] && r.submitted == p.submitted + [job]
    ensures r.completed == p.completed && r.workers == p.workers && r.capacity == p.capacity
    ensures Valid(p) ==> Valid(r)
  {
    p.(pending := p.pending + 1, queue := p.queue + [job], submitted := p.submitted + [job])
  }

  /** `Submit` after `Shutdown`: `wg.Add(1)` runs, then the send on the closed job channel
      panics, so the job is never queued. Under the schedule `Shutdown` models, where every worker
      has left its loop, the counter stays raised for good: no worker takes a job to lower it, and
      `Wait` can never return. */
  function SubmitAfterShutdown<J>(p: Pool<J>, job: J): (r: Pool<J>)
    requires p.stopped
    ensures r.pending == p.pending + 1
    ensures r.queue == p.queue && r.submitted == p.submitted && r.completed == p.completed
    ensures r.stopped && !CanSubmit(r) && !CanStep(r) && !CanWait(r)
    ensures Valid(p) ==> !Valid(r) && r.pending > |r.queue|
  {
    p.(pending := p.pending + 1)
  }

  /** Under the schedule `Shutdown` models, even a pool whose every job has finished cannot be
      waited on once a job is submitted after `Shutdown`. */
  lemma LateSubmitBlocksWait<J>(p: Pool<J>, job: J)
    requires Valid(p) && CanWait(p)
    ensures !CanWait(SubmitAfterShutdown(Shutdown(p), job))
    ensures !CanStep(SubmitAfterShutdown(Shutdown(p), job))
  {
  }

  /** A worker can take a job while the pool runs and the queue is non-empty. */
  predicate CanStep<J>(p: Pool<J>) {
    !p.stopped && |p.queue| > 0
  }

  /** `worker`: take the oldest job, run it, and mark it done whether it returned or panicked. */
  function Step<J>(p: Pool<J>, outcome: Outcome): (r: Pool<J>)
    requires CanStep(p)
    requires p.pending > 0
    ensures r.pending == p.pending - 1
    ensures r.queue == p.queue[1..]
    ensures r.completed == p.completed + [Completion(p.queue[0], outcome)]
    ensures r.submitted == p.submitted && r.workers == p.workers && r.capacity == p.capacity
    ensures Valid(p) ==> Valid(r)
  {
    var r := p.(pending := p.pending - 1, queue := p.queue[1..], completed := p.completed + [Completion(p.queue[0], outcome)]);
    assert Jobs(r.completed) + r.queue == Jobs(p.completed) + [p.queue[0]] + p.queue[1..];
    r
  }

  /** `Wait` returns only once the counter is zero. */
  predicate CanWait<J>(p: Pool<J>) {
    p.pending == 0
  }

  /** When `Wait` may return, every submitted job has run exactly once, in submission order,
      panicking ones included. */
  lemma WaitMeansAllRan<J>(p: Pool<J>)
    requires Valid(p) && CanWait(p)
    ensures Jobs(p.completed) == p.submitted
    ensures |p.completed| == |p.submitted|
  {
  }

  /** `Shutdown` closes both channels. A worker's `select` may then pick either ready case; the
      model takes the schedule in which every worker picks the shutdown case, so no further job is
      taken and none can be submitted. */
  function Shutdown<J>(p: Pool<J>): (r: Pool<J>)
    ensures r.stopped && !CanSubmit(r) && !CanStep(r)
    ensures r.queue == p.queue && r.completed == p.completed
  {
    p.(stopped := true)
  }

  /** Runs queued jobs until the queue is empty; `outcome` says how each job ends. */
  method Drain<J>(p: Pool<J>, outcome: J -> Outcome) returns (r: Pool<J>)
    requires Valid(p) && !p.stopped
    ensures Valid(r) && CanWait(r) && !r.stopped
    ensures r.submitted == p.submitted && r.workers == p.workers
    ensures |r.completed| == |p.completed| + |p.queue|
    ensures r.completed[..|p.completed|] == p.completed
    ensures forall i :: |p.completed| <= i < |r.completed| ==>
      r.completed[i] == Completion(p.queue[i - |p.completed|], outcome(p.queue[i - |p.completed|]))
  {
    r := p;
    while |r.queue| > 0
      invariant Valid(r) && !r.stopped
      invariant r.submitted == p.submitted && r.workers == p.workers
      invariant |r.completed| + |r.queue| == |p.completed| + |p.queue|
      invariant r.completed[..|p.completed|] == p.completed
      invariant r.queue == p.queue[|r.completed| - |p.completed|..]
      invariant forall i :: |p.completed| <= i < |r.completed| ==>
        r.completed[i] == Completion(p.queue[i - |p.completed|], outcome(p.queue[i - |p.completed|]))
      decreases |r.queue|
    {
      r := Step(r, outcome(r.queue[0]));
    }
  }

  /** Submits `jobs` to a fresh pool of `maxWorkers`, letting a worker take a job whenever the
      buffer is full, then waits. Every job runs exactly once, in submission order, with the
      outcome it chose; the counter returns to zero. */
  method SubmitAllAndWait<J>(maxWorkers: int, jobs: seq<J>, outcome: J -> Outcome) returns (p: Pool<J>)
    ensures Valid(p) && CanWait(p)
    ensures p.submitted == jobs
    ensures |p.completed| == |jobs|
    ensures forall i :: 0 <= i < |jobs| ==> p.completed[i] == Completion(jobs[i], outcome(jobs[i]))
  {
    p := NewWorkerPool(maxWorkers);
    var k := 0;
    while k < |jobs|
      invariant 0 <= k <= |jobs|
      invariant Valid(p) && !p.stopped
      invariant p.submitted == jobs[..k]
      invariant forall i :: 0 <= i < |p.completed| ==> p.completed[i] == Completion(jobs[i], outcome(jobs[i]))
    {
      if !CanSubmit(p) {
        p := Step(p, outcome(p.queue[0]));
      }
      p := Submit(p, jobs[k]);
      k := k + 1;
    }
    assert jobs[..k] == jobs;
    p := Drain(p, outcome);
    assert Jobs(p.completed) == jobs;
  }

  /** How many completions ended with `o`. */
  function Count<J>(cs: seq<Completion<J>>, o: Outcome): nat
    decreases |cs|
  {
    if |cs| == 0 then 0 else Count(cs[..|cs| - 1], o) + (if cs[|cs| - 1].outcome == o then 1 else 0)
  }

  lemma {:induction false} CountSplits<J>(cs: seq<Completion<J>>)
    ensures Count(cs, Returned) + Count(cs, Panicked) == |cs|
    decreases |cs|
  {
    if |cs| > 0 {
      CountSplits(cs[..|cs| - 1]);
    }
  }

  /** The counting test: once `Wait` may return, the jobs that returned and the jobs that panicked
      together account for every submitted job. */
  lemma PanickingJobsStillComplete<J>(p: Pool<J>)
    requires Valid(p) && CanWait(p)
    ensures Count(p.completed, Returned) + Count(p.completed, Panicked) == |p.submitted|
  {
    CountSplits(p.completed);
  }
}
