/**
  The parallel test driver: a main thread that dispatches jobs, worker threads that run them,
  an unbounded FIFO queue in each direction, one poison job per worker, and an interrupt flag
  that a signal handler may set at any moment.

  The threads are a step relation; a run is any interleaving of their steps.  What a job's
  process returns is arbitrary; that it returns is assumed.
 */
module TestDriver {

  /** is_break marks a poison job on its way in and an interrupted job on its way out. */
  datatype Job = Job(id: int, isBreak: bool, isSkip: bool, returncode: int)

  datatype Worker =
    | Waiting             // in input_queue.get
    | Took(job: Job)      // has a job, not yet looked at thread_exit
    | Running(job: Job)   // past the check, the job's process is running
    | Finished(job: Job)  // about to put the job on the output queue
    | Exited

  /**
    Which jobs are to be skipped, in dispatch order, what the process of each job returns if it is
    run, and the number of worker threads.
   */
  datatype Config = Config(skips: seq<bool>, codes: int -> int, processors: nat)

  datatype State = State(
    dispatched: nat, poisons: nat, inputQueue: seq<Job>, workers: seq<Worker>,
    outputQueue: seq<Job>, collected: seq<Job>, joined: nat, threadExit: bool)

  function Fresh(c: Config, id: nat): Job
    requires id < |c.skips|
  {
    Job(id, false, c.skips[id], 0)
  }

  const PoisonJob := Job(-1, true, false, 0)

  // ---------------------------------------------------------------- the steps

  ghost predicate Init(c: Config, s: State) {
    s == State(0, 0, [], seq(c.processors, _ => Waiting), [], [], 0, s.threadExit)
  }

  ghost predicate Dispatch(c: Config, s: State, t: State) {
    && s.dispatched < |c.skips|
    && t == s.(dispatched := s.dispatched + 1, inputQueue := s.inputQueue + [Fresh(c, s.dispatched)])
  }

  ghost predicate Poison(c: Config, s: State, t: State) {
    && s.dispatched == |c.skips| && s.poisons < c.processors
    && t == s.(poisons := s.poisons + 1, inputQueue := s.inputQueue + [PoisonJob])
  }

  ghost predicate Get(s: State, t: State, w: nat) {
    && w < |s.workers| && s.workers[w].Waiting? && s.inputQueue != []
    && var job := s.inputQueue[0];
       t == s.(inputQueue := s.inputQueue[1..], workers := s.workers[w := if job.isBreak then Exited else Took(job)])
  }

  function AfterCheck(job: Job, threadExit: bool): Worker {
    if threadExit then Finished(job.(isBreak := true))
    else if job.isSkip then Finished(job)
    else Running(job)
  }

  ghost predicate Check(s: State, t: State, w: nat) {
    && w < |s.workers| && s.workers[w].Took?
    && t == s.(workers := s.workers[w := AfterCheck(s.workers[w].job, s.threadExit)])
  }

  ghost predicate RunJob(c: Config, s: State, t: State, w: nat) {
    && w < |s.workers| && s.workers[w].Running?
    && var job := s.workers[w].job;
       t == s.(workers := s.workers[w := Finished(job.(returncode := c.codes(job.id)))])
  }

  ghost predicate Put(s: State, t: State, w: nat) {
    && w < |s.workers| && s.workers[w].Finished?
    && t == s.(workers := s.workers[w := Waiting], outputQueue := s.outputQueue + [s.workers[w].job])
  }

  ghost predicate Collect(c: Config, s: State, t: State) {
    && s.poisons == c.processors && s.dispatched == |c.skips| && |s.collected| < |c.skips| && s.outputQueue != []
    && t == s.(outputQueue := s.outputQueue[1..], collected := s.collected + [s.outputQueue[0]])
  }

  ghost predicate Join(c: Config, s: State, t: State) {
    && s.poisons == c.processors && |s.collected| == |c.skips| && s.joined < |s.workers|
    && s.workers[s.joined].Exited? && t == s.(joined := s.joined + 1)
  }

  ghost predicate WorkerStep(c: Config, s: State, t: State, w: nat) {
    Get(s, t, w) || Check(s, t, w) || RunJob(c, s, t, w) || Put(s, t, w)
  }

  /** A step of one of the program's own threads. */
  ghost predicate ThreadStep(c: Config, s: State, t: State) {
    Dispatch(c, s, t) || Poison(c, s, t) || Collect(c, s, t) || Join(c, s, t) || exists w :: WorkerStep(c, s, t, w)
  }

  ghost predicate Interrupt(s: State, t: State) {
    t == s.(threadExit := true)
  }

  ghost predicate Next(c: Config, s: State, t: State) {
    ThreadStep(c, s, t) || Interrupt(s, t)
  }

  ghost predicate IsRun(c: Config, run: seq<State>) {
    && run != [] && Init(c, run[0])
    && forall i {:trigger StepAt(c, run, i)} :: 0 <= i < |run| - 1 ==> StepAt(c, run, i)
  }

  ghost predicate StepAt(c: Config, run: seq<State>, i: int)
    requires 0 <= i < |run| - 1
  {
    Next(c, run[i], run[i + 1])
  }

  /** The main thread has collected every result and joined every worker. */
  ghost predicate AllDone(c: Config, s: State) {
    && s.dispatched == |c.skips| && s.poisons == c.processors
    && |s.collected| == |c.skips| && s.joined == c.processors
  }

  // ---------------------------------------------------------------- who holds which job

  /** How many jobs of the queue have the identity id. */
  ghost function Count(q: seq<Job>, id: int): nat {
    if q == [] then 0 else Count(q[..|q| - 1], id) + (if q[|q| - 1].id == id then 1 else 0)
  }

  ghost function Holds(w: Worker, id: int): nat {
    if (w.Took? || w.Running? || w.Finished?) && w.job.id == id then 1 else 0
  }

  ghost function InHands(ws: seq<Worker>, id: int): nat {
    if ws == [] then 0 else InHands(ws[..|ws| - 1], id) + Holds(ws[|ws| - 1], id)
  }

  ghost function NumExited(ws: seq<Worker>): nat {
    if ws == [] then 0 else NumExited(ws[..|ws| - 1]) + (if ws[|ws| - 1].Exited? then 1 else 0)
  }

  /** The jobs from lo to hi, not yet looked at, and then k poison jobs. */
  ghost function Queue(c: Config, lo: nat, hi: nat, k: nat): seq<Job>
    requires lo <= hi <= |c.skips|
    decreases hi - lo, k
  {
    if lo < hi then [Fresh(c, lo)] + Queue(c, lo + 1, hi, k)
    else if k > 0 then [PoisonJob] + Queue(c, lo, hi, k - 1)
    else []
  }

  // ---------------------------------------------------------------- the invariant

  /**
    The counters follow the main thread's program, and the input queue holds the dispatched
    jobs that no worker has taken, in order, before the poison jobs that none has.
   */
  ghost predicate InStep(c: Config, s: State, taken: nat) {
    && |s.workers| == c.processors && s.joined <= c.processors
    && taken <= s.dispatched <= |c.skips| && NumExited(s.workers) <= s.poisons <= c.processors
    && s.inputQueue == Queue(c, taken, s.dispatched, s.poisons - NumExited(s.workers))
    && (s.poisons > 0 ==> s.dispatched == |c.skips|)
    && (NumExited(s.workers) > 0 ==> taken == |c.skips|)
    && |s.collected| <= |c.skips|
    && (s.collected != [] ==> s.poisons == c.processors && s.dispatched == |c.skips|)
    && (s.joined > 0 ==> |s.collected| == |c.skips|)
  }

  /** Each job taken from the input queue is in exactly one place, and no other job is anywhere. */
  ghost predicate EachOnce(s: State, taken: nat) {
    forall id {:trigger InHands(s.workers, id)} ::
      InHands(s.workers, id) + Count(s.outputQueue, id) + Count(s.collected, id) == if 0 <= id < taken then 1 else 0
  }

  ghost predicate FromDispatch(c: Config, j: Job) {
    0 <= j.id < |c.skips| && j.isSkip == c.skips[j.id]
  }

  ghost predicate WorkerOk(c: Config, w: Worker, threadExit: bool) {
    match w
    case Took(j) => FromDispatch(c, j) && !j.isBreak
    case Running(j) => FromDispatch(c, j) && !j.isBreak && !j.isSkip
    case Finished(j) => ResultOk(c, j, threadExit)
    case _ => true
  }

  /**
    A result is a dispatched job, comes back broken only after an interrupt, and otherwise, unless
    the job was to be skipped, with what its process returned.
   */
  ghost predicate ResultOk(c: Config, j: Job, threadExit: bool) {
    FromDispatch(c, j) && (j.isBreak ==> threadExit) && (!j.isBreak && !j.isSkip ==> j.returncode == c.codes(j.id))
  }

  ghost predicate JobsOk(c: Config, s: State) {
    && (forall w :: 0 <= w < |s.workers| ==> WorkerOk(c, s.workers[w], s.threadExit))
    && (forall i :: 0 <= i < |s.outputQueue| ==> ResultOk(c, s.outputQueue[i], s.threadExit))
    && (forall i :: 0 <= i < |s.collected| ==> ResultOk(c, s.collected[i], s.threadExit))
  }

  ghost predicate InvAt(c: Config, s: State, taken: nat) {
    InStep(c, s, taken) && EachOnce(s, taken) && JobsOk(c, s)
  }

  ghost predicate Inv(c: Config, s: State) {
    exists taken: nat :: InvAt(c, s, taken)
  }

  // ---------------------------------------------------------------- counting

  lemma {:induction false} CountAppend(q: seq<Job>, j: Job, id: int)
    ensures Count(q + [j], id) == Count(q, id) + (if j.id == id then 1 else 0)
  {
    assert (q + [j])[..|q|] == q;
  }

  lemma {:induction false} CountHead(q: seq<Job>, id: int)
    requires q != []
    ensures Count(q, id) == (if q[0].id == id then 1 else 0) + Count(q[1..], id)
  {
    var n := |q| - 1;
    if n > 0 {
      CountHead(q[..n], id);
      assert q[..n][1..] == q[1..][..n - 1];
    }
  }

  lemma {:induction false} HandsUpdate(ws: seq<Worker>, w: nat, x: Worker, id: int)
    requires w < |ws|
    ensures InHands(ws[w := x], id) == InHands(ws, id) - Holds(ws[w], id) + Holds(x, id)
    ensures NumExited(ws[w := x]) ==
      NumExited(ws) - (if ws[w].Exited? then 1 else 0) + (if x.Exited? then 1 else 0)
  {
    var n := |ws| - 1;
    var vs := ws[w := x];
    if w < n {
      HandsUpdate(ws[..n], w, x, id);
      assert vs[..n] == ws[..n][w := x];
    } else {
      assert vs[..n] == ws[..n];
    }
  }

  lemma {:induction false} QueueDispatch(c: Config, lo: nat, hi: nat)
    requires lo <= hi < |c.skips|
    ensures Queue(c, lo, hi, 0) + [Fresh(c, hi)] == Queue(c, lo, hi + 1, 0)
    decreases hi - lo
  {
    if lo < hi {
      QueueDispatch(c, lo + 1, hi);
    } else {
      assert Queue(c, hi + 1, hi + 1, 0) == [];
    }
  }

  lemma {:induction false} QueuePoison(c: Config, lo: nat, hi: nat, k: nat)
    requires lo <= hi <= |c.skips|
    ensures Queue(c, lo, hi, k) + [PoisonJob] == Queue(c, lo, hi, k + 1)
    decreases hi - lo, k
  {
    if lo < hi {
      QueuePoison(c, lo + 1, hi, k);
    } else if k > 0 {
      QueuePoison(c, lo, hi, k - 1);
    }
  }

  lemma {:induction false} StartWorkers(ws: seq<Worker>, id: int)
    requires forall w :: 0 <= w < |ws| ==> ws[w].Waiting?
    ensures InHands(ws, id) == 0 && NumExited(ws) == 0
  {
    if ws != [] { StartWorkers(ws[..|ws| - 1], id); }
  }

  lemma {:induction false} NumExitedBound(ws: seq<Worker>)
    ensures NumExited(ws) <= |ws|
    ensures NumExited(ws) == |ws| <==> forall w :: 0 <= w < |ws| ==> ws[w].Exited?
  {
    if ws != [] {
      var n := |ws| - 1;
      NumExitedBound(ws[..n]);
      assert (forall w :: 0 <= w < |ws| ==> ws[w].Exited?) <==> ws[n].Exited? && forall w :: 0 <= w < n ==> ws[..n][w].Exited?;
    }
  }

  // ---------------------------------------------------------------- every step keeps the invariant

  lemma {:induction false} InitInv(c: Config, s: State)
    requires Init(c, s)
    ensures InvAt(c, s, 0)
  {
    StartWorkers(s.workers, 0);
    forall id ensures InHands(s.workers, id) == 0 { StartWorkers(s.workers, id); }
  }

  lemma {:induction false} DispatchInv(c: Config, s: State, t: State, taken: nat)
    requires InvAt(c, s, taken) && Dispatch(c, s, t)
    ensures InvAt(c, t, taken)
  {
    QueueDispatch(c, taken, s.dispatched);
  }

  lemma {:induction false} PoisonInv(c: Config, s: State, t: State, taken: nat)
    requires InvAt(c, s, taken) && Poison(c, s, t)
    ensures InvAt(c, t, taken)
  {
    QueuePoison(c, taken, s.dispatched, s.poisons - NumExited(s.workers));
  }

  /** What a worker finds at the head of the queue: the next job, or poison once all are taken. */
  lemma {:induction false} HeadOfQueue(c: Config, s: State, taken: nat)
    requires InStep(c, s, taken) && s.inputQueue != []
    ensures var k := s.poisons - NumExited(s.workers);
      if taken < s.dispatched then
        s.inputQueue[0] == Fresh(c, taken) && s.inputQueue[1..] == Queue(c, taken + 1, s.dispatched, k)
      else
        k > 0 && s.inputQueue[0] == PoisonJob && s.inputQueue[1..] == Queue(c, taken, s.dispatched, k - 1)
  {
  }

  lemma {:induction false} JobsOkUpdate(c: Config, s: State, w: nat, x: Worker, q: seq<Job>)
    requires JobsOk(c, s) && w < |s.workers| && WorkerOk(c, x, s.threadExit)
    ensures JobsOk(c, s.(workers := s.workers[w := x], inputQueue := q))
  {
  }

  lemma {:induction false} GetInStep(c: Config, s: State, t: State, taken: nat, w: nat)
    requires InStep(c, s, taken) && Get(s, t, w)
    ensures InStep(c, t, if s.inputQueue[0].isBreak then taken else taken + 1)
    ensures s.inputQueue[0].isBreak || s.inputQueue[0] == Fresh(c, taken)
  {
    HeadOfQueue(c, s, taken);
    HandsUpdate(s.workers, w, t.workers[w], 0);
  }

  lemma {:induction false} GetInv(c: Config, s: State, t: State, taken: nat, w: nat)
    requires InvAt(c, s, taken) && Get(s, t, w)
    ensures InvAt(c, t, if s.inputQueue[0].isBreak then taken else taken + 1)
  {
    var x := t.workers[w];
    GetInStep(c, s, t, taken, w);
    JobsOkUpdate(c, s, w, x, t.inputQueue);
    forall id
      ensures InHands(t.workers, id) == InHands(s.workers, id) + (if !x.Exited? && id == taken then 1 else 0)
    {
      HandsUpdate(s.workers, w, x, id);
    }
  }

  /** The job stays in the worker's hands. */
  lemma {:induction false} HandInv(c: Config, s: State, t: State, taken: nat, w: nat)
    requires InvAt(c, s, taken)
    requires Check(s, t, w) || RunJob(c, s, t, w)
    ensures InvAt(c, t, taken)
  {
    var x := t.workers[w];
    JobsOkUpdate(c, s, w, x, s.inputQueue);
    HandKept(s, t, taken, w, x);
  }

  lemma {:induction false} HandKept(s: State, t: State, taken: nat, w: nat, x: Worker)
    requires EachOnce(s, taken) && w < |s.workers| && t == s.(workers := s.workers[w := x])
    requires !s.workers[w].Exited? && !x.Exited? && forall id :: Holds(x, id) == Holds(s.workers[w], id)
    ensures EachOnce(t, taken) && NumExited(t.workers) == NumExited(s.workers)
  {
    HandsUpdate(s.workers, w, x, 0);
    forall id ensures InHands(t.workers, id) == InHands(s.workers, id) {
      HandsUpdate(s.workers, w, x, id);
    }
  }

  lemma {:induction false} PutInv(c: Config, s: State, t: State, taken: nat, w: nat)
    requires InvAt(c, s, taken) && Put(s, t, w)
    ensures InvAt(c, t, taken)
  {
    JobsOkUpdate(c, s, w, Waiting, s.inputQueue);
    HandsUpdate(s.workers, w, Waiting, 0);
    forall id
      ensures InHands(t.workers, id) + Count(t.outputQueue, id) == InHands(s.workers, id) + Count(s.outputQueue, id)
    {
      HandsUpdate(s.workers, w, Waiting, id);
      CountAppend(s.outputQueue, s.workers[w].job, id);
    }
  }

  lemma {:induction false} CollectInv(c: Config, s: State, t: State, taken: nat)
    requires InvAt(c, s, taken) && Collect(c, s, t)
    ensures InvAt(c, t, taken)
  {
    forall id
      ensures Count(t.outputQueue, id) + Count(t.collected, id) == Count(s.outputQueue, id) + Count(s.collected, id)
    {
      CountHead(s.outputQueue, id);
      CountAppend(s.collected, s.outputQueue[0], id);
    }
  }

  lemma {:induction false} FlagInv(c: Config, s: State, t: State, taken: nat)
    requires InvAt(c, s, taken) && (Join(c, s, t) || Interrupt(s, t))
    ensures InvAt(c, t, taken)
  {
  }

  lemma {:induction false} WorkerInv(c: Config, s: State, t: State, taken: nat, w: nat)
    requires InvAt(c, s, taken) && WorkerStep(c, s, t, w)
    ensures Inv(c, t)
  {
    if Get(s, t, w) {
      GetInv(c, s, t, taken, w);
    } else if Put(s, t, w) {
      PutInv(c, s, t, taken, w);
    } else {
      HandInv(c, s, t, taken, w);
    }
  }

  lemma {:induction false} NextInv(c: Config, s: State, t: State)
    requires Inv(c, s) && Next(c, s, t)
    ensures Inv(c, t)
  {
    var taken: nat :| InvAt(c, s, taken);
    if Dispatch(c, s, t) {
      DispatchInv(c, s, t, taken);
    } else if Poison(c, s, t) {
      PoisonInv(c, s, t, taken);
    } else if Collect(c, s, t) {
      CollectInv(c, s, t, taken);
    } else if Join(c, s, t) || Interrupt(s, t) {
      FlagInv(c, s, t, taken);
    } else {
      var w :| WorkerStep(c, s, t, w);
      WorkerInv(c, s, t, taken, w);
    }
  }
}
