/**
  What holds of every run of the test driver: no deadlock, termination, every job accounted
  for exactly once, and how an interrupt cuts the work short.
 */
module TestDriverLaws {
  import opened Sequences
  import opened TestDriver

  lemma {:induction false} RunInv(c: Config, run: seq<State>, i: nat)
    requires IsRun(c, run) && i < |run|
    ensures Inv(c, run[i])
  {
    if i == 0 {
      InitInv(c, run[0]);
    } else {
      RunInv(c, run, i - 1);
      assert StepAt(c, run, i - 1);
      NextInv(c, run[i - 1], run[i]);
    }
  }

  // ---------------------------------------------------------------- no deadlock

  ghost predicate CanStep(c: Config, s: State) {
    exists t :: ThreadStep(c, s, t)
  }

  /** How many jobs of the queue have an identity below k. */
  ghost function Below(q: seq<Job>, k: nat): nat {
    if k == 0 then 0 else Below(q, k - 1) + Count(q, k - 1)
  }

  lemma {:induction false} BelowAppend(q: seq<Job>, j: Job, k: nat)
    ensures Below(q + [j], k) == Below(q, k) + (if 0 <= j.id < k then 1 else 0)
  {
    if k > 0 {
      BelowAppend(q, j, k - 1);
      CountAppend(q, j, k - 1);
    }
  }

  lemma {:induction false} BelowAll(q: seq<Job>, k: nat)
    requires forall i :: 0 <= i < |q| ==> 0 <= q[i].id < k
    ensures Below(q, k) == |q|
  {
    if q == [] {
      BelowEmpty(k);
    } else {
      var n := |q| - 1;
      BelowAll(q[..n], k);
      BelowAppend(q[..n], q[n], k);
      assert q[..n] + [q[n]] == q;
    }
  }

  lemma {:induction false} BelowEmpty(k: nat)
    ensures Below([], k) == 0
  {
    if k > 0 { BelowEmpty(k - 1); }
  }

  lemma {:induction false} BelowSum(a: seq<Job>, b: seq<Job>, k: nat)
    requires forall id :: 0 <= id < k ==> Count(a, id) + Count(b, id) == 1
    ensures Below(a, k) + Below(b, k) == k
  {
    if k > 0 { BelowSum(a, b, k - 1); }
  }

  lemma {:induction false} BelowPair(a: seq<Job>, b: seq<Job>, k: nat)
    requires forall id :: 0 <= id < k ==> Count(a, id) + Count(b, id) <= 1
    ensures Below(a, k) + Below(b, k) <= k
  {
    if k > 0 { BelowPair(a, b, k - 1); }
  }

  lemma {:induction false} BelowFull(q: seq<Job>, k: nat)
    requires forall id :: 0 <= id < k ==> Count(q, id) <= 1
    ensures Below(q, k) <= k
    ensures Below(q, k) == k ==> forall id :: 0 <= id < k ==> Count(q, id) == 1
  {
    if k > 0 { BelowFull(q, k - 1); }
  }

  lemma {:induction false} NoHands(ws: seq<Worker>, id: int)
    requires forall w :: 0 <= w < |ws| ==> ws[w].Waiting? || ws[w].Exited?
    ensures InHands(ws, id) == 0
  {
    if ws != [] { NoHands(ws[..|ws| - 1], id); }
  }

  /** A worker with a job in its hands can always go on. */
  lemma {:induction false} BusyCanStep(c: Config, s: State, w: nat)
    requires w < |s.workers| && !s.workers[w].Waiting? && !s.workers[w].Exited?
    ensures CanStep(c, s)
  {
    var x := s.workers[w];
    var t: State;
    match x {
      case Took(j) =>
        t := s.(workers := s.workers[w := AfterCheck(j, s.threadExit)]);
        assert Check(s, t, w);
      case Running(j) =>
        t := s.(workers := s.workers[w := Finished(j.(returncode := c.codes(j.id)))]);
        assert RunJob(c, s, t, w);
      case Finished(j) =>
        t := s.(workers := s.workers[w := Waiting], outputQueue := s.outputQueue + [j]);
        assert Put(s, t, w);
    }
    assert WorkerStep(c, s, t, w);
    assert ThreadStep(c, s, t);
  }

  lemma {:induction false} GetCanStep(c: Config, s: State, w: nat)
    requires w < |s.workers| && s.workers[w].Waiting? && s.inputQueue != []
    ensures CanStep(c, s)
  {
    var job := s.inputQueue[0];
    var t := s.(inputQueue := s.inputQueue[1..], workers := s.workers[w := if job.isBreak then Exited else Took(job)]);
    assert Get(s, t, w);
    assert WorkerStep(c, s, t, w);
    assert ThreadStep(c, s, t);
  }

  /** With no worker busy and everything sent, somebody has something to fetch, collect or join. */
  lemma {:induction false} IdleCanStep(c: Config, s: State, taken: nat)
    requires InvAt(c, s, taken) && !AllDone(c, s) && (c.processors > 0 || c.skips == [])
    requires s.dispatched == |c.skips| && s.poisons == c.processors
    requires forall w :: 0 <= w < |s.workers| ==> s.workers[w].Waiting? || s.workers[w].Exited?
    ensures CanStep(c, s)
  {
    NumExitedBound(s.workers);
    if w :| 0 <= w < |s.workers| && s.workers[w].Waiting? {
      assert NumExited(s.workers) < |s.workers|;
      assert s.inputQueue != [];
      GetCanStep(c, s, w);
    } else if |s.collected| < |c.skips| {
      assert NumExited(s.workers) == |s.workers| > 0 && taken == |c.skips|;
      forall id | 0 <= id < taken ensures Count(s.outputQueue, id) + Count(s.collected, id) == 1 {
        NoHands(s.workers, id);
      }
      BelowSum(s.outputQueue, s.collected, taken);
      BelowAll(s.outputQueue, taken);
      BelowAll(s.collected, taken);
      var t := s.(outputQueue := s.outputQueue[1..], collected := s.collected + [s.outputQueue[0]]);
      assert Collect(c, s, t);
      assert ThreadStep(c, s, t);
    } else {
      var t := s.(joined := s.joined + 1);
      assert Join(c, s, t);
      assert ThreadStep(c, s, t);
    }
  }

  /** Whatever has happened so far, some thread can move until the main thread is through. */
  lemma {:induction false} Progress(c: Config, s: State)
    requires Inv(c, s) && !AllDone(c, s) && (c.processors > 0 || c.skips == [])
    ensures CanStep(c, s)
  {
    var taken: nat :| InvAt(c, s, taken);
    if s.dispatched < |c.skips| {
      var t := s.(dispatched := s.dispatched + 1, inputQueue := s.inputQueue + [Fresh(c, s.dispatched)]);
      assert Dispatch(c, s, t);
      assert ThreadStep(c, s, t);
    } else if s.poisons < c.processors {
      var t := s.(poisons := s.poisons + 1, inputQueue := s.inputQueue + [PoisonJob]);
      assert Poison(c, s, t);
      assert ThreadStep(c, s, t);
    } else if w :| 0 <= w < |s.workers| && !s.workers[w].Waiting? && !s.workers[w].Exited? {
      BusyCanStep(c, s, w);
    } else {
      IdleCanStep(c, s, taken);
    }
  }

  ghost predicate Reachable(c: Config, s: State) {
    exists run :: IsRun(c, run) && run[|run| - 1] == s
  }

  /** Without a single worker thread the collector waits for ever. */
  lemma {:induction false} NoWorkersStuck(c: Config) returns (s: State)
    requires c.processors == 0 && c.skips != []
    ensures Reachable(c, s) && !AllDone(c, s) && !CanStep(c, s)
  {
    var run := DispatchRun(c, |c.skips|);
    s := run[|run| - 1];
    if t :| ThreadStep(c, s, t) {
      if w: nat :| WorkerStep(c, s, t, w) {
      }
    }
  }

  lemma {:induction false} DispatchRun(c: Config, k: nat) returns (run: seq<State>)
    requires c.processors == 0 && k <= |c.skips|
    ensures IsRun(c, run)
    ensures var s := run[|run| - 1];
      s.dispatched == k && s.workers == [] && s.outputQueue == [] && s.collected == []
  {
    if k == 0 {
      run := [State(0, 0, [], [], [], [], 0, false)];
      assert seq(c.processors, _ => Waiting) == [];
    } else {
      var prefix := DispatchRun(c, k - 1);
      var s := prefix[|prefix| - 1];
      var t := s.(dispatched := k, inputQueue := s.inputQueue + [Fresh(c, k - 1)]);
      assert Dispatch(c, s, t);
      run := prefix + [t];
      forall i | 0 <= i < |run| - 1 ensures StepAt(c, run, i) {
        if i < |prefix| - 1 {
          assert StepAt(c, prefix, i);
        }
      }
    }
  }

  /** No reachable state is deadlocked exactly when there is a worker, or nothing to do. */
  lemma {:induction false} DeadlockFreeIff(c: Config)
    ensures (forall s :: Reachable(c, s) && !AllDone(c, s) ==> CanStep(c, s)) <==> c.processors > 0 || c.skips == []
  {
    if c.processors > 0 || c.skips == [] {
      forall s | Reachable(c, s) && !AllDone(c, s) ensures CanStep(c, s) {
        var run :| IsRun(c, run) && run[|run| - 1] == s;
        RunInv(c, run, |run| - 1);
        Progress(c, s);
      }
    } else {
      var s := NoWorkersStuck(c);
    }
  }

  // ---------------------------------------------------------------- termination

  ghost function QueueWork(q: seq<Job>): nat {
    if q == [] then 0 else (if q[0].isBreak then 1 else 6) + QueueWork(q[1..])
  }

  ghost function WorkerWork(w: Worker): nat {
    match w
    case Took(_) => 4
    case Running(_) => 3
    case Finished(_) => 2
    case _ => 0
  }

  ghost function HandWork(ws: seq<Worker>): nat {
    if ws == [] then 0 else HandWork(ws[..|ws| - 1]) + WorkerWork(ws[|ws| - 1])
  }

  /** The steps still to come, at most. */
  ghost function Work(c: Config, s: State): int {
    7 * (|c.skips| - s.dispatched) + 2 * (c.processors - s.poisons) + QueueWork(s.inputQueue) + HandWork(s.workers)
    + |s.outputQueue| + (c.processors - s.joined) + (if s.threadExit then 0 else 1)
  }

  lemma {:induction false} QueueWorkAppend(q: seq<Job>, j: Job)
    ensures QueueWork(q + [j]) == QueueWork(q) + (if j.isBreak then 1 else 6)
  {
    if q == [] {
      assert ([] + [j])[1..] == [];
    } else {
      QueueWorkAppend(q[1..], j);
      assert (q + [j])[1..] == q[1..] + [j];
    }
  }

  lemma {:induction false} HandWorkUpdate(ws: seq<Worker>, w: nat, x: Worker)
    requires w < |ws|
    ensures HandWork(ws[w := x]) == HandWork(ws) - WorkerWork(ws[w]) + WorkerWork(x)
  {
    var n := |ws| - 1;
    var vs := ws[w := x];
    if w < n {
      HandWorkUpdate(ws[..n], w, x);
      assert vs[..n] == ws[..n][w := x];
    } else {
      assert vs[..n] == ws[..n];
    }
  }

  /** Every step of a thread, and the first interrupt, leaves less work. */
  lemma {:induction false} StepWorks(c: Config, s: State, t: State)
    requires Inv(c, s) && Next(c, s, t)
    ensures t == s || 0 <= Work(c, t) < Work(c, s)
  {
    NextInv(c, s, t);
    if Dispatch(c, s, t) {
      QueueWorkAppend(s.inputQueue, Fresh(c, s.dispatched));
    } else if Poison(c, s, t) {
      QueueWorkAppend(s.inputQueue, PoisonJob);
    } else if Collect(c, s, t) || Join(c, s, t) || Interrupt(s, t) {
    } else {
      var w :| WorkerStep(c, s, t, w);
      WorkerWorks(c, s, t, w);
    }
  }

  lemma {:induction false} WorkerWorks(c: Config, s: State, t: State, w: nat)
    requires WorkerStep(c, s, t, w)
    ensures Work(c, t) < Work(c, s)
  {
    if Get(s, t, w) {
      HandWorkUpdate(s.workers, w, t.workers[w]);
    } else if Put(s, t, w) {
      HandWorkUpdate(s.workers, w, Waiting);
    } else {
      HandWorkUpdate(s.workers, w, t.workers[w]);
    }
  }

  lemma {:induction false} StartWork(ws: seq<Worker>)
    requires forall w :: 0 <= w < |ws| ==> ws[w].Waiting?
    ensures HandWork(ws) == 0
  {
    if ws != [] { StartWork(ws[..|ws| - 1]); }
  }

  /** No step leaves the state as it is, as an interrupt after the first would. */
  ghost predicate EveryStepMoves(run: seq<State>) {
    forall i {:trigger Moves(run, i)} :: 0 <= i < |run| - 1 ==> Moves(run, i)
  }

  ghost predicate Moves(run: seq<State>, i: int)
    requires 0 <= i < |run| - 1
  {
    run[i] != run[i + 1]
  }

  /** Repeated interrupts aside, every run is finite: this bounds its length. */
  lemma {:induction false} RunLength(c: Config, run: seq<State>)
    requires IsRun(c, run) && EveryStepMoves(run)
    ensures |run| - 1 <= 7 * |c.skips| + 3 * c.processors + 1
  {
    StartWork(run[0].workers);
    WorkAlong(c, run, |run| - 1);
  }

  lemma {:induction false} WorkAlong(c: Config, run: seq<State>, i: nat)
    requires IsRun(c, run) && EveryStepMoves(run) && i < |run|
    ensures 0 <= Work(c, run[i]) <= Work(c, run[0]) - i
  {
    RunInv(c, run, i);
    if i > 0 {
      WorkAlong(c, run, i - 1);
      RunInv(c, run, i - 1);
      assert StepAt(c, run, i - 1) && Moves(run, i - 1);
      StepWorks(c, run[i - 1], run[i]);
    }
  }

  // ---------------------------------------------------------------- the end of a run

  /**
    A run that can go no further has come to its end: every job was collected exactly once,
    both queues are empty and every worker has left on a poison job of its own.
   */
  lemma {:induction false} EndOfRun(c: Config, run: seq<State>)
    requires IsRun(c, run) && !CanStep(c, run[|run| - 1]) && (c.processors > 0 || c.skips == [])
    ensures var s := run[|run| - 1];
      && AllDone(c, s)
      && (forall id :: 0 <= id < |c.skips| ==> Count(s.collected, id) == 1)
      && (c.processors > 0 ==> s.inputQueue == [] && s.outputQueue == [])
      && (forall w :: 0 <= w < |s.workers| ==> s.workers[w].Exited?)
  {
    var s := run[|run| - 1];
    RunInv(c, run, |run| - 1);
    if !AllDone(c, s) {
      Progress(c, s);
    }
    DoneAccounts(c, s);
    if w :| 0 <= w < |s.workers| && !s.workers[w].Exited? {
      if s.workers[w].Waiting? {
        WaitingHasPoison(c, s, w);
        GetCanStep(c, s, w);
      } else {
        BusyCanStep(c, s, w);
      }
    }
    if c.processors > 0 {
      AllLeft(c, s);
    }
  }

  lemma {:induction false} WaitingHasPoison(c: Config, s: State, w: nat)
    requires Inv(c, s) && AllDone(c, s) && w < |s.workers| && s.workers[w].Waiting?
    ensures s.inputQueue != []
  {
    NumExitedBound(s.workers);
  }

  lemma {:induction false} AllLeft(c: Config, s: State)
    requires Inv(c, s) && AllDone(c, s) && c.processors > 0
    requires forall w :: 0 <= w < |s.workers| ==> s.workers[w].Exited?
    ensures s.inputQueue == [] && s.outputQueue == []
  {
    var taken: nat :| InvAt(c, s, taken);
    NumExitedBound(s.workers);
    var n := |c.skips|;
    forall id | 0 <= id < n ensures Count(s.outputQueue, id) + Count(s.collected, id) <= 1 {
      assert InHands(s.workers, id) >= 0;
    }
    BelowPair(s.outputQueue, s.collected, n);
    BelowAll(s.outputQueue, n);
    BelowAll(s.collected, n);
  }

  /** When as many results as jobs have been collected, each job is among them once. */
  lemma {:induction false} DoneAccounts(c: Config, s: State)
    requires Inv(c, s) && |s.collected| == |c.skips|
    ensures forall id :: 0 <= id < |c.skips| ==> Count(s.collected, id) == 1
  {
    var taken: nat :| InvAt(c, s, taken);
    forall id | 0 <= id < |c.skips| ensures Count(s.collected, id) <= 1 {
      assert InHands(s.workers, id) >= 0;
    }
    BelowAll(s.collected, |c.skips|);
    BelowFull(s.collected, |c.skips|);
  }

  // ---------------------------------------------------------------- interrupts

  ghost predicate IsRealResult(j: Job, id: int) {
    j.id == id && !j.isBreak
  }

  /** The result of the job, which is not a broken one, has left its worker. */
  ghost predicate Delivered(s: State, id: int) {
    || (exists i :: 0 <= i < |s.outputQueue| && IsRealResult(s.outputQueue[i], id))
    || (exists i :: 0 <= i < |s.collected| && IsRealResult(s.collected[i], id))
  }

  /** Worker w is past the interrupt check with this job: running it, or about to put its result, or skipping it. */
  ghost predicate InFlight(s: State, w: int, id: int) {
    && 0 <= w < |s.workers|
    && (s.workers[w].Running? || s.workers[w].Finished?) && IsRealResult(s.workers[w].job, id)
  }

  /** Delivered, or in flight at one of the workers. */
  ghost predicate Ran(s: State, id: int) {
    Delivered(s, id) || exists w :: InFlight(s, w, id)
  }

  /** Once the flag is set no worker gets past the check any more. */
  lemma {:induction false} InterruptedStep(c: Config, s: State, t: State, id: int)
    requires Next(c, s, t) && s.threadExit && Ran(t, id)
    ensures t.threadExit && Ran(s, id)
  {
    if Delivered(t, id) {
      if i :| 0 <= i < |t.outputQueue| && IsRealResult(t.outputQueue[i], id) {
        ResultFrom(c, s, t, id, i);
      } else {
        var i :| 0 <= i < |t.collected| && IsRealResult(t.collected[i], id);
        if i < |s.collected| {
          assert s.collected[i] == t.collected[i];
        } else {
          assert IsRealResult(s.outputQueue[0], id);
        }
      }
    } else {
      var w :| InFlight(t, w, id);
      if t.workers[w] == s.workers[w] {
        assert InFlight(s, w, id);
      } else {
        var v :| WorkerStep(c, s, t, v);
        assert v == w && InFlight(s, w, id);
      }
    }
  }

  lemma {:induction false} ResultFrom(c: Config, s: State, t: State, id: int, i: nat)
    requires Next(c, s, t) && i < |t.outputQueue| && IsRealResult(t.outputQueue[i], id)
    ensures Ran(s, id)
  {
    if Collect(c, s, t) {
      assert t.outputQueue[i] == s.outputQueue[i + 1];
    } else if i < |s.outputQueue| {
      assert t.outputQueue[i] == s.outputQueue[i];
    } else {
      var w: nat :| WorkerStep(c, s, t, w);
      assert InFlight(s, w, id);
    }
  }

  /**
    After an interrupt each worker finishes at most the one job it is already past the check
    with: whatever is delivered later was delivered before, or was in flight, when the flag was set.
   */
  lemma {:induction false} AfterInterrupt(c: Config, run: seq<State>, i: nat, j: nat, id: int)
    requires IsRun(c, run) && i <= j < |run| && run[i].threadExit && Ran(run[j], id)
    ensures Ran(run[i], id)
    decreases j - i
  {
    if i < j {
      FlagStays(c, run, i, j - 1);
      assert StepAt(c, run, j - 1);
      InterruptedStep(c, run[j - 1], run[j], id);
      AfterInterrupt(c, run, i, j - 1, id);
    }
  }

  /** A worker that is past the check with a job keeps it until its result is delivered, interrupt or not. */
  lemma {:induction false} RanStaysStep(c: Config, s: State, t: State, id: int)
    requires Next(c, s, t) && Ran(s, id)
    ensures Ran(t, id)
  {
    if i :| 0 <= i < |s.outputQueue| && IsRealResult(s.outputQueue[i], id) {
      if Collect(c, s, t) {
        if i == 0 {
          assert t.collected[|s.collected|] == s.outputQueue[0];
        } else {
          assert t.outputQueue[i - 1] == s.outputQueue[i];
        }
      } else {
        assert t.outputQueue[i] == s.outputQueue[i];
      }
    } else if i :| 0 <= i < |s.collected| && IsRealResult(s.collected[i], id) {
      assert t.collected[i] == s.collected[i];
    } else {
      var w :| InFlight(s, w, id);
      if t.workers[w] == s.workers[w] {
        assert InFlight(t, w, id);
      } else {
        var v :| WorkerStep(c, s, t, v);
        if Put(s, t, v) {
          assert t.outputQueue[|s.outputQueue|] == s.workers[w].job;
        } else {
          assert InFlight(t, w, id);
        }
      }
    }
  }

  /** So a job gets past the check before the interrupt exactly when its own result is delivered in the end. */
  lemma {:induction false} RanStays(c: Config, run: seq<State>, i: nat, j: nat, id: int)
    requires IsRun(c, run) && i <= j < |run| && Ran(run[i], id)
    ensures Ran(run[j], id)
    decreases j - i
  {
    if i < j {
      RanStays(c, run, i, j - 1, id);
      assert StepAt(c, run, j - 1);
      RanStaysStep(c, run[j - 1], run[j], id);
    }
  }

  /** Results are collected in the order in which they were put on the output queue. */
  lemma {:induction false} OutputIsFifo(c: Config, s: State, t: State)
    requires Next(c, s, t)
    ensures s.collected + s.outputQueue <= t.collected + t.outputQueue
    ensures s.collected <= t.collected
  {
    if Collect(c, s, t) {
      assert t.collected + t.outputQueue == s.collected + s.outputQueue;
    }
  }

  /** The jobs whose results left their workers between two states. */
  ghost function NewlyDelivered(c: Config, s: State, t: State): set<int> {
    set id | 0 <= id < |c.skips| && Delivered(t, id) && !Delivered(s, id)
  }

  /** The jobs that the first n workers are past the check with. */
  ghost function InFlightIds(s: State, n: nat): set<int>
    requires n <= |s.workers|
  {
    if n == 0 then {} else
    InFlightIds(s, n - 1) + (if InFlight(s, n - 1, HeldId(s.workers[n - 1])) then {HeldId(s.workers[n - 1])} else {})
  }

  ghost function HeldId(w: Worker): int {
    if w.Took? || w.Running? || w.Finished? then w.job.id else -1
  }

  lemma {:induction false} InFlightBound(s: State, n: nat)
    requires n <= |s.workers|
    ensures |InFlightIds(s, n)| <= n
    ensures forall w, id :: w < n && InFlight(s, w, id) ==> id in InFlightIds(s, n)
  {
    if n > 0 { InFlightBound(s, n - 1); }
  }

  lemma {:induction false} DeliveredId(c: Config, s: State, id: int)
    requires Inv(c, s) && Delivered(s, id)
    ensures 0 <= id < |c.skips|
  {
    var taken: nat :| InvAt(c, s, taken);
  }

  /**
    So an interrupt lets at most one further result through for each worker: no more jobs than
    there are workers are delivered after it, and no job is delivered that was not dispatched.
   */
  lemma {:induction false} AtMostOneEach(c: Config, run: seq<State>, i: nat, j: nat)
    requires IsRun(c, run) && i <= j < |run| && run[i].threadExit
    ensures |NewlyDelivered(c, run[i], run[j])| <= c.processors
    ensures forall id :: Delivered(run[j], id) ==> 0 <= id < |c.skips|
  {
    RunInv(c, run, i);
    RunInv(c, run, j);
    var flying := InFlightIds(run[i], |run[i].workers|);
    InFlightBound(run[i], |run[i].workers|);
    forall id | id in NewlyDelivered(c, run[i], run[j]) ensures id in flying {
      AfterInterrupt(c, run, i, j, id);
    }
    SubsetSize(NewlyDelivered(c, run[i], run[j]), flying);
    forall id | Delivered(run[j], id) ensures 0 <= id < |c.skips| {
      DeliveredId(c, run[j], id);
    }
  }

  lemma {:induction false} SubsetSize(a: set<int>, b: set<int>)
    requires a <= b
    ensures |a| <= |b|
  {
    assert b == a + (b - a);
  }

  lemma {:induction false} FlagStays(c: Config, run: seq<State>, i: nat, j: nat)
    requires IsRun(c, run) && i <= j < |run| && run[i].threadExit
    ensures run[j].threadExit
    decreases j - i
  {
    if i < j {
      FlagStays(c, run, i, j - 1);
      assert StepAt(c, run, j - 1);
    }
  }

  // ---------------------------------------------------------------- the summary

  datatype Status = Interrupted | Skip | Pass | Fail | Valgr | Crash

  function StatusOf(job: Job): Status {
    if job.isBreak then Interrupted
    else if job.isSkip then Skip
    else if job.returncode == 0 then Pass
    else if job.returncode == 1 then Fail
    else if job.returncode == 2 then Valgr
    else Crash
  }

  /** The identities of the results with a status, in the order in which they arrived. */
  ghost function WithStatus(results: seq<Job>, st: Status): seq<int> {
    if results == [] then [] else
    var last := results[|results| - 1];
    WithStatus(results[..|results| - 1], st) + (if StatusOf(last) == st then [last.id] else [])
  }

  datatype Summary = Summary(passed: nat, failed: seq<int>, crashed: seq<int>, valgrind: seq<int>, skipped: seq<int>)

  /** Sorting the collected results by outcome, and the exit code of the whole run. */
  method Summarize(results: seq<Job>, totalTests: nat) returns (sum: Summary, exitCode: int)
    ensures sum.passed == |WithStatus(results, Pass)|
    ensures sum.failed == WithStatus(results, Fail) && sum.crashed == WithStatus(results, Crash)
    ensures sum.valgrind == WithStatus(results, Valgr) && sum.skipped == WithStatus(results, Skip)
    ensures exitCode == if sum.passed + |sum.skipped| == totalTests then 0 else 1
  {
    var passed, failed, crashed, valgrind, skipped := 0, [], [], [], [];
    for i := 0 to |results|
      invariant passed == |WithStatus(results[..i], Pass)|
      invariant failed == WithStatus(results[..i], Fail) && crashed == WithStatus(results[..i], Crash)
      invariant valgrind == WithStatus(results[..i], Valgr) && skipped == WithStatus(results[..i], Skip)
    {
      var job := results[i];
      assert results[..i + 1][..i] == results[..i];
      if job.isBreak {
        continue;
      }
      if job.isSkip {
        skipped := skipped + [job.id];
      } else if job.returncode == 0 {
        passed := passed + 1;
      } else if job.returncode == 1 {
        failed := failed + [job.id];
      } else if job.returncode == 2 {
        valgrind := valgrind + [job.id];
      } else {
        crashed := crashed + [job.id];
      }
    }
    assert results[..|results|] == results;
    sum := Summary(passed, failed, crashed, valgrind, skipped);
    exitCode := if passed + |skipped| == totalTests then 0 else 1;
  }

  lemma {:induction false} StatusesPartition(results: seq<Job>)
    ensures |WithStatus(results, Pass)| + |WithStatus(results, Fail)| + |WithStatus(results, Valgr)|
      + |WithStatus(results, Crash)| + |WithStatus(results, Skip)| + |WithStatus(results, Interrupted)| == |results|
  {
    if results != [] { StatusesPartition(results[..|results| - 1]); }
  }

  lemma {:induction false} AllGoodIff(results: seq<Job>)
    ensures |WithStatus(results, Pass)| + |WithStatus(results, Skip)| <= |results|
    ensures |WithStatus(results, Pass)| + |WithStatus(results, Skip)| == |results| <==>
      forall i :: 0 <= i < |results| ==> StatusOf(results[i]).Pass? || StatusOf(results[i]).Skip?
  {
    if results != [] {
      var n := |results| - 1;
      AllGoodIff(results[..n]);
      assert (forall i :: 0 <= i < |results| ==> StatusOf(results[i]).Pass? || StatusOf(results[i]).Skip?) <==>
        (StatusOf(results[n]).Pass? || StatusOf(results[n]).Skip?)
        && forall i :: 0 <= i < n ==> StatusOf(results[..n][i]).Pass? || StatusOf(results[..n][i]).Skip?;
    }
  }

  lemma {:induction false} WithStatusAppend(a: seq<Job>, b: seq<Job>, st: Status)
    ensures WithStatus(a + b, st) == WithStatus(a, st) + WithStatus(b, st)
  {
    if b == [] {
      assert a + b == a;
    } else {
      var n := |b| - 1;
      assert (a + b)[..|a| + n] == a + b[..n];
      WithStatusAppend(a, b[..n], st);
    }
  }

  /** The job came back, and not as broken. */
  ghost predicate CameBack(results: seq<Job>, id: int) {
    exists i :: 0 <= i < |results| && results[i].id == id && !results[i].isBreak
  }

  ghost predicate CameBackBroken(results: seq<Job>, id: int) {
    exists i :: 0 <= i < |results| && results[i].id == id && results[i].isBreak
  }

  ghost predicate AllOk(c: Config, results: seq<Job>, threadExit: bool) {
    forall i :: 0 <= i < |results| ==> ResultOk(c, results[i], threadExit)
  }

  lemma {:induction false} CameBackLast(results: seq<Job>, id: int)
    requires results != []
    ensures var n := |results| - 1;
      && (CameBack(results, id) <==> CameBack(results[..n], id) || (results[n].id == id && !results[n].isBreak))
      && (CameBackBroken(results, id) <==> CameBackBroken(results[..n], id) || (results[n].id == id && results[n].isBreak))
  {
    var n := |results| - 1;
    var init := results[..n];
    if i :| 0 <= i < |results| && results[i].id == id && !results[i].isBreak {
      assert i < n ==> init[i] == results[i];
    }
    if i :| 0 <= i < |results| && results[i].id == id && results[i].isBreak {
      assert i < n ==> init[i] == results[i];
    }
    if i :| 0 <= i < |init| && init[i].id == id && !init[i].isBreak {
      assert results[i] == init[i];
    }
    if i :| 0 <= i < |init| && init[i].id == id && init[i].isBreak {
      assert results[i] == init[i];
    }
  }

  /** Which list a job is on is settled by what its process returned: 0 passes, 1 fails, 2 is valgrind's, all else crashes. */
  lemma {:induction false} ListedByCode(c: Config, results: seq<Job>, threadExit: bool, id: int)
    requires AllOk(c, results, threadExit) && 0 <= id < |c.skips|
    ensures id in WithStatus(results, Interrupted) <==> CameBackBroken(results, id)
    ensures id in WithStatus(results, Skip) <==> CameBack(results, id) && c.skips[id]
    ensures id in WithStatus(results, Pass) <==> CameBack(results, id) && !c.skips[id] && c.codes(id) == 0
    ensures id in WithStatus(results, Fail) <==> CameBack(results, id) && !c.skips[id] && c.codes(id) == 1
    ensures id in WithStatus(results, Valgr) <==> CameBack(results, id) && !c.skips[id] && c.codes(id) == 2
    ensures id in WithStatus(results, Crash) <==>
      CameBack(results, id) && !c.skips[id] && c.codes(id) != 0 && c.codes(id) != 1 && c.codes(id) != 2
  {
    if results != [] {
      var n := |results| - 1;
      ListedByCode(c, results[..n], threadExit, id);
      CameBackLast(results, id);
      assert ResultOk(c, results[n], threadExit);
    }
  }

  lemma {:induction false} ListedIsThere(results: seq<Job>, st: Status, id: int)
    requires id in WithStatus(results, st)
    ensures Count(results, id) >= 1 && exists i :: 0 <= i < |results| && results[i].id == id
  {
    var n := |results| - 1;
    if results[n].id != id {
      ListedIsThere(results[..n], st, id);
      var i :| 0 <= i < n && results[..n][i].id == id;
      assert results[i].id == id;
    }
  }

  lemma {:induction false} ListedOnce(results: seq<Job>, st: Status)
    requires forall id :: Count(results, id) <= 1
    ensures NoRepeats(WithStatus(results, st))
  {
    if results != [] {
      var n := |results| - 1;
      forall id ensures Count(results[..n], id) <= 1 {
        assert Count(results[..n], id) <= Count(results, id);
      }
      ListedOnce(results[..n], st);
      assert Count(results[..n], results[n].id) + 1 == Count(results, results[n].id);
      NotListed(results[..n], st, results[n].id);
    }
  }

  lemma {:induction false} NotListed(results: seq<Job>, st: Status, id: int)
    requires Count(results, id) == 0
    ensures id !in WithStatus(results, st)
  {
    if id in WithStatus(results, st) {
      ListedIsThere(results, st, id);
    }
  }

  /** A job comes back in one way only, and in one way or the other it does. */
  lemma {:induction false} BackOneWay(c: Config, results: seq<Job>, id: int)
    requires Count(results, id) == 1
    ensures CameBack(results, id) <==> !CameBackBroken(results, id)
  {
    var k := CountedIsThere(results, id);
    if i :| 0 <= i < |results| && results[i].id == id && i != k {
      CountTwo(results, i, k);
    }
  }

  /** Every count at the end of a run is 0 or 1. */
  lemma {:induction false} EndCounts(c: Config, run: seq<State>)
    requires IsRun(c, run) && AllDone(c, run[|run| - 1])
    ensures var s := run[|run| - 1];
      && AllOk(c, s.collected, s.threadExit)
      && (forall id :: Count(s.collected, id) == if 0 <= id < |c.skips| then 1 else 0)
  {
    var s := run[|run| - 1];
    RunInv(c, run, |run| - 1);
    DoneAccounts(c, s);
    var taken: nat :| InvAt(c, s, taken);
    forall id ensures Count(s.collected, id) == if 0 <= id < |c.skips| then 1 else 0 {
      assert InHands(s.workers, id) >= 0;
    }
  }

  /**
    The outcome of a run in terms of what the processes returned.  Each list names each of its jobs
    once, a job is on a list by its code alone, every other dispatched job was interrupted, and none is
    interrupted without an interrupt.
   */
  lemma {:induction false} OutcomesByCode(c: Config, run: seq<State>, id: int)
    requires IsRun(c, run) && AllDone(c, run[|run| - 1])
    ensures var s := run[|run| - 1];
      var r := s.collected;
      && (forall st :: NoRepeats(WithStatus(r, st)) && forall x :: x in WithStatus(r, st) ==> 0 <= x < |c.skips|)
      && (0 <= id < |c.skips| ==>
            && (id in WithStatus(r, Interrupted) <==> !CameBack(r, id))
            && (id in WithStatus(r, Skip) <==> CameBack(r, id) && c.skips[id])
            && (id in WithStatus(r, Pass) <==> CameBack(r, id) && !c.skips[id] && c.codes(id) == 0)
            && (id in WithStatus(r, Fail) <==> CameBack(r, id) && !c.skips[id] && c.codes(id) == 1)
            && (id in WithStatus(r, Valgr) <==> CameBack(r, id) && !c.skips[id] && c.codes(id) == 2)
            && (id in WithStatus(r, Crash) <==>
                  CameBack(r, id) && !c.skips[id] && c.codes(id) != 0 && c.codes(id) != 1 && c.codes(id) != 2)
            && (!s.threadExit ==> CameBack(r, id)))
  {
    var s := run[|run| - 1];
    var r := s.collected;
    EndCounts(c, run);
    forall st
      ensures NoRepeats(WithStatus(r, st)) && forall x :: x in WithStatus(r, st) ==> 0 <= x < |c.skips|
    {
      ListedOnce(r, st);
      forall x | x in WithStatus(r, st) ensures 0 <= x < |c.skips| {
        ListedIsThere(r, st, x);
      }
    }
    if 0 <= id < |c.skips| {
      ListedByCode(c, r, s.threadExit, id);
      BackOneWay(c, r, id);
    }
  }

  /**
    The books balance at the end of every run: the six outcomes together are all the dispatched
    tests, and the exit code is 0 exactly when every single one came back and was to be skipped or
    returned 0; without an interrupt, exactly when each was to be skipped or returned 0.
   */
  lemma {:induction false} FinalAccount(c: Config, run: seq<State>)
    requires IsRun(c, run) && AllDone(c, run[|run| - 1])
    ensures var s := run[|run| - 1];
      var r := s.collected;
      && |WithStatus(r, Pass)| + |WithStatus(r, Fail)| + |WithStatus(r, Valgr)| + |WithStatus(r, Crash)|
         + |WithStatus(r, Skip)| + |WithStatus(r, Interrupted)| == s.dispatched == |c.skips|
      && (|WithStatus(r, Pass)| + |WithStatus(r, Skip)| == s.dispatched <==>
          forall id :: 0 <= id < |c.skips| ==> CameBack(r, id) && (c.skips[id] || c.codes(id) == 0))
      && (!s.threadExit ==>
            && WithStatus(r, Interrupted) == []
            && (|WithStatus(r, Pass)| + |WithStatus(r, Skip)| == s.dispatched <==>
                forall id :: 0 <= id < |c.skips| ==> c.skips[id] || c.codes(id) == 0))
  {
    var s := run[|run| - 1];
    var r := s.collected;
    EndCounts(c, run);
    RunInv(c, run, |run| - 1);
    StatusesPartition(r);
    AllGoodIff(r);
    GoodForEachIff(r, |c.skips|);
    forall id | 0 <= id < |c.skips|
      ensures GoodResult(r, id) <==> CameBack(r, id) && (c.skips[id] || c.codes(id) == 0)
      ensures !s.threadExit ==> CameBack(r, id)
    {
      GoodByCode(c, r, s.threadExit, id);
      OutcomesByCode(c, run, id);
    }
    if !s.threadExit {
      NoneInterrupted(c, r);
    }
  }

  lemma {:induction false} GoodByCode(c: Config, results: seq<Job>, threadExit: bool, id: int)
    requires AllOk(c, results, threadExit) && 0 <= id < |c.skips|
    ensures GoodResult(results, id) <==> CameBack(results, id) && (c.skips[id] || c.codes(id) == 0)
  {
  }

  ghost predicate GoodResult(results: seq<Job>, id: int) {
    exists i :: 0 <= i < |results| && results[i].id == id && (StatusOf(results[i]).Pass? || StatusOf(results[i]).Skip?)
  }

  lemma {:induction false} NoneInterrupted(c: Config, results: seq<Job>)
    requires forall i :: 0 <= i < |results| ==> ResultOk(c, results[i], false)
    ensures WithStatus(results, Interrupted) == []
  {
    if results != [] { NoneInterrupted(c, results[..|results| - 1]); }
  }

  lemma {:induction false} CountTwo(q: seq<Job>, i: nat, j: nat)
    requires i < |q| && j < |q| && q[i].id == q[j].id && i != j
    ensures Count(q, q[i].id) >= 2
  {
    var n := |q| - 1;
    if i < n && j < n {
      CountTwo(q[..n], i, j);
    } else {
      CountOne(q[..n], if i < n then i else j);
    }
  }

  lemma {:induction false} CountOne(q: seq<Job>, i: nat)
    requires i < |q|
    ensures Count(q, q[i].id) >= 1
  {
    if i < |q| - 1 { CountOne(q[..|q| - 1], i); }
  }

  lemma {:induction false} CountedIsThere(q: seq<Job>, id: int) returns (i: nat)
    requires Count(q, id) >= 1
    ensures i < |q| && q[i].id == id
  {
    if q[|q| - 1].id == id {
      i := |q| - 1;
    } else {
      i := CountedIsThere(q[..|q| - 1], id);
    }
  }

  lemma {:induction false} GoodForEachIff(results: seq<Job>, n: nat)
    requires forall id :: 0 <= id < n ==> Count(results, id) == 1
    requires forall i :: 0 <= i < |results| ==> 0 <= results[i].id < n
    ensures (forall i :: 0 <= i < |results| ==> StatusOf(results[i]).Pass? || StatusOf(results[i]).Skip?) <==>
      forall id :: 0 <= id < n ==> GoodResult(results, id)
  {
    if forall i :: 0 <= i < |results| ==> StatusOf(results[i]).Pass? || StatusOf(results[i]).Skip? {
      forall id | 0 <= id < n ensures GoodResult(results, id) {
        var i := CountedIsThere(results, id);
      }
    }
    if forall id :: 0 <= id < n ==> GoodResult(results, id) {
      forall i | 0 <= i < |results| ensures StatusOf(results[i]).Pass? || StatusOf(results[i]).Skip? {
        assert GoodResult(results, results[i].id);
        var j :| 0 <= j < |results| && results[j].id == results[i].id && (StatusOf(results[j]).Pass? || StatusOf(results[j]).Skip?);
        if i != j {
          CountTwo(results, i, j);
        }
      }
    }
  }
}
