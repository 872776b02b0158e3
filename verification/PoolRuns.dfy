/**
 Whole runs of the worker pool of test.py: they are bounded and never get stuck, they end with every
 worker gone, every result of a job run arrives, and an interrupt freezes which jobs were looked at.
 */
module PoolRuns {
  import opened WorkerPool

  // ---------------------------------------------------------------- progress and termination

  /** The steps still needed for a job in the input queue, and for the job of a worker. */
  ghost function QueueCost(job: Job): nat {
    if job.isBreak then 2 else 5
  }
  ghost function WorkerCost(w: Worker): nat {
    match w
    case Holding(job) => if job.isBreak then 1 else 4
    case Running(_) => 3
    case Reporting(_) => 2
    case _ => 0
  }

  /** An upper bound on the number of steps to come. */
  ghost function Remaining(c: Config, s: State): nat
    requires InOrder(c, s)
  {
    (if s.threadExit then 0 else 1) + (c.workers - s.started) + 6 * (|c.plan| - s.dispatched)
    + 3 * (c.workers - s.marked) + Sum(s.input, QueueCost) + Sum(s.workers, WorkerCost)
    + |s.output| + (c.workers - s.joined)
  }

  /** What a step takes from the work in front of the acting worker. */
  lemma {:induction false} WorkerShrinks(c: Config, s: State, a: Action)
    requires Enabled(c, s, a) && InOrder(c, s) && Acting(s, a) < |s.workers|
    requires SoundWorker(s.workers[Acting(s, a)], s.threadExit)
    ensures var w, w' := s.workers[Acting(s, a)], Next(c, s, a).workers[Acting(s, a)];
            && (a.Start? ==> WorkerCost(w') == WorkerCost(w))
            && (a.Take? ==> WorkerCost(w') == WorkerCost(w) + QueueCost(s.input[0]) - 1)
            && (a.Decide? || a.Return? ==> WorkerCost(w') < WorkerCost(w))
            && (a.Report? ==> WorkerCost(w') == WorkerCost(w) - 2)
  {
  }

  lemma {:induction false} InputShrinks(c: Config, s: State, a: Action)
    requires ValidConfig(c) && Enabled(c, s, a)
    ensures Sum(Next(c, s, a).input, QueueCost) + (if a.Take? then QueueCost(s.input[0]) else 0) ==
            Sum(s.input, QueueCost) + if a.Dispatch? then 5 else if a.Mark? then 2 else 0
  {
    if a.Dispatch? {
      assert Fresh(c.plan[s.dispatched]);
      SumAppend(s.input, c.plan[s.dispatched], QueueCost);
    } else if a.Mark? {
      SumAppend(s.input, MARKER, QueueCost);
    }
  }

  lemma {:induction false} WorkersShrink(c: Config, s: State, a: Action)
    requires Enabled(c, s, a) && InOrder(c, s) && Sound(s)
    ensures var before, after := Sum(s.workers, WorkerCost), Sum(Next(c, s, a).workers, WorkerCost);
            if a.Take? then after == before + QueueCost(s.input[0]) - 1
            else if a.Decide? || a.Return? then after < before
            else if a.Report? then after == before - 2
            else after == before
  {
    var t := Next(c, s, a);
    var i := Acting(s, a);
    if i < |s.workers| {
      WorkerShrinks(c, s, a);
      assert t.workers == s.workers[i := t.workers[i]];
      SumUpdate(s.workers, WorkerCost, i, t.workers[i]);
    }
  }

  lemma {:induction false} StepShrinks(c: Config, s: State, a: Action)
    requires ValidConfig(c) && Enabled(c, s, a) && InOrder(c, s) && Sound(s)
    ensures InOrder(c, Next(c, s, a)) && Remaining(c, Next(c, s, a)) < Remaining(c, s)
  {
    OrderStep(c, s, a);
    InputShrinks(c, s, a);
    WorkersShrink(c, s, a);
  }

  lemma {:induction false} RunShrinks(c: Config, s: State, run: seq<Action>, t: State)
    requires ValidConfig(c) && Inv(c, s) && Reaches(c, s, run, t)
    ensures Inv(c, t) && |run| + Remaining(c, t) <= Remaining(c, s)
    decreases |run|
  {
    if run != [] {
      StepInv(c, s, run[0]);
      StepShrinks(c, s, run[0]);
      RunShrinks(c, Next(c, s, run[0]), run[1..], t);
    }
  }

  /** Six steps per job, five per worker and one for the interrupt: no run is longer. */
  lemma {:induction false} RunsAreBounded(c: Config, run: seq<Action>, s: State)
    requires ValidConfig(c) && Reaches(c, Init(c), run, s)
    ensures |run| <= 6 * |c.plan| + 5 * c.workers + 1
  {
    InitInv(c);
    RunShrinks(c, Init(c), run, s);
    UnstartedSum(c.workers, WorkerCost);
  }

  /** There are workers, or there is nothing for them to do. */
  predicate Staffed(c: Config) {
    c.workers > 0 || c.plan == []
  }

  /** While a result is missing and no worker is at work, some worker can take a job. */
  lemma {:induction false} CollectorIsServed(c: Config, s: State)
    requires ValidConfig(c) && Inv(c, s) && s.dispatched == |c.plan| && |s.collected| < |c.plan| && s.output == []
    requires forall i :: 0 <= i < |s.workers| ==> s.workers[i] == Waiting || s.workers[i] == Exited
    ensures s.input != [] && forall i :: 0 <= i < |s.workers| ==> s.workers[i] == Waiting
  {
    InvConserves(c, s);
    NobodyHolds(s.workers);
    assert c.plan[..s.dispatched] == c.plan;
    assert |multiset(Identities(Everywhere(s)))| == |Everywhere(s)|;
    assert |multiset(c.plan)| == |c.plan|;
    assert Queued(s) != [];
    SumExtremes(s.workers, Broke);
    assert forall i :: 0 <= i < |s.workers| ==> Broke(s.workers[i]) == 0;
  }

  lemma {:induction false} NobodyHolds(ws: seq<Worker>)
    requires forall i :: 0 <= i < |ws| ==> ws[i] == Waiting || ws[i] == Exited
    ensures HeldJobs(ws) == []
  {
    if ws != [] {
      NobodyHolds(ws[1..]);
    }
  }

  /**
   The pool never deadlocks: until the main thread has left and all workers have exited, some thread
   can move.  A job run can then end with a return code for which no result file is opened.
   */
  lemma {:induction false} Progress(c: Config, s: State) returns (a: Action)
    requires ValidConfig(c) && Staffed(c) && Inv(c, s) && !Done(c, s)
    ensures a != Interrupt && Enabled(c, s, a) && (a.Return? ==> a.code == 3)
  {
    if i: nat :| i < |s.workers| && s.workers[i].Holding? {
      a := Decide(i);
    } else if i: nat :| i < |s.workers| && s.workers[i].Running? {
      a := Return(i, 3, Missing);
    } else if i: nat :| i < |s.workers| && s.workers[i].Reporting? {
      a := Report(i);
    } else if s.failed {
      var i: nat :| i < |s.workers| && s.workers[i] != Exited;
      MarkerIsLeft(c, s, i);
      a := Take(i);
    } else if s.started < c.workers {
      a := Start;
    } else if s.dispatched < |c.plan| {
      a := Dispatch;
    } else if s.marked < c.workers {
      a := Mark;
    } else if |s.collected| < |c.plan| {
      if s.output != [] {
        a := Collect;
      } else {
        CollectorIsServed(c, s);
        a := Take(0);
      }
    } else if s.workers[s.joined] == Exited {
      a := Join;
    } else {
      MarkerIsLeft(c, s, s.joined);
      a := Take(s.joined);
    }
  }

  /** A worker that waits for its marker finds one. */
  lemma {:induction false} MarkerIsLeft(c: Config, s: State, w: nat)
    requires Inv(c, s) && s.marked == c.workers && w < |s.workers| && Broke(s.workers[w]) == 0
    ensures s.input != []
  {
    SumExtremes(s.workers, Broke);
  }

  /** Nothing unreadable has been collected or is on its way to the collector. */
  ghost predicate Promising(s: State) {
    && !s.failed && AllReadable(s.output)
    && forall i :: 0 <= i < |s.workers| && s.workers[i].Reporting? ==> !Unreadable(s.workers[i].job)
  }

  lemma {:induction false} PromiseStep(c: Config, s: State, a: Action)
    requires Enabled(c, s, a) && Promising(s) && (a.Return? ==> a.code == 3)
    ensures Promising(Next(c, s, a))
  {
  }

  /**
   From any reachable state the pool can be driven to its end, so no step ever traps it; and unless an
   unreadable result is already there, the main thread can still return.
   */
  lemma {:induction false} CanFinishFrom(c: Config, s: State) returns (run: seq<Action>, t: State)
    requires ValidConfig(c) && Staffed(c) && Inv(c, s)
    ensures Reaches(c, s, run, t) && Done(c, t)
    ensures Promising(s) ==> Finished(c, t)
    decreases Remaining(c, s)
  {
    if Done(c, s) {
      run, t := [], s;
    } else {
      var a := Progress(c, s);
      StepInv(c, s, a);
      StepShrinks(c, s, a);
      if Promising(s) {
        PromiseStep(c, s, a);
      }
      run, t := CanFinishFrom(c, Next(c, s, a));
      assert ([a] + run)[1..] == run;
      run := [a] + run;
    }
  }

  /**
   A run that cannot be continued, other than by the signal handler, is done: every worker took its one
   break marker and exited, and each planned job is collected or, if the main thread died before, still
   in the output queue.  The main thread died if and only if some job run returned an unreadable result, and
   otherwise it returned with both queues empty.
   */
  lemma {:induction false} MaximalRunsComplete(c: Config, run: seq<Action>, s: State)
    requires ValidConfig(c) && Staffed(c) && Reaches(c, Init(c), run, s)
    requires forall a :: Enabled(c, s, a) ==> a == Interrupt
    ensures Done(c, s) && s.input == [] && (Finished(c, s) ==> s.output == [])
    ensures multiset(Identities(s.output + s.collected)) == multiset(c.plan)
    ensures s.failed <==> exists k :: Unreadable(k) && Returned(c, Init(c), run, k) > 0
  {
    ReachableInv(c, run, s);
    if !Done(c, s) {
      var a := Progress(c, s);
      assert false;
    }
    DoneIsClean(c, s);
    FailsIff(c, run, s);
  }

  lemma {:induction false} DoneIsClean(c: Config, s: State)
    requires ValidConfig(c) && Inv(c, s) && Done(c, s)
    ensures s.input == [] && (Finished(c, s) ==> s.output == [])
    ensures multiset(Identities(s.output + s.collected)) == multiset(c.plan)
  {
    SumExtremes(s.workers, Broke);
    NobodyHolds(s.workers);
    InvConserves(c, s);
    assert c.plan[..s.dispatched] == c.plan;
    assert |multiset(Identities(Everywhere(s)))| == |Everywhere(s)|;
    assert |multiset(c.plan)| == |c.plan|;
    assert Queued(s) == [];
    assert Everywhere(s) == s.output + s.collected;
  }

  lemma {:induction false} FinishedIsDone(c: Config, s: State)
    requires ValidConfig(c) && Inv(c, s) && Finished(c, s)
    ensures Done(c, s) && s.output == [] && s.output + s.collected == s.collected
    ensures multiset(Identities(s.collected)) == multiset(c.plan)
  {
    DoneIsClean(c, s);
    assert s.output + s.collected == s.collected;
  }

  ghost predicate CompleteRun(c: Config, run: seq<Action>, s: State) {
    Reaches(c, Init(c), run, s) && Finished(c, s)
  }

  /** The pool can finish exactly when it is staffed: with jobs and no worker the collector waits for ever. */
  lemma {:induction false} FinishesIffStaffed(c: Config)
    requires ValidConfig(c)
    ensures Staffed(c) <==> exists run, s :: CompleteRun(c, run, s)
  {
    if Staffed(c) {
      InitInv(c);
      var run, s := CanFinishFrom(c, Init(c));
      assert CompleteRun(c, run, s);
    } else {
      forall run, s | CompleteRun(c, run, s) ensures false {
        NobodyWorks(c, Init(c), run, s);
      }
    }
  }

  lemma {:induction false} NobodyWorks(c: Config, s: State, run: seq<Action>, t: State)
    requires !Staffed(c) && s.workers == [] && s.output == [] && s.collected == [] && Reaches(c, s, run, t)
    ensures t.collected == []
    decreases |run|
  {
    if run != [] {
      NobodyWorks(c, Next(c, s, run[0]), run[1..], t);
    }
  }

  // ---------------------------------------------------------------- results and interrupts

  /** The action is the end of a job run whose return code and result file make the job `k`. */
  ghost predicate Gives(s: State, a: Action, k: Job) {
    && a.Return? && a.w < |s.workers| && s.workers[a.w].Running?
    && k == s.workers[a.w].job.(returncode := a.code, file := a.file)
  }

  /** How often the result `k` was returned by a job run along the run. */
  ghost function Returned(c: Config, s: State, run: seq<Action>, k: Job): nat
    decreases |run|
  {
    if run == [] || !Enabled(c, s, run[0]) then 0
    else (if Gives(s, run[0], k) then 1 else 0) + Returned(c, Next(c, s, run[0]), run[1..], k)
  }

  lemma {:induction false} RanStep(c: Config, s: State, a: Action, k: Job)
    requires Enabled(c, s, a) && InOrder(c, s) && Sound(s) && !k.isBreak && !k.isSkip
    ensures Pool(Next(c, s, a), AsRan(k), RanBy(k)) ==
            Pool(s, AsRan(k), RanBy(k)) + if Gives(s, a, k) then 1 else 0
  {
    PoolStep(c, s, a, AsRan(k), RanBy(k));
    var i := Acting(s, a);
    if i < |s.workers| {
      assert SoundWorker(s.workers[i], s.threadExit);
    }
  }

  lemma {:induction false} RunReturns(c: Config, s: State, run: seq<Action>, t: State, k: Job)
    requires ValidConfig(c) && Inv(c, s) && Reaches(c, s, run, t) && !k.isBreak && !k.isSkip
    ensures Inv(c, t)
    ensures Pool(t, AsRan(k), RanBy(k)) == Pool(s, AsRan(k), RanBy(k)) + Returned(c, s, run, k)
    decreases |run|
  {
    if run != [] {
      StepInv(c, s, run[0]);
      RanStep(c, s, run[0], k);
      RunReturns(c, Next(c, s, run[0]), run[1..], t, k);
    }
  }

  /**
   When the pool is done, every result a job run returned is in the output queue or collected, unaltered,
   as often as it was returned; nothing else is.
   */
  lemma {:induction false} ResultsAreDelivered(c: Config, run: seq<Action>, s: State, k: Job)
    requires ValidConfig(c) && Reaches(c, Init(c), run, s) && Done(c, s)
    requires !k.isBreak && !k.isSkip
    ensures multiset(s.output + s.collected)[k] == Returned(c, Init(c), run, k)
    ensures Finished(c, s) ==> s.output == []
  {
    InitInv(c);
    RunReturns(c, Init(c), run, s, k);
    DoneIsClean(c, s);
    PoolAtEnd(s, AsRan(k), RanBy(k));
    UnstartedSum(c.workers, RanBy(k));
    CountRan(s.output + s.collected, k);
  }

  lemma {:induction false} PoolAtEnd(s: State, fj: Job -> nat, fw: Worker -> nat)
    requires fw(Exited) == 0 && forall i :: 0 <= i < |s.workers| ==> s.workers[i] == Exited
    ensures Pool(s, fj, fw) == Sum(s.output + s.collected, fj)
  {
    SumExtremes(s.workers, fw);
    SumConcat(s.output, s.collected, fj);
  }

  /** Whatever was collected from a job run was returned by one, also while the pool is at work. */
  lemma {:induction false} CollectedWasReturned(c: Config, run: seq<Action>, s: State, k: Job)
    requires ValidConfig(c) && Reaches(c, Init(c), run, s) && k in s.collected && !k.isBreak && !k.isSkip
    ensures Returned(c, Init(c), run, k) > 0
  {
    InitInv(c);
    RunReturns(c, Init(c), run, s, k);
    UnstartedSum(c.workers, RanBy(k));
    CountRan(s.collected, k);
  }

  /** The main thread dies only of an unreadable result, and no such result is ever returned and survived. */
  lemma {:induction false} FailsIff(c: Config, run: seq<Action>, s: State)
    requires ValidConfig(c) && Reaches(c, Init(c), run, s)
    ensures s.failed ==> exists k :: Unreadable(k) && Returned(c, Init(c), run, k) > 0
    ensures Done(c, s) && !s.failed ==> forall k :: Unreadable(k) ==> Returned(c, Init(c), run, k) == 0
  {
    ReachableInv(c, run, s);
    if s.failed {
      var i :| 0 <= i < |s.collected| && Unreadable(s.collected[i]);
      CollectedWasReturned(c, run, s, s.collected[i]);
    } else if Done(c, s) {
      forall k | Unreadable(k) ensures Returned(c, Init(c), run, k) == 0 {
        ResultsAreDelivered(c, run, s, k);
        assert s.output + s.collected == s.collected;
        assert k !in s.collected;
      }
    }
  }

  lemma {:induction false} CountRan(jobs: seq<Job>, k: Job)
    requires !k.isBreak && !k.isSkip
    ensures multiset(jobs)[k] == Sum(jobs, AsRan(k))
  {
    if jobs != [] {
      CountRan(jobs[1..], k);
      assert jobs == [jobs[0]] + jobs[1..];
    }
  }

  /** How often job `k` has been looked at by a worker that did not see the interrupt flag. */
  ghost function Decided(s: State, k: Job): nat {
    Pool(s, AsDecided(k), DecidedBy(k))
  }

  lemma {:induction false} DecidedChange(c: Config, s: State, a: Action, k: Job)
    requires Enabled(c, s, a) && Acting(s, a) < |s.workers| && !a.Report? && s.threadExit
    requires |Next(c, s, a).workers| == |s.workers| && SoundWorker(s.workers[Acting(s, a)], s.threadExit)
    requires a.Start? ==> s.workers[s.started] == NotStarted
    ensures DecidedBy(k)(Next(c, s, a).workers[Acting(s, a)]) == DecidedBy(k)(s.workers[Acting(s, a)])
  {
  }

  lemma {:induction false} DecidedStep(c: Config, s: State, a: Action, k: Job)
    requires Enabled(c, s, a) && InOrder(c, s) && Sound(s) && s.threadExit
    ensures Decided(Next(c, s, a), k) == Decided(s, k)
  {
    PoolStep(c, s, a, AsDecided(k), DecidedBy(k));
    if Acting(s, a) < |s.workers| && !a.Report? {
      DecidedChange(c, s, a, k);
    }
  }

  lemma {:induction false} InterruptFreezes(c: Config, s: State, run: seq<Action>, t: State, k: Job)
    requires ValidConfig(c) && Inv(c, s) && Reaches(c, s, run, t) && s.threadExit
    ensures Inv(c, t) && Decided(t, k) == Decided(s, k)
    decreases |run|
  {
    if run != [] {
      var a := run[0];
      StepInv(c, s, a);
      DecidedStep(c, s, a, k);
      InterruptFreezes(c, Next(c, s, a), run[1..], t, k);
    }
  }

  /**
   Once the flag is raised, in whatever state, the jobs that end up with a real result are exactly
   those a worker had already looked at; all the others come back marked as breaks.
   */
  lemma {:induction false} InterruptTheorem(
    c: Config, before: seq<Action>, s: State, after: seq<Action>, t: State, k: Job)
    requires ValidConfig(c) && Reaches(c, Init(c), before, s) && s.threadExit
    requires Reaches(c, s, after, t) && Done(c, t)
    ensures Sum(t.output + t.collected, AsDecided(k)) == Decided(s, k)
  {
    ReachableInv(c, before, s);
    InterruptFreezes(c, s, after, t, k);
    PoolAtEnd(t, AsDecided(k), DecidedBy(k));
  }
}
