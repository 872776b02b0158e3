/**
 The result accounting of test.py: what the main thread counts and records for each collected job,
 and the exit code it derives from the counts.
 */
module TestReport {
  import opened WorkerPool
  import opened PoolRuns

  /** What the collector makes of a job; the source prints it but does not count `Interrupted`. */
  datatype Status = Interrupted | Skipped | Passed | Failed | Valgrind | Crashed

  function StatusOf(job: Job): Status {
    if job.isBreak then Interrupted
    else if job.isSkip then Skipped
    else match job.returncode
      case 0 => Passed
      case 1 => Failed
      case 2 => Valgrind
      case _ => Crashed
  }

  predicate FileSaysGood(job: Job) {
    OpensFile(job) && job.file.Verdict? && (job.file.text == "PASS" || job.file.text == "SKIP")
  }

  datatype Summary = Summary(
    passed: nat, failed: nat, valgrind: nat, crashed: nat, skipped: nat, failedJobs: seq<Job>)

  /** Either the summary and exit code of a run, or the uncaught error of an unreadable result file. */
  datatype Report = Completed(summary: Summary, exitCode: int) | UncaughtError

  ghost function Count(jobs: seq<Job>, status: Status): nat {
    if jobs == [] then 0
    else Count(jobs[..|jobs| - 1], status) + One(jobs[|jobs| - 1], status)
  }

  function One(job: Job, status: Status): nat {
    if StatusOf(job) == status then 1 else 0
  }

  /** How many entries of failed_jobs a job leaves behind. */
  function Failures(job: Job): nat {
    if job.isBreak || job.isSkip then 0
    else (if job.returncode != 0 then 1 else 0) + (if !job.isExample && !FileSaysGood(job) then 1 else 0)
  }

  ghost function Copies(n: nat, job: Job): seq<Job> {
    if n == 0 then [] else Copies(n - 1, job) + [job]
  }

  lemma {:induction false} FewCopies(job: Job)
    ensures Copies(0, job) == [] && Copies(1, job) == [job] && Copies(2, job) == [job, job]
  {
    assert Copies(1, job) == Copies(0, job) + [job];
    assert Copies(2, job) == Copies(1, job) + [job];
  }

  ghost function FailedList(jobs: seq<Job>): seq<Job> {
    if jobs == [] then []
    else
      var last := jobs[|jobs| - 1];
      FailedList(jobs[..|jobs| - 1]) + Copies(Failures(last), last)
  }

  ghost function SummaryOf(jobs: seq<Job>): Summary {
    Summary(Count(jobs, Passed), Count(jobs, Failed), Count(jobs, Valgrind), Count(jobs, Crashed),
            Count(jobs, Skipped), FailedList(jobs))
  }

  /** What the runner makes of the collected jobs. */
  ghost function ReportOf(jobs: seq<Job>, totalTests: nat): Report {
    if !AllReadable(jobs) then UncaughtError
    else Completed(SummaryOf(jobs), if Count(jobs, Passed) + Count(jobs, Skipped) == totalTests then 0 else 1)
  }

  ghost predicate ReturnsZero(r: Report) {
    r.Completed? && r.exitCode == 0
  }

  /**
   What the body of the collection loop does with one job: it appends the job to failed_jobs before
   it looks at the result and takes it off again if the result is good.
   */
  method RecordJob(job: Job, sum: Summary) returns (error: bool, r: Summary)
    ensures error <==> Unreadable(job)
    ensures !error ==> r == Summary(
        sum.passed + One(job, Passed), sum.failed + One(job, Failed), sum.valgrind + One(job, Valgrind),
        sum.crashed + One(job, Crashed), sum.skipped + One(job, Skipped),
        sum.failedJobs + Copies(Failures(job), job))
  {
    FewCopies(job);
    error, r := false, sum;
    if job.isBreak {
      return;
    }
    var failedJobs := sum.failedJobs;
    if job.isSkip {
      r := r.(skipped := r.skipped + 1);
    } else {
      failedJobs := failedJobs + [job];
      if job.returncode == 0 {
        r := r.(passed := r.passed + 1);
        failedJobs := failedJobs[..|failedJobs| - 1];
      } else if job.returncode == 1 {
        r := r.(failed := r.failed + 1);
      } else if job.returncode == 2 {
        r := r.(valgrind := r.valgrind + 1);
      } else {
        r := r.(crashed := r.crashed + 1);
      }
    }
    if !job.isExample && !job.isSkip {
      failedJobs := failedJobs + [job];
      if job.returncode == 0 || job.returncode == 1 || job.returncode == 2 {
        if job.file == Missing || job.file == Undecodable {
          return true, r;
        }
        if job.file.Verdict? && (job.file.text == "PASS" || job.file.text == "SKIP") {
          failedJobs := failedJobs[..|failedJobs| - 1];
        }
      }
    }
    r := r.(failedJobs := failedJobs);
  }

  /** The collection loop over the jobs in the order the output queue gave them, and the final verdict. */
  method CollectResults(jobs: seq<Job>, totalTests: nat) returns (r: Report)
    ensures r == ReportOf(jobs, totalTests)
  {
    var sum := Summary(0, 0, 0, 0, 0, []);
    for i := 0 to |jobs|
      invariant forall k :: 0 <= k < i ==> !Unreadable(jobs[k])
      invariant sum == SummaryOf(jobs[..i])
    {
      assert jobs[..i + 1][..i] == jobs[..i];
      var error;
      error, sum := RecordJob(jobs[i], sum);
      if error {
        return UncaughtError;
      }
    }
    assert jobs[..|jobs|] == jobs;
    r := Completed(sum, if sum.passed + sum.skipped == totalTests then 0 else 1);
  }

  /** Every collected job is accounted for exactly once. */
  lemma {:induction false} CountsPartition(jobs: seq<Job>)
    ensures Count(jobs, Passed) + Count(jobs, Failed) + Count(jobs, Valgrind) + Count(jobs, Crashed)
            + Count(jobs, Skipped) + Count(jobs, Interrupted) == |jobs|
  {
    if jobs != [] {
      CountsPartition(jobs[..|jobs| - 1]);
    }
  }

  lemma {:induction false} CountZero(jobs: seq<Job>, status: Status)
    ensures Count(jobs, status) == 0 <==> forall i :: 0 <= i < |jobs| ==> StatusOf(jobs[i]) != status
  {
    if jobs != [] {
      CountZero(jobs[..|jobs| - 1], status);
    }
  }

  lemma {:induction false} CountsIffAllGood(jobs: seq<Job>)
    ensures Count(jobs, Passed) + Count(jobs, Skipped) == |jobs| <==>
            forall i :: 0 <= i < |jobs| ==> !jobs[i].isBreak && (jobs[i].isSkip || jobs[i].returncode == 0)
  {
    CountsPartition(jobs);
    CountZero(jobs, Failed);
    CountZero(jobs, Valgrind);
    CountZero(jobs, Crashed);
    CountZero(jobs, Interrupted);
  }

  /** The job was skipped, or it ran and left nothing to complain about. */
  ghost predicate Good(job: Job) {
    !job.isBreak && (job.isSkip || (job.returncode == 0 && !Unreadable(job)))
  }

  /**
   The success condition of the runner when the pool has finished: every job was skipped, or returned
   0 and did not leave an unreadable result file, and none was interrupted.
   */
  lemma {:induction false} ZeroIffAllGood(c: Config, s: State)
    requires Finished(c, s)
    ensures ReturnsZero(ReportOf(s.collected, |c.plan|)) <==>
            forall i :: 0 <= i < |s.collected| ==> Good(s.collected[i])
  {
    CountsIffAllGood(s.collected);
  }

  ghost function Occurrences(jobs: seq<Job>, job: Job): nat {
    if jobs == [] then 0 else Occurrences(jobs[..|jobs| - 1], job) + if jobs[|jobs| - 1] == job then 1 else 0
  }

  lemma {:induction false} OccurrencesConcat(a: seq<Job>, b: seq<Job>, job: Job)
    ensures Occurrences(a + b, job) == Occurrences(a, job) + Occurrences(b, job)
  {
    if b == [] {
      assert a + b == a;
    } else {
      assert (a + b)[..|a + b| - 1] == a + b[..|b| - 1];
      OccurrencesConcat(a, b[..|b| - 1], job);
    }
  }

  lemma {:induction false} OccurrencesOfCopies(n: nat, x: Job, job: Job)
    ensures Occurrences(Copies(n, x), job) == if x == job then n else 0
  {
    if n > 0 {
      OccurrencesOfCopies(n - 1, x, job);
      assert Copies(n, x)[..|Copies(n, x)| - 1] == Copies(n - 1, x);
    }
  }

  /** failed_jobs holds each job as often as `Failures` says, for every time it was collected. */
  lemma {:induction false} FailedOccurrences(jobs: seq<Job>, job: Job)
    ensures Occurrences(FailedList(jobs), job) == Occurrences(jobs, job) * Failures(job)
  {
    if jobs != [] {
      var init, last := jobs[..|jobs| - 1], jobs[|jobs| - 1];
      FailedOccurrences(init, job);
      OccurrencesConcat(FailedList(init), Copies(Failures(last), last), job);
      OccurrencesOfCopies(Failures(last), last, job);
      OneMore(Occurrences(FailedList(jobs), job), Occurrences(FailedList(init), job), Occurrences(jobs, job),
              Occurrences(init, job), Failures(job), last == job);
    }
  }

  lemma OneMore(entries: nat, entries0: nat, times: nat, times0: nat, f: nat, same: bool)
    requires entries0 == times0 * f
    requires entries == entries0 + (if same then f else 0) && times == times0 + (if same then 1 else 0)
    ensures entries == times * f
  {
  }

  // ---------------------------------------------------------------- the report in terms of the jobs' fields

  lemma {:induction false} CountPositions(jobs: seq<Job>, status: Status, positions: set<nat>)
    requires forall i: nat {:trigger i in positions} :: i in positions <==> i < |jobs| && One(jobs[i], status) == 1
    ensures Count(jobs, status) == |positions|
  {
    if jobs == [] {
      assert positions == {};
    } else {
      var n: nat := |jobs| - 1;
      var before := positions - {n};
      CountPositions(jobs[..n], status, before);
      if n in positions {
        assert positions == before + {n};
      } else {
        assert positions == before;
      }
    }
  }

  /** The positions of the jobs that were run, of those with a given return code, and of the skipped ones. */
  ghost function Ran(jobs: seq<Job>): set<nat> {
    set i: nat | i < |jobs| && !jobs[i].isBreak && !jobs[i].isSkip
  }
  ghost function WithCode(jobs: seq<Job>, code: int): set<nat> {
    set i: nat | i in Ran(jobs) && i < |jobs| && jobs[i].returncode == code
  }
  ghost function SkippedAt(jobs: seq<Job>): set<nat> {
    set i: nat | i < |jobs| && !jobs[i].isBreak && jobs[i].isSkip
  }

  /** Each counter of a completed report is the number of collected jobs whose own fields say so. */
  lemma {:induction false} SummaryByFields(jobs: seq<Job>, totalTests: nat)
    requires ReportOf(jobs, totalTests).Completed?
    ensures var r := ReportOf(jobs, totalTests).summary;
            && r.skipped == |SkippedAt(jobs)| && r.passed == |WithCode(jobs, 0)|
            && r.failed == |WithCode(jobs, 1)| && r.valgrind == |WithCode(jobs, 2)|
            && r.crashed == |Ran(jobs) - WithCode(jobs, 0) - WithCode(jobs, 1) - WithCode(jobs, 2)|
  {
    CountPositions(jobs, Skipped, SkippedAt(jobs));
    CountPositions(jobs, Passed, WithCode(jobs, 0));
    CountPositions(jobs, Failed, WithCode(jobs, 1));
    CountPositions(jobs, Valgrind, WithCode(jobs, 2));
    CountPositions(jobs, Crashed, Ran(jobs) - WithCode(jobs, 0) - WithCode(jobs, 1) - WithCode(jobs, 2));
  }

  /** The report is the uncaught error exactly for an opened file that is missing or not UTF-8. */
  lemma {:induction false} ErrorByFields(jobs: seq<Job>, totalTests: nat)
    ensures ReportOf(jobs, totalTests) == UncaughtError <==>
            exists i :: 0 <= i < |jobs| && !jobs[i].isBreak && !jobs[i].isSkip && !jobs[i].isExample
                        && jobs[i].returncode in {0, 1, 2} && jobs[i].file in {Missing, Undecodable}
  {
    assert forall i :: 0 <= i < |jobs| ==>
        (Unreadable(jobs[i]) <==>
         !jobs[i].isBreak && !jobs[i].isSkip && !jobs[i].isExample
         && jobs[i].returncode in {0, 1, 2} && jobs[i].file in {Missing, Undecodable});
  }

  /** The entries of failed_jobs are those of the jobs, in the order of collection. */
  lemma {:induction false} FailedConcat(a: seq<Job>, b: seq<Job>)
    ensures FailedList(a + b) == FailedList(a) + FailedList(b)
  {
    if b == [] {
      assert a + b == a;
    } else {
      assert (a + b)[..|a + b| - 1] == a + b[..|b| - 1];
      FailedConcat(a, b[..|b| - 1]);
    }
  }

  /** What one job leaves in failed_jobs, by its fields. */
  lemma {:induction false} FailedByFields(job: Job)
    ensures FailedList([job]) ==
            if job.isBreak || job.isSkip then []
            else
              (if job.returncode != 0 then [job] else [])
              + if job.isExample || (job.returncode in {0, 1, 2} && job.file in {Verdict("PASS"), Verdict("SKIP")})
                then [] else [job]
  {
    assert [job][..0] == [];
    FewCopies(job);
  }

  // ---------------------------------------------------------------- whole runs

  /** Every job run that ended along the run returned 0 and did not leave an unreadable result file. */
  ghost predicate EveryRunGood(c: Config, run: seq<Action>) {
    forall k :: Returned(c, Init(c), run, k) > 0 ==> k.returncode == 0 && !Unreadable(k)
  }

  ghost predicate NobodyInterrupted(jobs: seq<Job>) {
    forall i :: 0 <= i < |jobs| ==> !jobs[i].isBreak
  }

  /** Only jobs that are neither skipped nor markers are run. */
  lemma {:induction false} OnlyJobsRun(c: Config, s: State, run: seq<Action>, t: State, k: Job)
    requires ValidConfig(c) && Inv(c, s) && Reaches(c, s, run, t) && Returned(c, s, run, k) > 0
    ensures !k.isBreak && !k.isSkip
    decreases |run|
  {
    var a := run[0];
    StepInv(c, s, a);
    if Gives(s, a, k) {
      assert SoundWorker(s.workers[a.w], s.threadExit);
    } else {
      OnlyJobsRun(c, Next(c, s, a), run[1..], t, k);
    }
  }

  /** The runner ends in the uncaught error exactly if the main thread died, and then a job run is to blame. */
  lemma {:induction false} UncaughtIffFailed(c: Config, run: seq<Action>, s: State)
    requires ValidConfig(c) && Reaches(c, Init(c), run, s) && Ended(c, s)
    ensures ReportOf(s.collected, |c.plan|) == UncaughtError <==> s.failed
    ensures s.failed ==> !EveryRunGood(c, run)
  {
    ReachableInv(c, run, s);
    FailsIff(c, run, s);
  }

  /**
   However the main thread ended: the runner returns 0 exactly if every job run that ended returned 0
   and did not leave an unreadable result file, and no job came back as interrupted.
   */
  lemma {:induction false} ReturnsZeroIff(c: Config, run: seq<Action>, s: State)
    requires ValidConfig(c) && Reaches(c, Init(c), run, s) && Ended(c, s)
    ensures ReturnsZero(ReportOf(s.collected, |c.plan|)) <==>
            EveryRunGood(c, run) && NobodyInterrupted(s.collected)
  {
    UncaughtIffFailed(c, run, s);
    if Finished(c, s) {
      ReachableInv(c, run, s);
      FinishedIsDone(c, s);
      FinishedZeroIff(c, run, s);
    }
  }

  lemma {:induction false} ReturnedIffCollected(c: Config, run: seq<Action>, s: State, k: Job)
    requires ValidConfig(c) && Reaches(c, Init(c), run, s) && Done(c, s) && s.output + s.collected == s.collected
    ensures Returned(c, Init(c), run, k) > 0 <==> k in s.collected && !k.isBreak && !k.isSkip
  {
    InitInv(c);
    if Returned(c, Init(c), run, k) > 0 {
      OnlyJobsRun(c, Init(c), run, s, k);
    }
    if !k.isBreak && !k.isSkip {
      ResultsAreDelivered(c, run, s, k);
      assert k in multiset(s.collected) <==> k in s.collected;
    }
  }

  lemma {:induction false} FinishedZeroIff(c: Config, run: seq<Action>, s: State)
    requires ValidConfig(c) && Reaches(c, Init(c), run, s) && Finished(c, s)
    requires Done(c, s) && s.output + s.collected == s.collected
    ensures ReturnsZero(ReportOf(s.collected, |c.plan|)) <==>
            EveryRunGood(c, run) && NobodyInterrupted(s.collected)
  {
    ZeroIffAllGood(c, s);
    forall k ensures Returned(c, Init(c), run, k) > 0 <==> k in s.collected && !k.isBreak && !k.isSkip {
      ReturnedIffCollected(c, run, s, k);
    }
    GoodIff(c, run, s.collected);
  }

  lemma {:induction false} GoodIff(c: Config, run: seq<Action>, jobs: seq<Job>)
    requires forall k :: Returned(c, Init(c), run, k) > 0 <==> k in jobs && !k.isBreak && !k.isSkip
    ensures (forall i :: 0 <= i < |jobs| ==> Good(jobs[i])) <==> EveryRunGood(c, run) && NobodyInterrupted(jobs)
  {
    if forall i :: 0 <= i < |jobs| ==> Good(jobs[i]) {
      forall k | Returned(c, Init(c), run, k) > 0 ensures k.returncode == 0 && !Unreadable(k) {
        var i :| 0 <= i < |jobs| && jobs[i] == k;
        assert Good(jobs[i]);
      }
    }
    if EveryRunGood(c, run) && NobodyInterrupted(jobs) {
      forall i | 0 <= i < |jobs| ensures Good(jobs[i]) {
        assert !jobs[i].isSkip ==> Returned(c, Init(c), run, jobs[i]) > 0;
      }
    }
  }

  // ---------------------------------------------------------------- runs without a signal

  ghost predicate NeverInterrupted(run: seq<Action>) {
    forall i :: 0 <= i < |run| ==> run[i] != Interrupt
  }

  lemma {:induction false} FlagStaysDown(c: Config, s: State, run: seq<Action>, t: State)
    requires Reaches(c, s, run, t) && NeverInterrupted(run) && !s.threadExit
    ensures !t.threadExit
    decreases |run|
  {
    if run != [] {
      assert run[0] != Interrupt;
      FlagStaysDown(c, Next(c, s, run[0]), run[1..], t);
    }
  }

  /** Without a signal the job runs alone decide, whatever the interleaving. */
  lemma {:induction false} CleanRunZeroIff(c: Config, run: seq<Action>, s: State)
    requires ValidConfig(c) && Reaches(c, Init(c), run, s) && Ended(c, s) && NeverInterrupted(run)
    ensures ReturnsZero(ReportOf(s.collected, |c.plan|)) <==> EveryRunGood(c, run)
  {
    ReturnsZeroIff(c, run, s);
    FlagStaysDown(c, Init(c), run, s);
    ReachableInv(c, run, s);
    assert forall i :: 0 <= i < |s.collected| ==> Reportable(s.collected[i], s.threadExit);
  }

  // ---------------------------------------------------------------- runs with a signal

  lemma {:induction false} DecidedAtMost(jobs: seq<Job>, k: Job)
    ensures Sum(jobs, AsDecided(k)) <= Sum(jobs, AsDispatched(k))
    ensures Sum(jobs, AsDecided(k)) == Sum(jobs, AsDispatched(k)) <==>
            forall i :: 0 <= i < |jobs| && Identity(jobs[i]) == k ==> !jobs[i].isBreak
  {
    if jobs != [] {
      DecidedAtMost(jobs[1..], k);
      assert forall i :: 0 < i < |jobs| ==> jobs[i] == jobs[1..][i - 1];
    }
  }

  lemma {:induction false} ReachesConcat(c: Config, s: State, a: seq<Action>, t: State, b: seq<Action>, u: State)
    requires Reaches(c, s, a, t) && Reaches(c, t, b, u)
    ensures Reaches(c, s, a + b, u)
    decreases |a|
  {
    if a == [] {
      assert a + b == b;
    } else {
      ReachesConcat(c, Next(c, s, a[0]), a[1..], t, b, u);
      assert (a + b)[1..] == a[1..] + b;
    }
  }

  /** When the flag goes up in state `s`, every planned job has been looked at already. */
  ghost predicate AllDecided(c: Config, s: State) {
    forall k :: Decided(s, k) == multiset(c.plan)[k]
  }

  /** Nobody ends up interrupted exactly if the flag found every planned job looked at. */
  lemma {:induction false} NobodyInterruptedIff(
    c: Config, before: seq<Action>, s: State, after: seq<Action>, t: State)
    requires ValidConfig(c) && Reaches(c, Init(c), before, s) && s.threadExit
    requires Reaches(c, s, after, t) && Finished(c, t)
    ensures NobodyInterrupted(t.collected) <==> AllDecided(c, s)
  {
    ReachableInv(c, before, s);
    RunInv(c, s, after, t);
    FinishedIsDone(c, t);
    forall k
      ensures Decided(s, k) == multiset(c.plan)[k] <==>
              forall i :: 0 <= i < |t.collected| && Identity(t.collected[i]) == k ==> !t.collected[i].isBreak
    {
      InterruptTheorem(c, before, s, after, t, k);
      CountIdentities(t.collected, k);
      DecidedAtMost(t.collected, k);
    }
    if AllDecided(c, s) {
      forall i | 0 <= i < |t.collected| ensures !t.collected[i].isBreak {
        assert Decided(s, Identity(t.collected[i])) == multiset(c.plan)[Identity(t.collected[i])];
      }
    }
  }

  /**
   A run whose flag is up in state `s` returns 0 exactly if every planned job had been looked at by
   then and every job run was good: one job not looked at makes it fail.
   */
  lemma {:induction false} InterruptedRunZeroIff(
    c: Config, before: seq<Action>, s: State, after: seq<Action>, t: State)
    requires ValidConfig(c) && Reaches(c, Init(c), before, s) && s.threadExit
    requires Reaches(c, s, after, t) && Ended(c, t)
    ensures ReturnsZero(ReportOf(t.collected, |c.plan|)) <==> EveryRunGood(c, before + after) && AllDecided(c, s)
  {
    ReachesConcat(c, Init(c), before, s, after, t);
    ReturnsZeroIff(c, before + after, t);
    UncaughtIffFailed(c, before + after, t);
    if Finished(c, t) {
      NobodyInterruptedIff(c, before, s, after, t);
    }
  }

  // ---------------------------------------------------------------- a suite that passes and stops the runner

  const SUITE := Job("suite", false, false, false, 0, Missing)
  const ONE_SUITE := Config([SUITE], 1)

  ghost predicate Leads(c: Config, s: State, a: Action, t: State) {
    Enabled(c, s, a) && t == Next(c, s, a)
  }

  lemma {:induction false} TwoSteps(c: Config, s: State, a: Action, t: State, b: Action, u: State)
    requires Leads(c, s, a, t) && Leads(c, t, b, u)
    ensures Reaches(c, s, [a, b], u)
  {
    assert [a, b][1..] == [b] && [b][1..] == [];
  }

  lemma {:induction false} OneStep(c: Config, s: State, a: Action, t: State)
    requires Leads(c, s, a, t)
    ensures Reaches(c, s, [a], t)
  {
    assert [a][1..] == [];
  }

  const READY := State(1, 1, 0, 0, [SUITE], [], [], [Waiting], false, false)
  const RETURNED := State(1, 1, 1, 0, [MARKER], [], [], [Reporting(SUITE)], false, false)
  const DEAD := State(1, 1, 1, 0, [MARKER], [], [SUITE], [Waiting], false, true)
  const SILENT_RUN := [Start, Dispatch] + ([Mark] + ([Take(0), Decide(0)] + ([Return(0, 0, Missing)]
    + [Report(0), Collect])))

  /** The suite is dispatched and run, and returns 0 without having written its file. */
  lemma {:induction false} SilentSuiteReturns(rest: seq<Action>, t: State)
    requires Reaches(ONE_SUITE, RETURNED, rest, t)
    ensures Reaches(ONE_SUITE, READY, [Mark] + ([Take(0), Decide(0)] + ([Return(0, 0, Missing)] + rest)), t)
  {
    var c, s1 := ONE_SUITE, READY.(marked := 1, input := [SUITE, MARKER]);
    var s2 := RETURNED.(workers := [Holding(SUITE)]);
    var s3 := RETURNED.(workers := [Running(SUITE)]);
    OneStep(c, READY, Mark, s1);
    TwoSteps(c, s1, Take(0), s2, Decide(0), s3);
    OneStep(c, s3, Return(0, 0, Missing), RETURNED);
    ReachesConcat(c, s3, [Return(0, 0, Missing)], RETURNED, rest, t);
    ReachesConcat(c, s1, [Take(0), Decide(0)], s3, [Return(0, 0, Missing)] + rest, t);
    ReachesConcat(c, READY, [Mark], s1, [Take(0), Decide(0)] + ([Return(0, 0, Missing)] + rest), t);
  }

  lemma {:induction false} SilentSuiteIsCollected()
    ensures Reaches(ONE_SUITE, Init(ONE_SUITE), SILENT_RUN, DEAD)
  {
    var c, s1 := ONE_SUITE, State(1, 0, 0, 0, [], [], [], [Waiting], false, false);
    TwoSteps(c, RETURNED, Report(0), RETURNED.(output := [SUITE], workers := [Waiting]), Collect, DEAD);
    SilentSuiteReturns([Report(0), Collect], DEAD);
    TwoSteps(c, Init(c), Start, s1, Dispatch, READY);
    ReachesConcat(c, Init(c), [Start, Dispatch], READY, SILENT_RUN[2..], DEAD);
  }

  /** Return code 0 is not enough: without its result file a passing suite stops the runner. */
  lemma {:induction false} PassingSuiteStopsRunner() returns (run: seq<Action>, s: State)
    ensures ValidConfig(ONE_SUITE) && Reaches(ONE_SUITE, Init(ONE_SUITE), run, s)
    ensures NeverInterrupted(run) && forall i :: 0 <= i < |run| && run[i].Return? ==> run[i].code == 0
    ensures run != [] && run[|run| - 1] == Collect && s.failed
    ensures ReportOf(s.collected, |ONE_SUITE.plan|) == UncaughtError
    ensures forall a :: ByMain(a) ==> !Enabled(ONE_SUITE, s, a)
  {
    run, s := SILENT_RUN, DEAD;
    SilentSuiteIsCollected();
    assert Unreadable(s.collected[0]);
  }
}
