/**
 The worker pool of test.py: the main thread starts the workers, dispatches every job, sends one
 break marker per worker, collects one result per job and joins the workers, while a signal may
 raise the interrupt flag at any moment.  A collected job whose result file cannot be opened or decoded
 ends the main thread in an uncaught error; the workers go on until they have taken their markers.

 The pool is an interleaving state machine.  An `Action` is one atomic step of one thread (queue
 operations are atomic, and the flag is read once per job), `Enabled` says when a thread can take
 it, and `Next` gives the state it leads to.  A run is any sequence of enabled actions.
 */
module WorkerPool {

  /**
   What the collector finds when it reads the result file of a test suite: no file it can open, bytes
   that are not UTF-8, text without a readable verdict, or the text of the verdict.
   */
  datatype ResultFile = Missing | Undecodable | Unparsable | Verdict(text: string)

  /** The fields of a job that the pool and the collector read or write. */
  datatype Job = Job(
    name: string, isExample: bool, isSkip: bool,
    isBreak: bool, returncode: int, file: ResultFile)

  /** The collector opens the result file of such a job, outside any exception handler. */
  predicate OpensFile(job: Job) {
    !job.isBreak && !job.isSkip && !job.isExample && 0 <= job.returncode <= 2
  }

  /** The file cannot be opened or decoded; the error leaves the runner, since only parsing is guarded. */
  predicate Unreadable(job: Job) {
    OpensFile(job) && (job.file == Missing || job.file == Undecodable)
  }

  ghost predicate AllReadable(jobs: seq<Job>) {
    forall i :: 0 <= i < |jobs| ==> !Unreadable(jobs[i])
  }

  const MARKER := Job("", false, false, true, 0, Missing)

  /** A job as it was dispatched, whatever happened to it since. */
  function Identity(job: Job): Job {
    job.(isBreak := false, returncode := 0, file := Missing)
  }

  predicate Fresh(job: Job) {
    Identity(job) == job
  }

  datatype Worker =
    | NotStarted
    | Waiting             // blocked on, or about to call, input_queue.get()
    | Holding(job: Job)   // has a job, has not looked at it yet
    | Running(job: Job)   // inside run_job_synchronously
    | Reporting(job: Job) // about to call output_queue.put(job)
    | Exited

  /** The planned jobs, in dispatch order, and the number of worker threads. */
  datatype Config = Config(plan: seq<Job>, workers: nat)

  ghost predicate ValidConfig(c: Config) {
    forall job <- c.plan :: Fresh(job)
  }

  datatype State = State(
    started: nat, dispatched: nat, marked: nat, joined: nat, // progress of the main thread
    input: seq<Job>, output: seq<Job>, collected: seq<Job>,
    workers: seq<Worker>, threadExit: bool, failed: bool)    // failed: the main thread died collecting

  datatype Action =
    | Start | Dispatch | Mark | Collect | Join // main thread
    | Interrupt                                // signal handler
    | Take(w: nat) | Decide(w: nat) | Return(w: nat, code: int, file: ResultFile) | Report(w: nat)

  function Unstarted(n: nat): (ws: seq<Worker>)
    ensures |ws| == n && forall i :: 0 <= i < n ==> ws[i] == NotStarted
  {
    if n == 0 then [] else Unstarted(n - 1) + [NotStarted]
  }

  function Init(c: Config): State {
    State(0, 0, 0, 0, [], [], [], Unstarted(c.workers), false, false)
  }

  /** The main thread has left run_tests' final join loop. */
  predicate Finished(c: Config, s: State) {
    && s.started == c.workers && s.dispatched == |c.plan| && s.marked == c.workers
    && |s.collected| == |c.plan| && s.joined == c.workers && !s.failed
  }

  /** The main thread has left run_tests, by returning or by an uncaught error. */
  predicate Ended(c: Config, s: State) {
    Finished(c, s) || s.failed
  }

  /** The main thread has left run_tests and every worker has exited. */
  ghost predicate Done(c: Config, s: State) {
    Ended(c, s) && forall i :: 0 <= i < |s.workers| ==> s.workers[i] == Exited
  }

  predicate ByMain(a: Action) {
    a.Start? || a.Dispatch? || a.Mark? || a.Collect? || a.Join?
  }

  predicate Enabled(c: Config, s: State, a: Action) {
    && (ByMain(a) ==> !s.failed)
    && match a
       case Start => s.started < c.workers && s.started < |s.workers|
       case Dispatch => c.workers <= s.started && s.dispatched < |c.plan|
       case Mark => c.workers <= s.started && |c.plan| <= s.dispatched && s.marked < c.workers
       case Collect => c.workers <= s.marked && |c.plan| <= s.dispatched && |s.collected| < |c.plan| && s.output != []
       case Join =>
         && c.workers <= s.marked && |c.plan| <= s.dispatched && |c.plan| <= |s.collected|
         && s.joined < c.workers && s.joined < |s.workers| && s.workers[s.joined] == Exited
       case Interrupt => !s.threadExit
       case Take(w) => w < |s.workers| && s.workers[w] == Waiting && s.input != []
       case Decide(w) => w < |s.workers| && s.workers[w].Holding?
       case Return(w, _, _) => w < |s.workers| && s.workers[w].Running?
       case Report(w) => w < |s.workers| && s.workers[w].Reporting?
  }

  /** What a worker does with the job it holds, given the flag it reads. */
  function Decision(job: Job, threadExit: bool): Worker {
    if job.isBreak then Exited
    else if threadExit then Reporting(job.(isBreak := true))
    else if job.isSkip then Reporting(job)
    else Running(job)
  }

  function Next(c: Config, s: State, a: Action): State
    requires Enabled(c, s, a)
  {
    match a
    case Start => s.(started := s.started + 1, workers := s.workers[s.started := Waiting])
    case Dispatch => s.(dispatched := s.dispatched + 1, input := s.input + [c.plan[s.dispatched]])
    case Mark => s.(marked := s.marked + 1, input := s.input + [MARKER])
    case Collect =>
      s.(output := s.output[1..], collected := s.collected + [s.output[0]], failed := Unreadable(s.output[0]))
    case Join => s.(joined := s.joined + 1)
    case Interrupt => s.(threadExit := true)
    case Take(w) => s.(input := s.input[1..], workers := s.workers[w := Holding(s.input[0])])
    case Decide(w) => s.(workers := s.workers[w := Decision(s.workers[w].job, s.threadExit)])
    case Return(w, code, file) =>
      s.(workers := s.workers[w := Reporting(s.workers[w].job.(returncode := code, file := file))])
    case Report(w) => s.(output := s.output + [s.workers[w].job], workers := s.workers[w := Waiting])
  }

  /** The actions `run` are taken one after the other from `s` and lead to `t`. */
  ghost predicate Reaches(c: Config, s: State, run: seq<Action>, t: State)
    decreases |run|
  {
    if run == [] then s == t
    else Enabled(c, s, run[0]) && Reaches(c, Next(c, s, run[0]), run[1..], t)
  }

  // ---------------------------------------------------------------- sums over queues and workers

  ghost function Sum<T>(xs: seq<T>, f: T -> nat): nat {
    if xs == [] then 0 else f(xs[0]) + Sum(xs[1..], f)
  }

  lemma {:induction false} SumConcat<T>(a: seq<T>, b: seq<T>, f: T -> nat)
    ensures Sum(a + b, f) == Sum(a, f) + Sum(b, f)
  {
    if a == [] {
      assert a + b == b;
    } else {
      assert (a + b)[1..] == a[1..] + b;
      SumConcat(a[1..], b, f);
    }
  }

  lemma {:induction false} SumAppend<T>(xs: seq<T>, x: T, f: T -> nat)
    ensures Sum(xs + [x], f) == Sum(xs, f) + f(x)
  {
    SumConcat(xs, [x], f);
    assert Sum([x], f) == f(x) + Sum([x][1..], f);
  }

  lemma {:induction false} SumUpdate<T>(xs: seq<T>, f: T -> nat, i: nat, x: T)
    requires i < |xs|
    ensures Sum(xs[i := x], f) + f(xs[i]) == Sum(xs, f) + f(x)
  {
    if i > 0 {
      assert xs[i := x][1..] == xs[1..][i - 1 := x];
      SumUpdate(xs[1..], f, i - 1, x);
    } else {
      assert xs[i := x][1..] == xs[1..];
    }
  }

  /** With at most one unit per element, the extreme totals tell what every element contributes. */
  lemma {:induction false} SumExtremes<T>(xs: seq<T>, f: T -> nat)
    requires forall i :: 0 <= i < |xs| ==> f(xs[i]) <= 1
    ensures Sum(xs, f) <= |xs|
    ensures Sum(xs, f) == |xs| <==> forall i :: 0 <= i < |xs| ==> f(xs[i]) == 1
    ensures Sum(xs, f) == 0 <==> forall i :: 0 <= i < |xs| ==> f(xs[i]) == 0
  {
    if xs != [] {
      SumExtremes(xs[1..], f);
      assert forall i :: 0 < i < |xs| ==> xs[i] == xs[1..][i - 1];
    }
  }

  // How many times the dispatched job `k` is counted for a job in a queue, or for a worker.
  ghost function AsDispatched(k: Job): Job -> nat {
    (job: Job) => if Identity(job) == k then 1 else 0
  }
  ghost function HeldBy(k: Job): Worker -> nat {
    (w: Worker) =>
      if ((w.Holding? && !w.job.isBreak) || w.Running? || w.Reporting?) && Identity(w.job) == k then 1 else 0
  }

  /** Counted only if the worker looked at the job before the interrupt: it was then run or skipped. */
  ghost function AsDecided(k: Job): Job -> nat {
    (job: Job) => if !job.isBreak && Identity(job) == k then 1 else 0
  }
  ghost function DecidedBy(k: Job): Worker -> nat {
    (w: Worker) =>
      if (w.Running? || w.Reporting?) && !w.job.isBreak && Identity(w.job) == k then 1 else 0
  }

  /** Counted only if it is the very result `k` of a job run. */
  ghost function AsRan(k: Job): Job -> nat {
    (job: Job) => if job == k && !job.isBreak && !job.isSkip then 1 else 0
  }
  ghost function RanBy(k: Job): Worker -> nat {
    (w: Worker) => if w.Reporting? && w.job == k && !w.job.isBreak && !w.job.isSkip then 1 else 0
  }

  /** A quantity summed over the workers, the output queue and the collected results. */
  ghost function Pool(s: State, fj: Job -> nat, fw: Worker -> nat): nat {
    Sum(s.workers, fw) + Sum(s.output, fj) + Sum(s.collected, fj)
  }

  /** The worker whose state the action changes, or no worker. */
  ghost function Acting(s: State, a: Action): nat {
    if a.Start? then s.started
    else if a.Take? || a.Decide? || a.Return? || a.Report? then a.w
    else |s.workers|
  }

  /** Only the acting worker changes what the pool holds; reporting and collecting move it along. */
  lemma {:induction false} PoolStep(c: Config, s: State, a: Action, fj: Job -> nat, fw: Worker -> nat)
    requires Enabled(c, s, a)
    requires fw(Waiting) == 0
    requires forall job :: fw(Reporting(job)) == fj(job)
    ensures var t := Next(c, s, a); var i := Acting(s, a);
            && |t.workers| == |s.workers|
            && Pool(t, fj, fw) - Pool(s, fj, fw) ==
               if i < |s.workers| && !a.Report? then fw(t.workers[i]) - fw(s.workers[i]) else 0
  {
    var t := Next(c, s, a);
    var i := Acting(s, a);
    if i < |s.workers| {
      assert t.workers == s.workers[i := t.workers[i]];
      SumUpdate(s.workers, fw, i, t.workers[i]);
      if a.Report? {
        SumAppend(s.output, s.workers[i].job, fj);
      }
    } else if a.Collect? {
      SumAppend(s.collected, s.output[0], fj);
    }
  }

  // ---------------------------------------------------------------- the invariant

  /** 1 for a worker that has taken its break marker, 0 for any other. */
  ghost function Broke(w: Worker): nat {
    if w == Exited || (w.Holding? && w.job.isBreak) then 1 else 0
  }

  /** The number of break markers still in the input queue. */
  ghost function Markers(s: State): int {
    s.marked - Sum(s.workers, Broke)
  }

  /** The program order of the main thread. */
  ghost predicate InOrder(c: Config, s: State) {
    && |s.workers| == c.workers
    && s.started <= c.workers && s.dispatched <= |c.plan| && s.marked <= c.workers
    && |s.collected| <= |c.plan| && s.joined <= c.workers
    && (s.dispatched > 0 || s.marked > 0 ==> s.started == c.workers)
    && (s.marked > 0 ==> s.dispatched == |c.plan|)
    && (s.collected != [] || s.joined > 0 ==> s.marked == c.workers && s.dispatched == |c.plan|)
    && (s.joined > 0 ==> |s.collected| == |c.plan|)
    && (forall i :: 0 <= i < c.workers ==> (s.workers[i] == NotStarted <==> s.started <= i))
    && (forall i :: 0 <= i < s.joined ==> s.workers[i] == Exited)
    && (c.workers == 0 ==> s.output == [] && s.collected == [])
  }

  /** A queue of real jobs followed by `n` break markers. */
  ghost predicate MarkersLast(input: seq<Job>, n: int) {
    && 0 <= n <= |input|
    && (forall i :: 0 <= i < |input| - n ==> Fresh(input[i]))
    && (forall i :: |input| - n <= i < |input| ==> input[i] == MARKER)
  }

  ghost predicate Sorted(s: State) {
    MarkersLast(s.input, Markers(s))
  }

  /** The real jobs still in the input queue. */
  ghost function Queued(s: State): seq<Job>
    requires Sorted(s)
  {
    s.input[..|s.input| - Markers(s)]
  }

  /** What a reported job can carry: one that was skipped or interrupted was never run. */
  ghost predicate Reportable(job: Job, threadExit: bool) {
    && (job.isBreak ==> threadExit && job == Identity(job).(isBreak := true))
    && (job.isSkip && !job.isBreak ==> Fresh(job))
  }

  ghost predicate SoundWorker(w: Worker, threadExit: bool) {
    && (w.Holding? ==> w.job == MARKER || Fresh(w.job))
    && (w.Running? ==> Fresh(w.job) && !w.job.isSkip)
    && (w.Reporting? ==> Reportable(w.job, threadExit))
  }

  ghost predicate Sound(s: State) {
    && (forall i :: 0 <= i < |s.workers| ==> SoundWorker(s.workers[i], s.threadExit))
    && (forall i :: 0 <= i < |s.output| ==> Reportable(s.output[i], s.threadExit))
    && (forall i :: 0 <= i < |s.collected| ==> Reportable(s.collected[i], s.threadExit))
  }

  /** No break marker leaves the queue while a real job is in it or still to be dispatched. */
  ghost predicate NoEarlyBreak(c: Config, s: State)
    requires Sorted(s)
  {
    Sum(s.workers, Broke) > 0 ==> Queued(s) == [] && s.dispatched == |c.plan|
  }

  /** Job `k` is in the pool, or queued, as many times as it was dispatched. */
  ghost predicate Conserved(c: Config, s: State, k: Job)
    requires s.dispatched <= |c.plan| && Sorted(s)
  {
    Sum(c.plan[..s.dispatched], AsDispatched(k))
    == Sum(Queued(s), AsDispatched(k)) + Pool(s, AsDispatched(k), HeldBy(k))
  }

  /** The main thread is dead exactly if it collected a job it cannot read. */
  ghost predicate FailedRight(s: State) {
    s.failed <==> !AllReadable(s.collected)
  }

  ghost predicate Inv(c: Config, s: State) {
    InOrder(c, s) && FailedRight(s) && Sorted(s) && Sound(s) && NoEarlyBreak(c, s) && forall k :: Conserved(c, s, k)
  }

  lemma {:induction false} UnstartedSum(n: nat, f: Worker -> nat)
    requires f(NotStarted) == 0
    ensures Sum(Unstarted(n), f) == 0
  {
    if n > 0 {
      UnstartedSum(n - 1, f);
      SumAppend(Unstarted(n - 1), NotStarted, f);
    }
  }

  lemma {:induction false} InitSorted(c: Config)
    ensures Sorted(Init(c)) && Queued(Init(c)) == [] && NoEarlyBreak(c, Init(c))
  {
    UnstartedSum(c.workers, Broke);
  }

  lemma {:induction false} InitConserved(c: Config, k: Job)
    requires Sorted(Init(c)) && Queued(Init(c)) == []
    ensures Conserved(c, Init(c), k)
  {
    UnstartedSum(c.workers, HeldBy(k));
    assert c.plan[..0] == [];
  }

  lemma {:induction false} InitInv(c: Config)
    ensures Inv(c, Init(c))
  {
    InitSorted(c);
    forall k ensures Conserved(c, Init(c), k) {
      InitConserved(c, k);
    }
  }

  lemma {:induction false} BrokeStep(c: Config, s: State, a: Action)
    requires Enabled(c, s, a) && InOrder(c, s) && Sound(s)
    ensures Sum(Next(c, s, a).workers, Broke) ==
            Sum(s.workers, Broke) + if a.Take? && s.input[0].isBreak then 1 else 0
  {
    var t := Next(c, s, a);
    var i := Acting(s, a);
    if i < |s.workers| {
      assert t.workers == s.workers[i := t.workers[i]];
      SumUpdate(s.workers, Broke, i, t.workers[i]);
      assert SoundWorker(s.workers[i], s.threadExit);
    }
  }

  lemma {:induction false} OrderStep(c: Config, s: State, a: Action)
    requires Enabled(c, s, a) && InOrder(c, s)
    ensures InOrder(c, Next(c, s, a))
  {
  }

  lemma {:induction false} FailStep(c: Config, s: State, a: Action)
    requires Enabled(c, s, a) && FailedRight(s)
    ensures FailedRight(Next(c, s, a))
  {
    if a.Collect? {
      var jobs := s.collected + [s.output[0]];
      assert jobs[|s.collected|] == s.output[0];
      assert forall i :: 0 <= i < |s.collected| ==> jobs[i] == s.collected[i];
    }
  }

  lemma {:induction false} SoundStep(c: Config, s: State, a: Action)
    requires Enabled(c, s, a) && Sorted(s) && Sound(s)
    ensures Sound(Next(c, s, a))
  {
    if a.Take? {
      assert SoundWorker(Holding(s.input[0]), s.threadExit);
    }
  }

  lemma {:induction false} MarkersStep(c: Config, s: State, a: Action)
    requires Enabled(c, s, a) && InOrder(c, s) && Sound(s)
    ensures Markers(Next(c, s, a)) ==
            Markers(s) + (if a.Mark? then 1 else if a.Take? && s.input[0].isBreak then -1 else 0)
  {
    BrokeStep(c, s, a);
  }

  lemma {:induction false} QueueTail(input: seq<Job>, n: int)
    requires MarkersLast(input, n) && input != []
    ensures input[0].isBreak ==> MarkersLast(input[1..], n - 1) && |input| == n
    ensures !input[0].isBreak ==> MarkersLast(input[1..], n) && |input| > n
    ensures !input[0].isBreak ==> input[1..][..|input| - 1 - n] == input[..|input| - n][1..]
  {
  }

  lemma {:induction false} QueueGrows(input: seq<Job>, n: int, job: Job)
    requires MarkersLast(input, n)
    ensures n == 0 && Fresh(job) ==> MarkersLast(input + [job], 0)
    ensures MarkersLast(input + [MARKER], n + 1) && (input + [MARKER])[..|input| - n] == input[..|input| - n]
  {
  }

  lemma {:induction false} QueueStep(c: Config, s: State, a: Action)
    requires ValidConfig(c) && Enabled(c, s, a) && InOrder(c, s) && Sorted(s) && Sound(s) && NoEarlyBreak(c, s)
    ensures var t := Next(c, s, a);
            && Sorted(t) && NoEarlyBreak(c, t)
            && Queued(t) == (if a.Dispatch? then Queued(s) + [c.plan[s.dispatched]]
                             else if a.Take? && Queued(s) != [] then Queued(s)[1..]
                             else Queued(s))
  {
    MarkersStep(c, s, a);
    BrokeStep(c, s, a);
    if a.Dispatch? {
      assert Markers(s) == 0 && Fresh(c.plan[s.dispatched]);
      QueueGrows(s.input, 0, c.plan[s.dispatched]);
    } else if a.Mark? {
      QueueGrows(s.input, Markers(s), MARKER);
    } else if a.Take? {
      QueueTail(s.input, Markers(s));
    }
  }

  /** A worker neither loses nor duplicates the job it holds. */
  lemma {:induction false} HeldChange(c: Config, s: State, a: Action, k: Job)
    requires Enabled(c, s, a) && InOrder(c, s) && Acting(s, a) < |s.workers| && !a.Report?
    requires SoundWorker(s.workers[Acting(s, a)], s.threadExit)
    ensures HeldBy(k)(Next(c, s, a).workers[Acting(s, a)]) ==
            HeldBy(k)(s.workers[Acting(s, a)])
            + if a.Take? && !s.input[0].isBreak then AsDispatched(k)(s.input[0]) else 0
  {
  }

  lemma {:induction false} HeadOfQueue(s: State)
    requires Sorted(s) && s.input != []
    ensures Queued(s) != [] <==> !s.input[0].isBreak
    ensures Queued(s) != [] ==> Queued(s)[0] == s.input[0]
  {
  }

  lemma {:induction false} HeldStep(c: Config, s: State, a: Action, k: Job)
    requires Enabled(c, s, a) && InOrder(c, s) && Sorted(s) && Sound(s)
    ensures Pool(Next(c, s, a), AsDispatched(k), HeldBy(k)) ==
            Pool(s, AsDispatched(k), HeldBy(k))
            + if a.Take? && Queued(s) != [] then AsDispatched(k)(Queued(s)[0]) else 0
  {
    PoolStep(c, s, a, AsDispatched(k), HeldBy(k));
    if Acting(s, a) < |s.workers| && !a.Report? {
      HeldChange(c, s, a, k);
    }
    if a.Take? {
      HeadOfQueue(s);
    }
  }

  lemma {:induction false} PlanStep(c: Config, s: State, a: Action, f: Job -> nat)
    requires Enabled(c, s, a) && InOrder(c, s)
    ensures var t := Next(c, s, a);
            && t.dispatched <= |c.plan|
            && Sum(c.plan[..t.dispatched], f) ==
               Sum(c.plan[..s.dispatched], f) + if a.Dispatch? then f(c.plan[s.dispatched]) else 0
  {
    if a.Dispatch? {
      assert c.plan[..s.dispatched + 1] == c.plan[..s.dispatched] + [c.plan[s.dispatched]];
      SumAppend(c.plan[..s.dispatched], c.plan[s.dispatched], f);
    }
  }

  lemma {:induction false} QueuedStep(q: seq<Job>, q': seq<Job>, a: Action, job: Job, f: Job -> nat)
    requires q' == if a.Dispatch? then q + [job] else if a.Take? && q != [] then q[1..] else q
    ensures Sum(q', f) + (if a.Take? && q != [] then f(q[0]) else 0) ==
            Sum(q, f) + if a.Dispatch? then f(job) else 0
  {
    if a.Dispatch? {
      SumAppend(q, job, f);
    }
  }

  lemma {:induction false} ConservedStep(c: Config, s: State, a: Action, k: Job)
    requires ValidConfig(c) && Enabled(c, s, a) && InOrder(c, s) && Sorted(s) && Sound(s) && NoEarlyBreak(c, s)
    requires Conserved(c, s, k)
    ensures Next(c, s, a).dispatched <= |c.plan| && Sorted(Next(c, s, a)) && Conserved(c, Next(c, s, a), k)
  {
    var t := Next(c, s, a);
    var f := AsDispatched(k);
    QueueStep(c, s, a);
    PlanStep(c, s, a, f);
    HeldStep(c, s, a, k);
    QueuedStep(Queued(s), Queued(t), a, if a.Dispatch? then c.plan[s.dispatched] else MARKER, f);
    assert Sum(c.plan[..t.dispatched], f) == Sum(Queued(t), f) + Pool(t, f, HeldBy(k));
  }

  lemma {:induction false} StepInv(c: Config, s: State, a: Action)
    requires ValidConfig(c) && Enabled(c, s, a) && Inv(c, s)
    ensures Inv(c, Next(c, s, a))
  {
    OrderStep(c, s, a);
    FailStep(c, s, a);
    SoundStep(c, s, a);
    QueueStep(c, s, a);
    forall k ensures Conserved(c, Next(c, s, a), k) {
      ConservedStep(c, s, a, k);
    }
  }

  lemma {:induction false} RunInv(c: Config, s: State, run: seq<Action>, t: State)
    requires ValidConfig(c) && Inv(c, s) && Reaches(c, s, run, t)
    ensures Inv(c, t)
    decreases |run|
  {
    if run != [] {
      StepInv(c, s, run[0]);
      RunInv(c, Next(c, s, run[0]), run[1..], t);
    }
  }

  lemma {:induction false} ReachableInv(c: Config, run: seq<Action>, s: State)
    requires ValidConfig(c) && Reaches(c, Init(c), run, s)
    ensures Inv(c, s)
  {
    InitInv(c);
    RunInv(c, Init(c), run, s);
  }

  // ---------------------------------------------------------------- conservation

  ghost function Identities(jobs: seq<Job>): (r: seq<Job>)
    ensures |r| == |jobs| && forall i :: 0 <= i < |jobs| ==> r[i] == Identity(jobs[i])
  {
    if jobs == [] then [] else [Identity(jobs[0])] + Identities(jobs[1..])
  }

  /** The real jobs in the hands of the workers. */
  ghost function HeldJobs(ws: seq<Worker>): seq<Job> {
    if ws == [] then []
    else (if (ws[0].Holding? && !ws[0].job.isBreak) || ws[0].Running? || ws[0].Reporting?
          then [ws[0].job] else []) + HeldJobs(ws[1..])
  }

  lemma {:induction false} CountFirst(x: Job, rest: seq<Job>, k: Job)
    ensures multiset([x] + rest)[k] == (if x == k then 1 else 0) + multiset(rest)[k]
  {
    assert multiset([x] + rest) == multiset{x} + multiset(rest);
  }

  lemma {:induction false} CountIdentities(jobs: seq<Job>, k: Job)
    ensures multiset(Identities(jobs))[k] == Sum(jobs, AsDispatched(k))
  {
    if jobs != [] {
      CountIdentities(jobs[1..], k);
      CountFirst(Identity(jobs[0]), Identities(jobs[1..]), k);
    }
  }

  lemma {:induction false} CountHeld(ws: seq<Worker>, k: Job)
    ensures Sum(HeldJobs(ws), AsDispatched(k)) == Sum(ws, HeldBy(k))
  {
    if ws != [] {
      CountHeld(ws[1..], k);
      var w := ws[0];
      if (w.Holding? && !w.job.isBreak) || w.Running? || w.Reporting? {
        assert HeldJobs(ws) == [w.job] + HeldJobs(ws[1..]);
        assert HeldJobs(ws)[1..] == HeldJobs(ws[1..]);
      } else {
        assert HeldJobs(ws) == HeldJobs(ws[1..]);
      }
    }
  }

  /** Every job of the pool, wherever it is. */
  ghost function Everywhere(s: State): seq<Job>
    requires Sorted(s)
  {
    Queued(s) + (HeldJobs(s.workers) + (s.output + s.collected))
  }

  lemma {:induction false} SumEverywhere(s: State, k: Job)
    requires Sorted(s)
    ensures Sum(Everywhere(s), AsDispatched(k)) ==
            Sum(Queued(s), AsDispatched(k)) + Pool(s, AsDispatched(k), HeldBy(k))
  {
    var f := AsDispatched(k);
    SumConcat(Queued(s), HeldJobs(s.workers) + (s.output + s.collected), f);
    SumConcat(HeldJobs(s.workers), s.output + s.collected, f);
    SumConcat(s.output, s.collected, f);
    CountHeld(s.workers, k);
  }

  lemma {:induction false} FreshIdentities(jobs: seq<Job>)
    requires forall i :: 0 <= i < |jobs| ==> Fresh(jobs[i])
    ensures Identities(jobs) == jobs
  {
  }

  lemma {:induction false} SameCounts(a: seq<Job>, b: seq<Job>)
    requires forall k :: multiset(a)[k] == multiset(b)[k]
    ensures multiset(a) == multiset(b)
  {
  }

  lemma {:induction false} InvConserves(c: Config, s: State)
    requires ValidConfig(c) && Inv(c, s)
    ensures multiset(Identities(Everywhere(s))) == multiset(c.plan[..s.dispatched])
  {
    var all, sent := Everywhere(s), c.plan[..s.dispatched];
    assert forall i :: 0 <= i < |sent| ==> sent[i] in c.plan;
    FreshIdentities(sent);
    forall k ensures multiset(Identities(all))[k] == multiset(sent)[k] {
      assert Conserved(c, s, k);
      SumEverywhere(s, k);
      CountIdentities(all, k);
      CountIdentities(sent, k);
    }
    SameCounts(Identities(all), sent);
  }

  /**
   In every reachable state the dispatched jobs are, as a multiset, exactly those in the input
   queue, in the hands of a worker, in the output queue or collected.
   */
  lemma {:induction false} Conservation(c: Config, run: seq<Action>, s: State)
    requires ValidConfig(c) && Reaches(c, Init(c), run, s)
    ensures s.dispatched <= |c.plan| && Sorted(s)
    ensures multiset(Identities(Everywhere(s))) == multiset(c.plan[..s.dispatched])
  {
    ReachableInv(c, run, s);
    InvConserves(c, s);
  }

  /**
   In every reachable state the input queue holds real jobs and then break markers, and a worker
   that has taken a break marker finds every real job dispatched and taken.
   */
  lemma {:induction false} BreaksComeLast(c: Config, run: seq<Action>, s: State, w: nat)
    requires ValidConfig(c) && Reaches(c, Init(c), run, s)
    requires w < |s.workers| && (s.workers[w] == Exited || s.workers[w] == Holding(MARKER))
    ensures s.dispatched == |c.plan| && forall job <- s.input :: job == MARKER
  {
    ReachableInv(c, run, s);
    SumExtremes(s.workers, Broke);
    assert Broke(s.workers[w]) == 1;
  }

  /** A job is reported as interrupted only after the flag was raised, and it was then never run. */
  lemma {:induction false} InterruptedJobsDidNotRun(c: Config, run: seq<Action>, s: State, job: Job)
    requires ValidConfig(c) && Reaches(c, Init(c), run, s) && job in s.collected
    ensures job.isBreak ==> s.threadExit && job == Identity(job).(isBreak := true)
    ensures !job.isBreak && job.isSkip ==> Fresh(job)
  {
    ReachableInv(c, run, s);
    var i :| 0 <= i < |s.collected| && s.collected[i] == job;
    assert Reportable(s.collected[i], s.threadExit);
  }
}
