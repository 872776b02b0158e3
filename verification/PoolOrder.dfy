/**
 The order of jobs in the worker pool of test.py: both queues are first in, first out, and with one
 worker the results are collected in the order of the plan.
 */
module PoolOrder {
  import opened WorkerPool

  /** The jobs that workers put on the output queue along a run, in that order. */
  ghost function Reports(c: Config, s: State, run: seq<Action>): seq<Job>
    decreases |run|
  {
    if run == [] || !Enabled(c, s, run[0]) then []
    else
      (if run[0].Report? then [s.workers[run[0].w].job] else []) + Reports(c, Next(c, s, run[0]), run[1..])
  }

  /** The jobs that workers take from the input queue along a run, in that order. */
  ghost function Takes(c: Config, s: State, run: seq<Action>): seq<Job>
    decreases |run|
  {
    if run == [] || !Enabled(c, s, run[0]) then []
    else (if run[0].Take? then [s.input[0]] else []) + Takes(c, Next(c, s, run[0]), run[1..])
  }

  lemma {:induction false} ResultsMove(c: Config, s: State, run: seq<Action>, t: State)
    requires Reaches(c, s, run, t)
    ensures t.collected + t.output == (s.collected + s.output) + Reports(c, s, run)
    decreases |run|
  {
    if run != [] {
      var a, next := run[0], Next(c, s, run[0]);
      ResultsMove(c, next, run[1..], t);
      var here := if a.Report? then [s.workers[a.w].job] else [];
      assert next.collected + next.output == (s.collected + s.output) + here;
      assert ((s.collected + s.output) + here) + Reports(c, next, run[1..]) ==
             (s.collected + s.output) + (here + Reports(c, next, run[1..]));
    }
  }

  /** Results are collected in the order in which they were reported. */
  lemma {:induction false} OutputIsFifo(c: Config, run: seq<Action>, s: State)
    requires Reaches(c, Init(c), run, s)
    ensures s.collected + s.output == Reports(c, Init(c), run)
  {
    ResultsMove(c, Init(c), run, s);
    assert [] + Reports(c, Init(c), run) == Reports(c, Init(c), run);
  }

  ghost function MarkerLine(n: nat): seq<Job> {
    if n == 0 then [] else MarkerLine(n - 1) + [MARKER]
  }

  /** What the main thread has put on the input queue. */
  ghost function Sent(c: Config, s: State): seq<Job>
    requires s.dispatched <= |c.plan|
  {
    c.plan[..s.dispatched] + MarkerLine(s.marked)
  }

  lemma {:induction false} SentStep(c: Config, s: State, a: Action, before: seq<Job>)
    requires Enabled(c, s, a) && InOrder(c, s) && Sent(c, s) == before + s.input
    ensures InOrder(c, Next(c, s, a))
    ensures Sent(c, Next(c, s, a)) == (before + if a.Take? then [s.input[0]] else []) + Next(c, s, a).input
  {
    OrderStep(c, s, a);
    var t, d := Next(c, s, a), s.dispatched;
    var here := if a.Take? then [s.input[0]] else [];
    if a.Dispatch? {
      assert s.marked == 0 && c.plan[..d + 1] == c.plan[..d] + [c.plan[d]];
      Pieces(before, s.input, [c.plan[d]], c.plan[..d], MarkerLine(0));
    } else if a.Mark? {
      Pieces(before, s.input, [MARKER], c.plan[..d], MarkerLine(s.marked));
    } else if a.Take? {
      assert s.input == here + t.input;
      assert before + (here + t.input) == (before + here) + t.input;
    } else {
      assert before + [] == before;
    }
  }

  lemma Pieces(before: seq<Job>, input: seq<Job>, x: seq<Job>, jobs: seq<Job>, markers: seq<Job>)
    requires jobs + markers == before + input
    ensures jobs + (markers + x) == (before + []) + (input + x)
    ensures markers == [] ==> (jobs + x) + markers == (before + []) + (input + x)
  {
    assert jobs + (markers + x) == (jobs + markers) + x;
    assert (before + input) + x == before + (input + x);
  }

  lemma {:induction false} JobsMove(c: Config, s: State, run: seq<Action>, t: State, before: seq<Job>)
    requires Reaches(c, s, run, t) && InOrder(c, s) && Sent(c, s) == before + s.input
    ensures InOrder(c, t) && Sent(c, t) == before + Takes(c, s, run) + t.input
    decreases |run|
  {
    if run == [] {
      assert before + [] == before;
    } else {
      var a, next := run[0], Next(c, s, run[0]);
      var here := if a.Take? then [s.input[0]] else [];
      SentStep(c, s, a, before);
      JobsMove(c, next, run[1..], t, before + here);
      assert (before + here) + Takes(c, next, run[1..]) == before + (here + Takes(c, next, run[1..]));
    }
  }

  /** Jobs are taken in the order of the plan, and all markers after them. */
  lemma {:induction false} InputIsFifo(c: Config, run: seq<Action>, s: State)
    requires Reaches(c, Init(c), run, s)
    ensures s.dispatched <= |c.plan|
    ensures Takes(c, Init(c), run) + s.input == c.plan[..s.dispatched] + MarkerLine(s.marked)
  {
    InitInv(c);
    assert c.plan[..0] == [];
    JobsMove(c, Init(c), run, s, []);
    assert [] + Takes(c, Init(c), run) == Takes(c, Init(c), run);
  }

  // ---------------------------------------------------------------- one worker

  lemma {:induction false} IdentitiesConcat(a: seq<Job>, b: seq<Job>)
    ensures Identities(a + b) == Identities(a) + Identities(b)
  {
  }

  lemma IdentitiesOne(job: Job)
    ensures Identities([job]) == [Identity(job)]
  {
  }

  /** All jobs of the pool with one worker, from the first collected one to the last in the queue. */
  ghost function Line(s: State): seq<Job>
    requires Sorted(s)
  {
    Identities(s.collected + s.output) + (Identities(HeldJobs(s.workers)) + Queued(s))
  }

  lemma {:induction false} HeldByOne(w: Worker)
    ensures HeldJobs([w]) == if (w.Holding? && !w.job.isBreak) || w.Running? || w.Reporting? then [w.job] else []
  {
    assert [w][1..] == [];
  }

  /** The identity of the job in the hands of a worker, if it has one. */
  ghost function Held(w: Worker): seq<Job> {
    if (w.Holding? && !w.job.isBreak) || w.Running? || w.Reporting? then [Identity(w.job)] else []
  }

  lemma {:induction false} HeldIs(w: Worker)
    ensures Identities(HeldJobs([w])) == Held(w)
  {
    HeldByOne(w);
    if Held(w) != [] {
      IdentitiesOne(w.job);
    }
  }

  /** What one step does to the job of the only worker. */
  lemma {:induction false} HeldChanges(c: Config, s: State, a: Action)
    requires Enabled(c, s, a) && InOrder(c, s) && Sorted(s) && Sound(s) && c.workers == 1
    ensures |Next(c, s, a).workers| == 1
    ensures var held, held' := Held(s.workers[0]), Held(Next(c, s, a).workers[0]);
            && (a.Take? && Queued(s) != [] ==> held == [] && held' == [Queued(s)[0]])
            && (a.Report? ==> held == [Identity(s.workers[0].job)] && held' == [])
            && (!a.Report? && !(a.Take? && Queued(s) != []) ==> held' == held)
  {
    assert SoundWorker(s.workers[0], s.threadExit);
    if a.Take? {
      HeadOfQueue(s);
    }
  }

  lemma {:induction false} HeldMoves(c: Config, s: State, a: Action)
    requires Enabled(c, s, a) && InOrder(c, s) && Sorted(s) && Sound(s) && c.workers == 1
    ensures var held, held' := Identities(HeldJobs(s.workers)), Identities(HeldJobs(Next(c, s, a).workers));
            && (a.Take? && Queued(s) != [] ==> held == [] && held' == [Queued(s)[0]])
            && (a.Report? ==> held == [Identity(s.workers[0].job)] && held' == [])
            && (!a.Report? && !(a.Take? && Queued(s) != []) ==> held' == held)
  {
    HeldChanges(c, s, a);
    var w, w' := s.workers[0], Next(c, s, a).workers[0];
    assert s.workers == [w] && Next(c, s, a).workers == [w'];
    HeldIs(w);
    HeldIs(w');
  }

  lemma {:induction false} ResultsStep(c: Config, s: State, a: Action)
    requires Enabled(c, s, a)
    ensures var t := Next(c, s, a);
            Identities(t.collected + t.output) ==
            Identities(s.collected + s.output) + if a.Report? then [Identity(s.workers[a.w].job)] else []
  {
    var t, results := Next(c, s, a), s.collected + s.output;
    if a.Report? {
      var job := s.workers[a.w].job;
      assert t.collected + t.output == results + [job];
      IdentitiesConcat(results, [job]);
      IdentitiesOne(job);
    } else {
      assert t.collected + t.output == results;
    }
  }

  lemma {:induction false} LineStep(c: Config, s: State, a: Action)
    requires ValidConfig(c) && Enabled(c, s, a) && c.workers == 1
    requires InOrder(c, s) && Sorted(s) && Sound(s) && NoEarlyBreak(c, s)
    ensures Sorted(Next(c, s, a))
    ensures Line(Next(c, s, a)) == Line(s) + if a.Dispatch? then [c.plan[s.dispatched]] else []
  {
    var t := Next(c, s, a);
    QueueStep(c, s, a);
    HeldMoves(c, s, a);
    ResultsStep(c, s, a);
    Regroup(Identities(s.collected + s.output), Identities(HeldJobs(s.workers)), Queued(s),
            Identities(t.collected + t.output), Identities(HeldJobs(t.workers)), Queued(t),
            if a.Dispatch? then [c.plan[s.dispatched]] else []);
  }

  /** The three pieces of the line, when something moves from one to the next or joins at the end. */
  lemma Regroup(x: seq<Job>, y: seq<Job>, z: seq<Job>, x': seq<Job>, y': seq<Job>, z': seq<Job>, last: seq<Job>)
    requires
      || (x' == x && y' == y && z' == z + last)
      || (x' == x + y && y' == [] && z' == z && last == [])
      || (x' == x && y == [] && z != [] && y' == [z[0]] && z' == z[1..] && last == [])
    ensures x' + (y' + z') == (x + (y + z)) + last
  {
  }

  lemma {:induction false} LineIsPlan(c: Config, s: State, a: Action)
    requires ValidConfig(c) && Enabled(c, s, a) && Inv(c, s) && c.workers == 1
    requires Line(s) == c.plan[..s.dispatched]
    ensures Inv(c, Next(c, s, a)) && Line(Next(c, s, a)) == c.plan[..Next(c, s, a).dispatched]
  {
    StepInv(c, s, a);
    LineStep(c, s, a);
    if a.Dispatch? {
      var d := s.dispatched;
      assert c.plan[..d + 1] == c.plan[..d] + [c.plan[d]];
    }
  }

  lemma {:induction false} LineRun(c: Config, s: State, run: seq<Action>, t: State)
    requires ValidConfig(c) && Reaches(c, s, run, t) && Inv(c, s) && c.workers == 1
    requires Line(s) == c.plan[..s.dispatched]
    ensures Inv(c, t) && Line(t) == c.plan[..t.dispatched]
    decreases |run|
  {
    if run != [] {
      LineIsPlan(c, s, run[0]);
      LineRun(c, Next(c, s, run[0]), run[1..], t);
    }
  }

  lemma {:induction false} OneUnstarted(c: Config)
    requires c.workers == 1
    ensures Init(c).workers == [NotStarted]
  {
    assert Unstarted(1) == Unstarted(0) + [NotStarted];
  }

  lemma StartsWith(collected: seq<Job>, rest: seq<Job>, plan: seq<Job>, d: nat)
    requires d <= |plan| && collected + rest == plan[..d]
    ensures |collected| <= |plan| && collected == plan[..|collected|]
  {
    assert collected == (collected + rest)[..|collected|];
  }

  /** With one worker the collected jobs are the first jobs of the plan, in order. */
  lemma {:induction false} OneWorkerKeepsOrder(c: Config, run: seq<Action>, s: State)
    requires ValidConfig(c) && Reaches(c, Init(c), run, s) && c.workers == 1
    ensures |s.collected| <= |c.plan| && Identities(s.collected) == c.plan[..|s.collected|]
  {
    InitInv(c);
    InitSorted(c);
    OneUnstarted(c);
    HeldByOne(NotStarted);
    assert Line(Init(c)) == [] == c.plan[..0];
    LineRun(c, Init(c), run, s);
    CollectedFirst(c, s);
  }

  lemma {:induction false} CollectedFirst(c: Config, s: State)
    requires Sorted(s) && s.dispatched <= |c.plan| && Line(s) == c.plan[..s.dispatched]
    ensures |s.collected| <= |c.plan| && Identities(s.collected) == c.plan[..|s.collected|]
  {
    IdentitiesConcat(s.collected, s.output);
    var a, b, rest := Identities(s.collected), Identities(s.output), Identities(HeldJobs(s.workers)) + Queued(s);
    assert (a + b) + rest == a + (b + rest);
    StartsWith(a, b + rest, c.plan, s.dispatched);
  }
}
