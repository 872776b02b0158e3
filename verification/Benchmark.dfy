/**
 The scheduler benchmark of utils/bench-scheduler.cc: its self-rescheduling event, the runs of a
 suite, and which scheduler each run really exercises.

 The simulator is what the benchmark needs of src/core/model: a singleton that is created on first
 use with a scheduler of the type that the global value SchedulerType names, holds the pending events
 and hands them out in an order that the model leaves open.
 */
module Benchmark {

  // ---------------------------------------------------------------- one run as a state machine

  /** The times of the pending events in no particular order, the executed events, and whether the run stopped. */
  datatype Loop = Loop(pending: seq<int>, count: nat, stopped: bool)

  /** The scheduler hands out the k-th event; the callback stops the run, or schedules a new event and counts. */
  function Callback(s: Loop, total: nat, k: nat, delay: int): Loop
    requires k < |s.pending|
  {
    var rest := s.pending[..k] + s.pending[k + 1..];
    if s.count >= total then Loop(rest, s.count, true)
    else Loop(rest + [s.pending[k] + delay], s.count + 1, s.stopped)
  }

  /** The simulator hands out events: `choices` lists the event picked and the delay drawn each time. */
  ghost predicate Runs(s: Loop, total: nat, choices: seq<(nat, int)>, t: Loop)
    decreases |choices|
  {
    if choices == [] then s == t
    else
      && !s.stopped && choices[0].0 < |s.pending|
      && Runs(Callback(s, total, choices[0].0, choices[0].1), total, choices[1..], t)
  }

  ghost predicate Ended(s: Loop) {
    s.stopped || s.pending == []
  }

  /**
   Whatever events the scheduler picks and whatever delays are drawn, the population stays constant
   until the stop, and the number of callbacks determines the count.
   */
  lemma {:induction false} PopulationIsConstant(s: Loop, total: nat, choices: seq<(nat, int)>, t: Loop)
    requires Runs(s, total, choices, t) && !s.stopped && s.count <= total
    ensures !t.stopped ==> |t.pending| == |s.pending| && t.count == s.count + |choices| <= total
    ensures t.stopped ==> |t.pending| == |s.pending| - 1 && t.count == total && |choices| == total - s.count + 1
    decreases |choices|
  {
    if choices != [] {
      var next := Callback(s, total, choices[0].0, choices[0].1);
      if next.stopped {
        assert choices[1..] == [];
      } else {
        PopulationIsConstant(next, total, choices[1..], t);
      }
    }
  }

  ghost function Total(xs: seq<int>): int {
    if xs == [] then 0 else Total(xs[..|xs| - 1]) + xs[|xs| - 1]
  }

  lemma {:induction false} TotalConcat(a: seq<int>, b: seq<int>)
    ensures Total(a + b) == Total(a) + Total(b)
  {
    if b == [] {
      assert a + b == a;
    } else {
      assert (a + b)[..|a + b| - 1] == a + b[..|b| - 1];
      TotalConcat(a, b[..|b| - 1]);
    }
  }

  ghost function Delays(choices: seq<(nat, int)>): int {
    if choices == [] then 0 else choices[0].1 + Delays(choices[1..])
  }

  /** Every event is handed on to its own time plus the delay: until the stop, time only advances by the delays. */
  lemma {:induction false} TimesAdvance(s: Loop, total: nat, choices: seq<(nat, int)>, t: Loop)
    requires Runs(s, total, choices, t) && !t.stopped
    ensures Total(t.pending) == Total(s.pending) + Delays(choices)
    decreases |choices|
  {
    if choices != [] {
      var (k, delay) := choices[0];
      var next := Callback(s, total, k, delay);
      if next.stopped {
        StopIsFinal(next, total, choices[1..], t);
      }
      TimesAdvance(next, total, choices[1..], t);
      var x := s.pending[k];
      assert s.pending == s.pending[..k] + ([x] + s.pending[k + 1..]);
      TotalConcat(s.pending[..k], [x] + s.pending[k + 1..]);
      TotalConcat([x], s.pending[k + 1..]);
      TotalConcat(s.pending[..k], s.pending[k + 1..]);
      TotalConcat(s.pending[..k] + s.pending[k + 1..], [x + delay]);
      assert Total([x]) == Total([x][..0]) + x && Total([x + delay]) == Total([x + delay][..0]) + (x + delay);
    }
  }

  lemma {:induction false} StopIsFinal(s: Loop, total: nat, choices: seq<(nat, int)>, t: Loop)
    requires Runs(s, total, choices, t) && s.stopped
    ensures t.stopped
  {
  }

  /** A positive population ends after exactly `total` events and one more callback; an empty one does nothing. */
  lemma {:induction false} RunsExecuteTotal(s: Loop, total: nat, choices: seq<(nat, int)>, t: Loop)
    requires Runs(s, total, choices, t) && s.count == 0 && !s.stopped && Ended(t)
    ensures s.pending != [] ==> t.stopped && t.count == total && |choices| == total + 1
    ensures s.pending == [] ==> t.count == 0 && choices == []
  {
    PopulationIsConstant(s, total, choices, t);
  }

  // ---------------------------------------------------------------- factories

  /** Attribute values by the full name of the attribute, such as ns3::CalendarScheduler::Reverse. */
  type Attributes = map<string, string>

  /** An ObjectFactory: a type, and attributes that were set on it, perhaps when it had another type. */
  datatype Factory = Factory(typeName: string, attributes: Attributes)

  /** A scheduler as it was constructed: its type and the values of all attributes of that type. */
  datatype Scheduler = Scheduler(typeName: string, settings: Attributes)

  /** The attributes of every type with their initial values. */
  type Defaults = string -> Attributes

  /** ObjectFactory::Create: attributes of the type that the factory does not set get their initial values. */
  function Create(f: Factory, defaults: Defaults): Scheduler {
    var initial := defaults(f.typeName);
    Scheduler(f.typeName, map a <- initial :: if a in f.attributes then f.attributes[a] else initial[a])
  }

  /** The factory sets no attribute of its type away from its initial value. */
  ghost predicate SetsNothing(f: Factory, defaults: Defaults) {
    forall a <- f.attributes :: a in defaults(f.typeName) ==> f.attributes[a] == defaults(f.typeName)[a]
  }

  /** Two factories of which one has no attributes create the same scheduler. */
  lemma {:induction false} CreatesTheSameIff(f: Factory, typeName: string, defaults: Defaults)
    ensures Create(f, defaults) == Create(Factory(typeName, map[]), defaults) <==>
            f.typeName == typeName && SetsNothing(f, defaults)
  {
    if f.typeName == typeName {
      var initial, plain := defaults(typeName), Create(Factory(typeName, map[]), defaults);
      assert plain.settings == initial;
      if Create(f, defaults) == plain {
        forall a | a in f.attributes && a in initial ensures f.attributes[a] == initial[a] {
          assert Create(f, defaults).settings[a] == f.attributes[a];
        }
      }
    }
  }

  // ---------------------------------------------------------------- the simulator singleton

  class Simulator {
    const schedulerType: string // the global value, ns3::MapScheduler unless the user sets it
    const defaults: Defaults    // the initial values of attributes, which the user can set too
    var created: bool
    var scheduler: Scheduler
    var loop: Loop

    constructor (schedulerType: string, defaults: Defaults)
      ensures !created && loop == Loop([], 0, false)
      ensures this.schedulerType == schedulerType && this.defaults == defaults
    {
      this.schedulerType, this.defaults := schedulerType, defaults;
      created, scheduler, loop := false, Scheduler("", map[]), Loop([], 0, false);
    }

    /** The scheduler of a new implementation: SchedulerType has a name to give, and no attributes. */
    function Initial(): Scheduler {
      Create(Factory(schedulerType, map[]), defaults)
    }

    /** The scheduler of the next run: that of the implementation, or the one a new implementation gets. */
    ghost function Upcoming(): Scheduler
      reads this`created, this`scheduler
    {
      if created then scheduler else Initial()
    }

    /** Creates the implementation, with a scheduler of the type SchedulerType, unless there is one. */
    method GetImpl()
      modifies this`created, this`scheduler
      ensures created && scheduler == old(Upcoming())
    {
      if !created {
        created, scheduler := true, Initial();
      }
    }

    method SetScheduler(factory: Factory)
      modifies this`created, this`scheduler
      ensures created && scheduler == Create(factory, defaults)
    {
      GetImpl();
      scheduler := Create(factory, defaults);
    }

    /** Drops the implementation together with its scheduler and whatever is still pending. */
    method Destroy()
      modifies this
      ensures !created && loop == Loop([], loop.count, false) && loop.count == old(loop.count)
    {
      created, loop := false, Loop([], loop.count, false);
    }
  }

  /** The delays of the random stream, in the order in which they are drawn. */
  type Stream = nat -> int

  class Bench {
    const population: nat
    const total: nat
    const rand: Stream
    const simulator: Simulator
    var drawn: nat

    constructor (population: nat, total: nat, rand: Stream, simulator: Simulator)
      ensures this.population == population && this.total == total && this.simulator == simulator
    {
      this.population, this.total, this.rand, this.simulator, drawn := population, total, rand, simulator, 0;
    }

    /**
     One run: it executes `total` events, or none if the population is empty, on the scheduler that
     the simulator had when the run began.
     */
    method Run() returns (events: nat, scheduler: Scheduler)
      requires simulator.loop.pending == []
      modifies this`drawn, simulator
      ensures events == if population > 0 then total else 0
      ensures scheduler == old(simulator.Upcoming())
      ensures drawn == old(drawn) + population + events
      ensures !simulator.created && simulator.loop.pending == []
    {
      simulator.loop := Loop([], 0, false); // m_count = 0
      for i := 0 to population
        invariant simulator.loop.count == 0 && !simulator.loop.stopped && |simulator.loop.pending| == i
        invariant drawn == old(drawn) + i
        invariant simulator.Upcoming() == old(simulator.Upcoming())
      {
        simulator.GetImpl();
        simulator.loop := simulator.loop.(pending := simulator.loop.pending + [rand(drawn)]);
        drawn := drawn + 1;
      }
      simulator.GetImpl(); // Simulator::Run
      scheduler := simulator.scheduler;
      while simulator.loop.pending != [] && !simulator.loop.stopped
        invariant simulator.created && simulator.scheduler == scheduler
        invariant simulator.loop.count <= total && drawn == old(drawn) + population + simulator.loop.count
        invariant !simulator.loop.stopped ==> |simulator.loop.pending| == population
        invariant simulator.loop.stopped ==> population > 0 && simulator.loop.count == total
        invariant population == 0 ==> simulator.loop.count == 0
        decreases total - simulator.loop.count, !simulator.loop.stopped
      {
        var event: nat :| event < |simulator.loop.pending|;
        if simulator.loop.count >= total {
          simulator.loop := Callback(simulator.loop, total, event, 0);
        } else {
          simulator.loop := Callback(simulator.loop, total, event, rand(drawn));
          drawn := drawn + 1;
        }
      }
      events := simulator.loop.count;
      simulator.Destroy();
    }
  }

  datatype RunResult = RunResult(events: nat, scheduler: Scheduler)

  ghost predicate AllOn(results: seq<RunResult>, scheduler: Scheduler) {
    forall i :: 0 <= i < |results| ==> results[i].scheduler == scheduler
  }

  /**
   The suite: one priming run and `runs` data runs after a single SetScheduler.  It is meant to measure
   the scheduler it is given, but every run destroys the simulator and the next one starts from
   SchedulerType.  The data runs use the given scheduler exactly if SchedulerType names its type and the
   factory sets no attribute of it away from its initial value, or there are no data runs.
   */
  method BenchSuite(factory: Factory, pop: nat, total: nat, runs: nat, stream: Stream, simulator: Simulator)
    returns (prime: RunResult, results: seq<RunResult>)
    requires simulator.loop.pending == []
    modifies simulator
    ensures prime == RunResult(if pop > 0 then total else 0, Create(factory, simulator.defaults))
    ensures |results| == runs && AllOn(results, simulator.Initial())
    ensures forall i :: 0 <= i < runs ==> results[i].events == if pop > 0 then total else 0
    ensures AllOn(results, prime.scheduler) <==>
            runs == 0 || (factory.typeName == simulator.schedulerType && SetsNothing(factory, simulator.defaults))
    ensures !simulator.created && simulator.loop.pending == []
  {
    simulator.SetScheduler(factory);
    var bench := new Bench(pop, total, stream, simulator);
    var events, scheduler := bench.Run();
    prime := RunResult(events, scheduler);
    results := [];
    for i := 0 to runs
      invariant !simulator.created && simulator.loop.pending == []
      invariant bench.simulator == simulator && bench.population == pop && bench.total == total && fresh(bench)
      invariant |results| == i && AllOn(results, simulator.Initial())
      invariant forall k :: 0 <= k < i ==> results[k].events == if pop > 0 then total else 0
    {
      events, scheduler := bench.Run();
      results := results + [RunResult(events, scheduler)];
    }
    simulator.Destroy();
    CreatesTheSameIff(factory, simulator.schedulerType, simulator.defaults);
    assert runs > 0 ==> results[0].scheduler == simulator.Initial();
  }

  const CALENDAR := "ns3::CalendarScheduler"
  const REVERSE := "ns3::CalendarScheduler::Reverse"

  /**
   The suite of a calendar in reverse order, when SchedulerType names the calendar too: the data runs
   still use a calendar in normal order.
   */
  method ReverseCalendarSuite(pop: nat, total: nat, runs: nat, stream: Stream)
    returns (prime: RunResult, results: seq<RunResult>)
    ensures prime.scheduler == Scheduler(CALENDAR, map[REVERSE := "true"])
    ensures |results| == runs && AllOn(results, Scheduler(CALENDAR, map[REVERSE := "false"]))
    ensures runs > 0 ==> !AllOn(results, prime.scheduler)
  {
    var defaults: Defaults := typeName => if typeName == CALENDAR then map[REVERSE := "false"] else map[];
    var simulator := new Simulator(CALENDAR, defaults);
    prime, results := BenchSuite(Factory(CALENDAR, map[REVERSE := "true"]), pop, total, runs, stream, simulator);
    assert runs > 0 ==> results[0].scheduler.settings[REVERSE] == "false";
  }
}
