/**
 The Sender application of examples/stats/wifi-example-apps.cc: start, stop and timer events in any
 order, over a simulator that fires any event that is scheduled and not cancelled.
 */
module SenderApp {

  datatype Option<T> = None | Some(value: T)

  /**
   The application and its share of the simulator: the ids of its live events, the id that the next
   Schedule gives out, the event it remembers, its packet counter, its socket, and what it sent.
   */
  datatype App = App(
    nPackets: nat, pending: set<nat>, nextId: nat, sendEvent: Option<nat>, count: nat, hasSocket: bool, sent: nat)

  datatype Action = Start | Stop | Fire(id: nat)

  function Cancel(s: App): App {
    if s.sendEvent.Some? then s.(pending := s.pending - {s.sendEvent.value}) else s
  }

  function Schedule(s: App): App {
    s.(pending := s.pending + {s.nextId}, nextId := s.nextId + 1, sendEvent := Some(s.nextId))
  }

  predicate Enabled(s: App, a: Action) {
    a.Fire? ==> a.id in s.pending
  }

  function Next(s: App, a: Action): App
    requires Enabled(s, a)
  {
    match a
    case Start => Schedule(Cancel(s.(hasSocket := true, count := 0)))
    case Stop => Cancel(s)
    case Fire(id) =>
      var t := s.(pending := s.pending - {id}, sent := s.sent + 1, count := s.count + 1);
      if t.count < t.nPackets then Schedule(t) else t
  }

  ghost predicate Reaches(s: App, run: seq<Action>, t: App)
    decreases |run|
  {
    if run == [] then s == t else Enabled(s, run[0]) && Reaches(Next(s, run[0]), run[1..], t)
  }

  ghost function Init(nPackets: nat): App {
    App(nPackets, {}, 0, None, 0, false, 0)
  }

  /** At most the remembered event is live; it needs the socket and a counter that is not used up. */
  ghost predicate Inv(s: App) {
    && (forall id <- s.pending :: s.sendEvent == Some(id) && s.hasSocket)
    && (forall id <- s.pending :: id < s.nextId)
    && (s.pending != {} ==> s.count < s.nPackets)
    && s.count <= s.nPackets
  }

  lemma {:induction false} RunInv(s: App, run: seq<Action>, t: App)
    requires Inv(s) && s.nPackets > 0 && Reaches(s, run, t)
    ensures Inv(t) && t.nPackets == s.nPackets
    decreases |run|
  {
    if run != [] {
      RunInv(Next(s, run[0]), run[1..], t);
    }
  }

  /** In every reachable state at most one send event is live, and firing it finds a socket. */
  lemma {:induction false} AtMostOnePending(nPackets: nat, run: seq<Action>, s: App)
    requires nPackets > 0 && Reaches(Init(nPackets), run, s)
    ensures |s.pending| <= 1 && (s.pending != {} ==> s.hasSocket)
  {
    RunInv(Init(nPackets), run, s);
    if id :| id in s.pending {
      assert s.pending == {id};
    }
  }

  ghost predicate NoStart(run: seq<Action>) {
    forall i :: 0 <= i < |run| ==> run[i] != Start
  }

  ghost predicate OnlyFires(run: seq<Action>) {
    forall i :: 0 <= i < |run| ==> run[i].Fire?
  }

  lemma {:induction false} QuietRun(s: App, run: seq<Action>, t: App)
    requires s.pending == {} && NoStart(run) && Reaches(s, run, t)
    ensures t.sent == s.sent
    decreases |run|
  {
    if run != [] {
      assert run[0] != Start;
      QuietRun(Next(s, run[0]), run[1..], t);
    }
  }

  /** Between a stop and the next start nothing is sent. */
  lemma {:induction false} SilentAfterStop(nPackets: nat, before: seq<Action>, s: App, after: seq<Action>, t: App)
    requires nPackets > 0 && Reaches(Init(nPackets), before, s)
    requires NoStart(after) && Reaches(Next(s, Stop), after, t)
    ensures t.sent == s.sent
  {
    RunInv(Init(nPackets), before, s);
    assert Next(s, Stop).pending == {};
    QuietRun(Next(s, Stop), after, t);
  }

  lemma {:induction false} Countdown(s: App, run: seq<Action>, t: App)
    requires Inv(s) && s.nPackets > 0 && NoStart(run) && Reaches(s, run, t)
    ensures Inv(t) && t.nPackets == s.nPackets && t.sent - s.sent == t.count - s.count
    ensures OnlyFires(run) && (s.pending != {} || s.count == s.nPackets) ==> t.pending != {} || t.count == t.nPackets
    decreases |run|
  {
    if run != [] {
      assert run[0] != Start;
      Countdown(Next(s, run[0]), run[1..], t);
    }
  }

  /** A start is followed by at most `nPackets` sends before the next, and by exactly that many if left to finish. */
  lemma {:induction false} StartSendsAll(nPackets: nat, before: seq<Action>, s: App, after: seq<Action>, t: App)
    requires nPackets > 0 && Reaches(Init(nPackets), before, s)
    requires NoStart(after) && Reaches(Next(s, Start), after, t)
    ensures t.sent - s.sent <= nPackets
    ensures OnlyFires(after) && t.pending == {} ==> t.sent - s.sent == nPackets
  {
    RunInv(Init(nPackets), before, s);
    Countdown(Next(s, Start), after, t);
  }

  // ---------------------------------------------------------------- the application object

  class Sender {
    const nPackets: nat
    var hasSocket: bool
    var count: nat
    var sendEvent: Option<nat>
    var sent: nat
    // the simulator: the live events of this application and the next event id
    var pending: set<nat>
    var nextId: nat

    ghost function State(): App
      reads this
    {
      App(nPackets, pending, nextId, sendEvent, count, hasSocket, sent)
    }

    ghost predicate Valid()
      reads this
    {
      nPackets > 0 && Inv(State())
    }

    constructor (nPackets: nat)
      requires nPackets > 0
      ensures Valid() && State() == Init(nPackets)
    {
      this.nPackets := nPackets;
      hasSocket, count, sendEvent, sent, pending, nextId := false, 0, None, 0, {}, 0;
    }

    /** Simulator::Cancel: no effect on an event that was never scheduled or has fired. */
    method CancelEvent(event: Option<nat>)
      modifies this`pending
      ensures pending == old(pending) - (if event.Some? then {event.value} else {})
    {
      if event.Some? {
        pending := pending - {event.value};
      }
    }

    method ScheduleEvent() returns (event: Option<nat>)
      modifies this`pending, this`nextId
      ensures event == Some(old(nextId)) && nextId == old(nextId) + 1 && pending == old(pending) + {old(nextId)}
    {
      event := Some(nextId);
      pending, nextId := pending + {nextId}, nextId + 1;
    }

    /** Afterwards one new event is live, whatever was live before, and the count starts again. */
    method StartApplication()
      requires Valid()
      modifies this
      ensures Valid() && State() == Next(old(State()), Start)
      ensures |pending| == 1 && pending !! old(pending) && hasSocket && count == 0 && sent == old(sent)
    {
      if !hasSocket {
        hasSocket := true;
      }
      count := 0;
      CancelEvent(sendEvent);
      assert pending == {};
      sendEvent := ScheduleEvent();
    }

    /** Afterwards nothing is live, so nothing is sent until the next start. */
    method StopApplication()
      requires Valid()
      modifies this
      ensures Valid() && State() == Next(old(State()), Stop)
      ensures pending == {} && sent == old(sent) && count == old(count) && hasSocket == old(hasSocket)
    {
      CancelEvent(sendEvent);
      assert pending == {};
    }

    /**
     The simulator takes the event `id` off its queue and calls SendPacket: one packet is sent, and one
     new event is live exactly if packets are left.
     */
    method SendPacket(id: nat)
      requires Valid() && id in pending
      modifies this
      ensures Valid() && State() == Next(old(State()), Fire(id))
      ensures sent == old(sent) + 1 && count == old(count) + 1 <= nPackets && id !in pending
      ensures |pending| == if count < nPackets then 1 else 0
    {
      assert pending == {id};
      pending := pending - {id};
      assert pending == {};
      sent := sent + 1;
      count := count + 1;
      if count < nPackets {
        sendEvent := ScheduleEvent();
      }
    }
  }

  /** What a script makes of the application; a timer that is not live does not fire. */
  ghost function Play(s: App, script: seq<Action>): App
    decreases |script|
  {
    if script == [] then s else Play(if Enabled(s, script[0]) then Next(s, script[0]) else s, script[1..])
  }

  /** Playing a script is a run of those of its actions that were possible. */
  lemma {:induction false} PlayIsRun(s: App, script: seq<Action>) returns (run: seq<Action>)
    ensures Reaches(s, run, Play(s, script))
    ensures NoStart(script) ==> NoStart(run)
    decreases |script|
  {
    run := [];
    if script != [] {
      var a := script[0];
      run := PlayIsRun(if Enabled(s, a) then Next(s, a) else s, script[1..]);
      if Enabled(s, a) {
        assert ([a] + run)[1..] == run;
        run := [a] + run;
      }
    }
  }

  /** The object, driven by any script, goes through the states of the model. */
  method Drive(sender: Sender, script: seq<Action>)
    requires sender.Valid()
    modifies sender
    ensures sender.Valid() && sender.State() == Play(old(sender.State()), script)
    ensures NoStart(script) && old(sender.pending) == {} ==> sender.sent == old(sender.sent)
    ensures NoStart(script) ==> sender.sent - old(sender.sent) <= sender.nPackets - old(sender.count)
  {
    ghost var start := sender.State();
    for i := 0 to |script|
      invariant sender.Valid() && Play(start, script) == Play(sender.State(), script[i..])
    {
      assert script[i..][0] == script[i] && script[i..][1..] == script[i + 1..];
      match script[i] {
        case Start => sender.StartApplication();
        case Stop => sender.StopApplication();
        case Fire(id) =>
          if id in sender.pending {
            sender.SendPacket(id);
          }
      }
    }
    ghost var run := PlayIsRun(start, script);
    if NoStart(script) {
      Countdown(start, run, sender.State());
      if start.pending == {} {
        QuietRun(start, run, sender.State());
      }
    }
  }
}
