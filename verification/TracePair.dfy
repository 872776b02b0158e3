/**
 The congestion-window and slow-start-threshold tracers of examples/tcp/tcp-variants-comparison.cc,
 which write to each other's log, and the parser that finds the node in a trace context.
 */
module TracePair {
  import opened Decimal

  // ---------------------------------------------------------------- the node in a context path

  const NPOS := 0xFFFF_FFFF_FFFF_FFFF
  const WORD := 0x1_0000_0000_0000_0000

  /** std::string::find_first_of for one character. */
  function FindFirstOf(s: string, c: char, from: nat): nat
    decreases |s| - from
  {
    if from >= |s| then NPOS else if s[from] == c then from else FindFirstOf(s, c, from + 1)
  }

  datatype Parsed = Id(value: nat) | InvalidArgument | OutOfRange

  predicate IsCSpace(c: char) {
    c == ' ' || 9 <= c as int <= 13
  }

  function SkipSpace(s: string): string {
    if s != "" && IsCSpace(s[0]) then SkipSpace(s[1..]) else s
  }

  function DigitPrefix(s: string): (n: nat)
    ensures n <= |s| && (forall i :: 0 <= i < n ==> IsDigit(s[i])) && (n < |s| ==> !IsDigit(s[n]))
  {
    if s == "" || !IsDigit(s[0]) then 0 else 1 + DigitPrefix(s[1..])
  }

  /** std::stoul: optional space and sign, then as many digits as there are. */
  function Stoul(s: string): Parsed {
    var t := SkipSpace(s);
    var negative := t != "" && t[0] == '-';
    var u := if t != "" && (t[0] == '-' || t[0] == '+') then t[1..] else t;
    var n := DigitPrefix(u);
    if n == 0 then InvalidArgument
    else
      var value := FromDecimal(u[..n]);
      if value >= WORD then OutOfRange
      else Id(if negative then (WORD - value) % WORD else value)
  }

  /** Where substr starts and ends, in the unsigned arithmetic of std::size_t; it throws if the start is outside. */
  function FieldBounds(context: string): (nat, nat) {
    var n1 := FindFirstOf(context, '/', 1);
    var start := (n1 + 1) % WORD;
    var n2 := FindFirstOf(context, '/', start);
    var count := (n2 - n1 - 1) % WORD;
    (start, if start + count < |context| then start + count else |context|)
  }

  /** The conversion to uint32_t of what stoul returns. */
  function NodeId(field: string): Parsed {
    match Stoul(field)
    case Id(v) => Id(v % 0x1_0000_0000)
    case error => error
  }

  function GetNodeIdFromContext(context: string): Parsed {
    var (start, end) := FieldBounds(context);
    if start > |context| then OutOfRange else NodeId(context[start..end])
  }

  lemma {:induction false} FindIs(s: string, c: char, from: nat, at: nat)
    requires from <= at < |s| && s[at] == c && forall i :: from <= i < at ==> s[i] != c
    ensures FindFirstOf(s, c, from) == at
    decreases at - from
  {
    if from < at {
      FindIs(s, c, from + 1, at);
    }
  }

  lemma {:induction false} FindNothing(s: string, c: char, from: nat)
    requires forall i :: from <= i < |s| ==> s[i] != c
    ensures FindFirstOf(s, c, from) == NPOS
    decreases |s| - from
  {
    if from < |s| {
      FindNothing(s, c, from + 1);
    }
  }

  lemma {:induction false} StoulOfDecimal(id: nat)
    requires id < WORD
    ensures Stoul(ToDecimal(id)) == Id(id)
  {
    DecimalRoundTrip(id);
    var s := ToDecimal(id);
    assert IsDigit(s[0]);
    assert DigitPrefix(s) == |s| && s[..|s|] == s;
  }

  lemma {:induction false} SkipSpaceOf(space: string, rest: string)
    requires forall c <- space :: c in " \t\n\r\U{0B}\U{0C}"
    requires rest == "" || rest[0] !in " \t\n\r\U{0B}\U{0C}"
    ensures SkipSpace(space + rest) == rest
  {
    if space == "" {
      assert space + rest == rest;
    } else {
      assert space[0] in space && (space + rest)[1..] == space[1..] + rest;
      SkipSpaceOf(space[1..], rest);
    }
  }

  lemma {:induction false} DigitPrefixOf(digits: string, rest: string)
    requires (forall i :: 0 <= i < |digits| ==> IsDigit(digits[i])) && (rest == "" || !IsDigit(rest[0]))
    ensures DigitPrefix(digits + rest) == |digits|
  {
    assert forall i :: 0 <= i < |digits| ==> (digits + rest)[i] == digits[i];
    assert rest != "" ==> (digits + rest)[|digits|] == rest[0];
  }

  /**
   What stoul makes of space, a sign, digits and a rest that is not a digit: without digits it throws;
   too large a number throws; a minus sign negates modulo 2^64; the rest does not matter.
   */
  lemma {:induction false} StoulMeaning(space: string, sign: string, digits: string, rest: string)
    requires (forall c <- space :: c in " \t\n\r\U{0B}\U{0C}") && sign in {"", "+", "-"}
    requires (forall i :: 0 <= i < |digits| ==> IsDigit(digits[i])) && (rest == "" || !IsDigit(rest[0]))
    requires sign == "" && digits == "" ==> rest == "" || rest[0] !in " \t\n\r\U{0B}\U{0C}+-"
    ensures Stoul(space + (sign + (digits + rest))) ==
            if digits == "" then InvalidArgument
            else if FromDecimal(digits) >= 0x1_0000_0000_0000_0000 then OutOfRange
            else if sign == "-" then Id((0x1_0000_0000_0000_0000 - FromDecimal(digits)) % 0x1_0000_0000_0000_0000)
            else Id(FromDecimal(digits))
  {
    var u := digits + rest;
    var t := sign + u;
    assert sign == "" ==> t == u;
    assert digits != "" ==> u[0] == digits[0];
    assert sign != "" ==> t[0] == sign[0] && t[1..] == u;
    SkipSpaceOf(space, t);
    DigitPrefixOf(digits, rest);
    assert u[..|digits|] == digits;
  }

  /** A context without a slash behind its first character is read from its start. */
  lemma {:induction false} NoSlash(context: string)
    requires |context| < NPOS && forall i :: 1 <= i < |context| ==> context[i] != '/'
    ensures GetNodeIdFromContext(context) == NodeId(if context != "" && context[0] == '/' then "" else context)
  {
    FindNothing(context, '/', 1);
    if context != "" && context[0] == '/' {
      FindIs(context, '/', 0, 0);
      assert context[0..0] == "";
    } else {
      FindNothing(context, '/', 0);
      assert context[0..|context|] == context;
    }
  }

  lemma {:induction false} FieldAt(context: string, n1: nat, end: nat)
    requires 1 <= n1 < end <= |context| < NPOS
    requires context[n1] == '/' && forall i :: 1 <= i < n1 ==> context[i] != '/'
    requires (end == |context| || context[end] == '/') && forall i :: n1 < i < end ==> context[i] != '/'
    ensures FieldBounds(context) == (n1 + 1, end)
  {
    FindIs(context, '/', 1, n1);
    if end == |context| {
      FindNothing(context, '/', n1 + 1);
    } else {
      FindIs(context, '/', n1 + 1, end);
    }
  }

  lemma {:induction false} NodeIdAt(context: string, n1: nat, end: nat, id: nat)
    requires 1 <= n1 < end <= |context| < NPOS && id < 0x1_0000_0000
    requires context[n1] == '/' && forall i :: 1 <= i < n1 ==> context[i] != '/'
    requires context[n1 + 1..end] == ToDecimal(id) && (end == |context| || context[end] == '/')
    ensures GetNodeIdFromContext(context) == Id(id)
  {
    assert forall i :: n1 < i < end ==> context[i] != '/' by {
      DecimalRoundTrip(id);
      assert forall i :: n1 < i < end ==> context[i] == ToDecimal(id)[i - n1 - 1];
    }
    assert NodeId(ToDecimal(id)) == Id(id) by {
      StoulOfDecimal(id);
    }
    FieldAt(context, n1, end);
  }

  /** The parser recovers every 32-bit node id from a path "/<list>/<id>" or "/<list>/<id>/...". */
  lemma {:induction false} NodeIdRoundTrip(list: string, id: nat, rest: string)
    requires '/' !in list && id < 0x1_0000_0000 && (rest == "" || rest[0] == '/')
    requires |"/" + list + "/" + ToDecimal(id) + rest| < NPOS
    ensures GetNodeIdFromContext("/" + list + "/" + ToDecimal(id) + rest) == Id(id)
  {
    var digits := ToDecimal(id);
    DecimalRoundTrip(id);
    var context := "/" + list + "/" + digits + rest;
    var n1 := |list| + 1;
    var end := n1 + 1 + |digits|;
    assert forall i :: 0 <= i < |list| ==> context[1 + i] == list[i];
    assert context[n1] == '/';
    assert context[n1 + 1..end] == digits;
    assert rest != "" ==> context[end] == rest[0];
    NodeIdAt(context, n1, end, id);
  }

  // ---------------------------------------------------------------- the tracers

  datatype Kind = Cwnd | SsThresh

  datatype Event = Event(kind: Kind, time: int, oldval: nat, newval: nat)

  datatype Entry = Entry(time: int, value: nat)

  /** One traced quantity of one node: whether its first event is still to come, its log and its value. */
  datatype Side = Side(first: bool, log: seq<Entry>, value: nat)

  /** The quantity itself changes. */
  function Own(s: Side, e: Event): Side {
    var start := if s.first then [Entry(0, e.oldval)] else [];
    Side(false, s.log + start + [Entry(e.time, e.newval)], e.newval)
  }

  /** The other quantity of the node changes. */
  function Echo(s: Side, e: Event): Side {
    if s.first then s else s.(log := s.log + [Entry(e.time, s.value)])
  }

  function Observe(s: Side, kind: Kind, e: Event): Side {
    if e.kind == kind then Own(s, e) else Echo(s, e)
  }

  /** A trace source of the node that the context names fires. */
  datatype Call = Call(context: string, event: Event)

  /** What a call does to one side of `node`: nothing, unless the context is that of the node. */
  function Seen(s: Side, kind: Kind, node: nat, call: Call): Side {
    if GetNodeIdFromContext(call.context) == Id(node) then Observe(s, kind, call.event) else s
  }

  class Traces {
    var firstCwnd: map<nat, bool>
    var firstSshThr: map<nat, bool>
    var cWndStream: map<nat, seq<Entry>>
    var ssThreshStream: map<nat, seq<Entry>>
    var cWndValue: map<nat, nat>
    var ssThreshValue: map<nat, nat>

    /** std::map's operator[]: a missing key reads as the default value. */
    static function At<T>(m: map<nat, T>, key: nat, default: T): T {
      if key in m then m[key] else default
    }

    function CwndSide(node: nat): Side
      reads this`firstCwnd, this`cWndStream, this`cWndValue
    {
      Side(At(firstCwnd, node, false), At(cWndStream, node, []), At(cWndValue, node, 0))
    }

    function SsThreshSide(node: nat): Side
      reads this`firstSshThr, this`ssThreshStream, this`ssThreshValue
    {
      Side(At(firstSshThr, node, false), At(ssThreshStream, node, []), At(ssThreshValue, node, 0))
    }

    constructor ()
      ensures forall node :: CwndSide(node) == Side(false, [], 0) && SsThreshSide(node) == Side(false, [], 0)
    {
      firstCwnd, firstSshThr := map[], map[];
      cWndStream, ssThreshStream := map[], map[];
      cWndValue, ssThreshValue := map[], map[];
    }

    /** The set-up of one flow: both flags are raised and both streams are opened. */
    method Connect(node: nat)
      modifies this
      ensures CwndSide(node) == Side(true, [], old(CwndSide(node)).value)
      ensures SsThreshSide(node) == Side(true, [], old(SsThreshSide(node)).value)
      ensures forall other :: other != node ==>
                CwndSide(other) == old(CwndSide(other)) && SsThreshSide(other) == old(SsThreshSide(other))
    {
      firstCwnd, firstSshThr := firstCwnd[node := true], firstSshThr[node := true];
      cWndStream, ssThreshStream := cWndStream[node := []], ssThreshStream[node := []];
    }

    // The two halves of each tracer: the quantity itself, and its companion.

    method OwnCwnd(node: nat, e: Event)
      modifies this`firstCwnd, this`cWndStream, this`cWndValue
      ensures CwndSide(node) == Own(old(CwndSide(node)), e)
      ensures forall other :: other != node ==> CwndSide(other) == old(CwndSide(other))
    {
      if At(firstCwnd, node, false) {
        cWndStream := cWndStream[node := At(cWndStream, node, []) + [Entry(0, e.oldval)]];
        firstCwnd := firstCwnd[node := false];
      }
      cWndStream := cWndStream[node := At(cWndStream, node, []) + [Entry(e.time, e.newval)]];
      cWndValue := cWndValue[node := e.newval];
    }

    method EchoCwnd(node: nat, e: Event)
      modifies this`cWndStream
      ensures CwndSide(node) == Echo(old(CwndSide(node)), e)
      ensures forall other :: other != node ==> CwndSide(other) == old(CwndSide(other))
    {
      if !At(firstCwnd, node, false) {
        cWndStream := cWndStream[node := At(cWndStream, node, []) + [Entry(e.time, At(cWndValue, node, 0))]];
      }
    }

    method OwnSsThresh(node: nat, e: Event)
      modifies this`firstSshThr, this`ssThreshStream, this`ssThreshValue
      ensures SsThreshSide(node) == Own(old(SsThreshSide(node)), e)
      ensures forall other :: other != node ==> SsThreshSide(other) == old(SsThreshSide(other))
    {
      if At(firstSshThr, node, false) {
        ssThreshStream := ssThreshStream[node := At(ssThreshStream, node, []) + [Entry(0, e.oldval)]];
        firstSshThr := firstSshThr[node := false];
      }
      ssThreshStream := ssThreshStream[node := At(ssThreshStream, node, []) + [Entry(e.time, e.newval)]];
      ssThreshValue := ssThreshValue[node := e.newval];
    }

    method EchoSsThresh(node: nat, e: Event)
      modifies this`ssThreshStream
      ensures SsThreshSide(node) == Echo(old(SsThreshSide(node)), e)
      ensures forall other :: other != node ==> SsThreshSide(other) == old(SsThreshSide(other))
    {
      if !At(firstSshThr, node, false) {
        var entry := Entry(e.time, At(ssThreshValue, node, 0));
        ssThreshStream := ssThreshStream[node := At(ssThreshStream, node, []) + [entry]];
      }
    }

    /** Changes the sides of the node in the context and of no other; `ok` fails if parsing it throws. */
    method CwndTracer(context: string, e: Event) returns (ok: bool)
      requires e.kind == Cwnd
      modifies this
      ensures ok <==> GetNodeIdFromContext(context).Id?
      ensures forall node :: CwndSide(node) == Seen(old(CwndSide(node)), Cwnd, node, Call(context, e))
      ensures forall node :: SsThreshSide(node) == Seen(old(SsThreshSide(node)), SsThresh, node, Call(context, e))
    {
      match GetNodeIdFromContext(context) {
        case Id(node) =>
          OwnCwnd(node, e);
          EchoSsThresh(node, e);
          ok := true;
        case _ => ok := false;
      }
    }

    method SsThreshTracer(context: string, e: Event) returns (ok: bool)
      requires e.kind == SsThresh
      modifies this
      ensures ok <==> GetNodeIdFromContext(context).Id?
      ensures forall node :: CwndSide(node) == Seen(old(CwndSide(node)), Cwnd, node, Call(context, e))
      ensures forall node :: SsThreshSide(node) == Seen(old(SsThreshSide(node)), SsThresh, node, Call(context, e))
    {
      match GetNodeIdFromContext(context) {
        case Id(node) =>
          OwnSsThresh(node, e);
          EchoCwnd(node, e);
          ok := true;
        case _ => ok := false;
      }
    }

    method Trace(call: Call) returns (ok: bool)
      modifies this
      ensures ok <==> GetNodeIdFromContext(call.context).Id?
      ensures forall node :: CwndSide(node) == Seen(old(CwndSide(node)), Cwnd, node, call)
      ensures forall node :: SsThreshSide(node) == Seen(old(SsThreshSide(node)), SsThresh, node, call)
    {
      match call.event.kind {
        case Cwnd => ok := CwndTracer(call.context, call.event);
        case SsThresh => ok := SsThreshTracer(call.context, call.event);
      }
    }

    /** Any sequence of trace calls over all nodes, up to the first whose context does not parse. */
    method Replay(calls: seq<Call>) returns (done: nat)
      modifies this
      ensures done <= |calls| && AllParse(calls[..done]) && (done < |calls| ==> !Parses(calls[done]))
      ensures forall node :: CwndSide(node) == AfterCalls(old(CwndSide(node)), Cwnd, node, calls[..done])
      ensures forall node :: SsThreshSide(node) == AfterCalls(old(SsThreshSide(node)), SsThresh, node, calls[..done])
      decreases |calls|
    {
      done := 0;
      if calls != [] {
        var ok := Trace(calls[0]);
        if ok {
          var rest := Replay(calls[1..]);
          done := rest + 1;
          OneMoreCall(calls, calls[1..][..rest], calls[..done]);
        }
      }
    }

    /**
     The traces of any flows: once their nodes are connected, both logs of each node are the step
     functions of that node's own events, whatever happens at the other nodes.
     */
    method TraceFlows(nodes: seq<nat>, calls: seq<Call>) returns (done: nat)
      modifies this
      ensures done <= |calls| && AllParse(calls[..done]) && (done < |calls| ==> !Parses(calls[done]))
      ensures forall node <- nodes ::
                && IsStepLog(EventsOf(calls[..done], node), Cwnd, CwndSide(node).log)
                && IsStepLog(EventsOf(calls[..done], node), SsThresh, SsThreshSide(node).log)
    {
      for i := 0 to |nodes|
        invariant forall node <- nodes[..i] :: Connected(CwndSide(node)) && Connected(SsThreshSide(node))
      {
        Connect(nodes[i]);
      }
      assert nodes[..|nodes|] == nodes;
      done := Replay(calls);
      forall node, s, kind | Connected(s)
        ensures IsStepLog(EventsOf(calls[..done], node), kind, AfterCalls(s, kind, node, calls[..done]).log)
      {
        NodeLogs(s, kind, node, calls[..done]);
      }
    }
  }

  /** As the set-up leaves a side: the first event is still to come. */
  ghost predicate Connected(s: Side) {
    s.first && s.log == []
  }

  predicate Parses(call: Call) {
    GetNodeIdFromContext(call.context).Id?
  }

  ghost predicate AllParse(calls: seq<Call>) {
    forall i :: 0 <= i < |calls| ==> Parses(calls[i])
  }

  /** One side of a node after a sequence of calls. */
  ghost function AfterCalls(s: Side, kind: Kind, node: nat, calls: seq<Call>): Side
    decreases |calls|
  {
    if calls == [] then s else AfterCalls(Seen(s, kind, node, calls[0]), kind, node, calls[1..])
  }

  lemma {:induction false} OneMoreCall(calls: seq<Call>, rest: seq<Call>, all: seq<Call>)
    requires calls != [] && rest <= calls[1..] && all == calls[..|rest| + 1]
    ensures forall s, kind, node ::
              AfterCalls(s, kind, node, all) == AfterCalls(Seen(s, kind, node, calls[0]), kind, node, rest)
    ensures Parses(calls[0]) && AllParse(rest) ==> AllParse(all)
  {
    assert all[0] == calls[0] && all[1..] == rest;
    assert all == [calls[0]] + rest;
  }

  /** The events of one node, in order. */
  ghost function EventsOf(calls: seq<Call>, node: nat): seq<Event> {
    if calls == [] then []
    else
      (if GetNodeIdFromContext(calls[0].context) == Id(node) then [calls[0].event] else []) + EventsOf(calls[1..], node)
  }

  lemma {:induction false} AfterPrepend(s: Side, kind: Kind, e: Event, es: seq<Event>)
    ensures After(s, kind, [e] + es) == After(Observe(s, kind, e), kind, es)
  {
    if es != [] {
      var init := es[..|es| - 1];
      AfterPrepend(s, kind, e, init);
      assert ([e] + es)[..|es|] == [e] + init;
    } else {
      assert [e] + es == [e] && [e][..0] == [];
    }
  }

  /** A node is affected by its own events only. */
  lemma {:induction false} OwnEventsOnly(s: Side, kind: Kind, node: nat, calls: seq<Call>)
    ensures AfterCalls(s, kind, node, calls) == After(s, kind, EventsOf(calls, node))
    decreases |calls|
  {
    if calls != [] {
      var rest := EventsOf(calls[1..], node);
      OwnEventsOnly(Seen(s, kind, node, calls[0]), kind, node, calls[1..]);
      AfterPrepend(s, kind, calls[0].event, rest);
      assert [] + rest == rest;
    }
  }

  lemma {:induction false} NodeLogs(s: Side, kind: Kind, node: nat, calls: seq<Call>)
    requires Connected(s)
    ensures IsStepLog(EventsOf(calls, node), kind, AfterCalls(s, kind, node, calls).log)
  {
    OwnEventsOnly(s, kind, node, calls);
    LogsAreStepFunctions(EventsOf(calls, node), kind, s.value);
  }

  // ---------------------------------------------------------------- what the logs mean

  /** All events of a node, in order, seen by one side. */
  ghost function After(s: Side, kind: Kind, es: seq<Event>): Side {
    if es == [] then s else Observe(After(s, kind, es[..|es| - 1]), kind, es[|es| - 1])
  }

  /** Event `k` is the latest of its kind among the first `n`. */
  ghost predicate Latest(es: seq<Event>, kind: Kind, n: nat, k: nat)
    requires n <= |es|
  {
    k < n && es[k].kind == kind && forall i :: k < i < n ==> es[i].kind != kind
  }

  /** Event `f` is the first of its kind. */
  ghost predicate First(es: seq<Event>, kind: Kind, f: nat) {
    f < |es| && es[f].kind == kind && forall i :: 0 <= i < f ==> es[i].kind != kind
  }

  /**
   The log is the step function of the quantity: empty before its first event, then its initial value
   at time 0 and, for every event of the node from there on, the value in force at that time.
   */
  ghost predicate IsStepLog(es: seq<Event>, kind: Kind, log: seq<Entry>) {
    && ((forall i :: 0 <= i < |es| ==> es[i].kind != kind) ==> log == [])
    && forall f: nat :: First(es, kind, f) ==> StepsFrom(es, kind, f, log)
  }

  lemma {:induction false} LatestAfter(es: seq<Event>, kind: Kind, value: nat)
    ensures After(Side(true, [], value), kind, es).first <==> forall i :: 0 <= i < |es| ==> es[i].kind != kind
    ensures forall k: nat :: Latest(es, kind, |es|, k) ==> After(Side(true, [], value), kind, es).value == es[k].newval
  {
    if es != [] {
      var init := es[..|es| - 1];
      LatestAfter(init, kind, value);
      forall k: nat | Latest(es, kind, |es|, k) ensures After(Side(true, [], value), kind, es).value == es[k].newval {
        if k < |init| {
          assert Latest(init, kind, |init|, k);
        }
      }
    }
  }

  ghost predicate StepsFrom(es: seq<Event>, kind: Kind, f: nat, log: seq<Entry>)
    requires f < |es|
  {
    && |log| == |es| - f + 1 && log[0] == Entry(0, es[f].oldval)
    && forall i, k: nat :: f <= i < |es| && Latest(es, kind, i + 1, k) ==>
         log[i - f + 1] == Entry(es[i].time, es[k].newval)
  }

  lemma {:induction false} OneMoreStep(
    init: seq<Event>, e: Event, kind: Kind, f: nat, log: seq<Entry>, value: nat)
    requires f < |init| && StepsFrom(init, kind, f, log)
    requires e.kind == kind ==> value == e.newval
    requires e.kind != kind ==> forall k: nat :: Latest(init, kind, |init|, k) ==> value == init[k].newval
    ensures StepsFrom(init + [e], kind, f, log + [Entry(e.time, value)])
  {
    var es, log' := init + [e], log + [Entry(e.time, value)];
    forall i, k: nat | f <= i < |es| && Latest(es, kind, i + 1, k)
      ensures log'[i - f + 1] == Entry(es[i].time, es[k].newval)
    {
      assert forall x :: 0 <= x < |init| ==> es[x] == init[x];
      if i < |init| {
        assert Latest(init, kind, i + 1, k);
      } else if k < |init| {
        assert es[|init|] == e;
        assert Latest(init, kind, |init|, k);
      }
    }
  }

  lemma {:induction false} FirstStep(init: seq<Event>, e: Event, kind: Kind)
    requires e.kind == kind && forall i :: 0 <= i < |init| ==> init[i].kind != kind
    ensures StepsFrom(init + [e], kind, |init|, [Entry(0, e.oldval), Entry(e.time, e.newval)])
  {
    var es := init + [e];
    forall k: nat | Latest(es, kind, |es|, k) ensures k == |init| {
      assert es[k].kind == kind;
    }
  }

  /** Each log is the step function of its quantity, whatever the order of the events. */
  lemma {:induction false} LogsAreStepFunctions(es: seq<Event>, kind: Kind, value: nat)
    ensures IsStepLog(es, kind, After(Side(true, [], value), kind, es).log)
  {
    if es != [] {
      var init, e := es[..|es| - 1], es[|es| - 1];
      LogsAreStepFunctions(init, kind, value);
      LatestAfter(init, kind, value);
      var before := After(Side(true, [], value), kind, init);
      assert es == init + [e];
      LogStep(init, e, kind, before, Observe(before, kind, e).log);
    }
  }

  lemma {:induction false} LogStep(init: seq<Event>, e: Event, kind: Kind, before: Side, log: seq<Entry>)
    requires IsStepLog(init, kind, before.log) && log == Observe(before, kind, e).log
    requires before.first <==> forall i :: 0 <= i < |init| ==> init[i].kind != kind
    requires forall k: nat :: Latest(init, kind, |init|, k) ==> before.value == init[k].newval
    ensures IsStepLog(init + [e], kind, log)
  {
    var es := init + [e];
    assert forall i :: 0 <= i < |init| ==> es[i] == init[i];
    assert es[|init|] == e;
    forall f: nat | First(es, kind, f) ensures StepsFrom(es, kind, f, log) {
      if f < |init| {
        assert First(init, kind, f) && !before.first;
        OneMoreStep(init, e, kind, f, before.log, Observe(before, kind, e).value);
      } else {
        assert before.first && before.log == [];
        FirstStep(init, e, kind);
      }
    }
  }

  /** From position `n` on, the log has one entry per event, with its time. */
  ghost predicate Stamped(log: seq<Entry>, n: nat, es: seq<Event>) {
    |log| == n + |es| && forall i :: 0 <= i < |es| ==> log[n + i].time == es[i].time
  }

  lemma {:induction false} SideGrows(s: Side, kind: Kind, es: seq<Event>)
    requires !s.first
    ensures var s' := After(s, kind, es); !s'.first && s.log <= s'.log && Stamped(s'.log, |s.log|, es)
  {
    if es != [] {
      var init, e := es[..|es| - 1], es[|es| - 1];
      SideGrows(s, kind, init);
      var before, after := After(s, kind, init), After(s, kind, es);
      assert after.log == before.log + [Entry(e.time, after.value)];
    }
  }

  /** Once both first events have come, every further event adds one entry with its time to both logs. */
  lemma {:induction false} LogsGrowTogether(c: Side, s: Side, es: seq<Event>)
    requires !c.first && !s.first
    ensures var c', s' := After(c, Cwnd, es), After(s, SsThresh, es);
            && c.log <= c'.log && Stamped(c'.log, |c.log|, es)
            && s.log <= s'.log && Stamped(s'.log, |s.log|, es)
  {
    SideGrows(c, Cwnd, es);
    SideGrows(s, SsThresh, es);
  }
}
