/**
 The configuration-path gatherer of utils/print-introspected-doxygen.cc.

 `Registry` is what the gatherer reads of the type system.  `StaticInformation` is the source's
 class, whose recursive `DoGather` pushes and pops its two stacks around every recursive call.  Its
 output is compared with the simple walks of the type graph, defined without reference to it.
 */
module ConfigPaths {
  type TypeId = int

  datatype Checker = Pointer(pointee: TypeId) | Container(item: TypeId) | Plain

  datatype Attribute = Attribute(name: string, checker: Checker)

  /** The registered types, their attributes, names and the pairs (child, ancestor) of IsChildOf. */
  datatype Registry = Registry(
    registered: seq<TypeId>, attributes: map<TypeId, seq<Attribute>>, names: map<TypeId, string>,
    descends: set<(TypeId, TypeId)>, objectType: TypeId)
  {
    function AttributesOf(t: TypeId): seq<Attribute> {
      if t in attributes then attributes[t] else []
    }

    function NameOf(t: TypeId): string {
      if t in names then names[t] else ""
    }

    ghost function Types(): set<TypeId> {
      set t | t in registered
    }

    /** Attributes of registered types point to registered types. */
    ghost predicate Closed() {
      forall t, i :: t in registered && 0 <= i < |AttributesOf(t)| ==>
        match AttributesOf(t)[i].checker
        case Pointer(p) => p in registered
        case Container(p) => p in registered
        case Plain => true
    }
  }

  datatype Edge = Edge(name: string, target: TypeId)

  // The edges that the three loops of DoGather follow, in their order.

  function AttributeEdge(reg: Registry, a: Attribute): seq<Edge> {
    match a.checker
    case Pointer(p) => if p == reg.objectType then [] else [Edge(a.name, p)]
    case Container(p) => [Edge(a.name + "/[i]", p)]
    case Plain => []
  }

  function ChildEdge(reg: Registry, t: TypeId, child: TypeId): seq<Edge> {
    if (child, t) in reg.descends then [Edge("$" + reg.NameOf(child), child)] else []
  }

  function Other(t: TypeId, pair: (TypeId, TypeId)): TypeId {
    if pair.1 == t then pair.0 else pair.1
  }

  function AggregateEdge(reg: Registry, t: TypeId, pair: (TypeId, TypeId)): seq<Edge> {
    if pair.0 == t || pair.1 == t then [Edge("$" + reg.NameOf(Other(t, pair)), Other(t, pair))] else []
  }

  function AttributeEdges(reg: Registry, attributes: seq<Attribute>): seq<Edge> {
    if attributes == [] then []
    else AttributeEdges(reg, attributes[..|attributes| - 1]) + AttributeEdge(reg, attributes[|attributes| - 1])
  }

  function ChildEdges(reg: Registry, t: TypeId, candidates: seq<TypeId>): seq<Edge> {
    if candidates == [] then []
    else ChildEdges(reg, t, candidates[..|candidates| - 1]) + ChildEdge(reg, t, candidates[|candidates| - 1])
  }

  function AggregateEdges(reg: Registry, t: TypeId, pairs: seq<(TypeId, TypeId)>): seq<Edge> {
    if pairs == [] then []
    else AggregateEdges(reg, t, pairs[..|pairs| - 1]) + AggregateEdge(reg, t, pairs[|pairs| - 1])
  }

  lemma {:induction false} AttributeOneMore(reg: Registry, attributes: seq<Attribute>, i: nat)
    requires i < |attributes|
    ensures AttributeEdges(reg, attributes[..i + 1]) ==
            AttributeEdges(reg, attributes[..i]) + AttributeEdge(reg, attributes[i])
  {
    assert attributes[..i + 1][..i] == attributes[..i];
  }

  lemma {:induction false} ChildOneMore(reg: Registry, t: TypeId, candidates: seq<TypeId>, i: nat, es: seq<Edge>)
    requires i < |candidates|
    ensures es + ChildEdges(reg, t, candidates[..i + 1]) ==
            (es + ChildEdges(reg, t, candidates[..i])) + ChildEdge(reg, t, candidates[i])
  {
    assert candidates[..i + 1][..i] == candidates[..i];
  }

  lemma {:induction false} AggregateOneMore(
    reg: Registry, t: TypeId, pairs: seq<(TypeId, TypeId)>, i: nat, es: seq<Edge>)
    requires i < |pairs|
    ensures es + AggregateEdges(reg, t, pairs[..i + 1]) ==
            (es + AggregateEdges(reg, t, pairs[..i])) + AggregateEdge(reg, t, pairs[i])
  {
    assert pairs[..i + 1][..i] == pairs[..i];
  }

  /** The edges of a type in the order in which DoGather follows them. */
  function EdgesOf(reg: Registry, aggregates: seq<(TypeId, TypeId)>, t: TypeId): seq<Edge> {
    AttributeEdges(reg, reg.AttributesOf(t)) + ChildEdges(reg, t, reg.registered) + AggregateEdges(reg, t, aggregates)
  }

  ghost predicate Targets(types: set<TypeId>, es: seq<Edge>) {
    forall i :: 0 <= i < |es| ==> es[i].target in types
  }

  /** A finite labelled graph, in general with cycles. */
  datatype Graph = Graph(types: set<TypeId>, edges: TypeId -> seq<Edge>) {
    ghost predicate Valid() {
      forall t {:trigger edges(t)} :: t in types ==> Targets(types, edges(t))
    }
  }

  lemma {:induction false} AttributeTargets(reg: Registry, attributes: seq<Attribute>)
    requires forall i :: 0 <= i < |attributes| ==> Targets(reg.Types(), AttributeEdge(reg, attributes[i]))
    ensures Targets(reg.Types(), AttributeEdges(reg, attributes))
  {
    if attributes != [] {
      AttributeTargets(reg, attributes[..|attributes| - 1]);
    }
  }

  lemma {:induction false} ChildTargets(reg: Registry, t: TypeId, candidates: seq<TypeId>)
    requires forall i :: 0 <= i < |candidates| ==> candidates[i] in reg.registered
    ensures Targets(reg.Types(), ChildEdges(reg, t, candidates))
  {
    if candidates != [] {
      ChildTargets(reg, t, candidates[..|candidates| - 1]);
    }
  }

  lemma {:induction false} AggregateTargets(reg: Registry, t: TypeId, pairs: seq<(TypeId, TypeId)>)
    requires forall i :: 0 <= i < |pairs| ==> pairs[i].0 in reg.registered && pairs[i].1 in reg.registered
    ensures Targets(reg.Types(), AggregateEdges(reg, t, pairs))
  {
    if pairs != [] {
      AggregateTargets(reg, t, pairs[..|pairs| - 1]);
    }
  }

  ghost predicate ValidPairs(reg: Registry, pairs: seq<(TypeId, TypeId)>) {
    forall i :: 0 <= i < |pairs| ==> pairs[i].0 in reg.registered && pairs[i].1 in reg.registered
  }

  /** The type graph of a registry and the recorded aggregations. */
  ghost function TypeGraph(reg: Registry, aggregates: seq<(TypeId, TypeId)>): (g: Graph)
    requires reg.Closed() && ValidPairs(reg, aggregates)
    ensures g.Valid() && g.types == reg.Types()
    ensures forall t {:trigger g.edges(t)} :: g.edges(t) == EdgesOf(reg, aggregates, t)
  {
    var g := Graph(reg.Types(), t => EdgesOf(reg, aggregates, t));
    assert g.Valid() by {
      forall t <- g.types ensures Targets(g.types, g.edges(t)) {
        AttributeTargets(reg, reg.AttributesOf(t));
        ChildTargets(reg, t, reg.registered);
        AggregateTargets(reg, t, aggregates);
      }
    }
    g
  }

  // ---------------------------------------------------------------- what the gatherer records

  datatype Entry = Entry(tid: TypeId, path: string)

  function PathString(path: seq<string>): string {
    if path == [] then "" else PathString(path[..|path| - 1]) + "/" + path[|path| - 1]
  }

  ghost function OnStack(stack: seq<TypeId>): set<TypeId> {
    set t | t in stack
  }

  /** The types that are not ancestors yet: the depth still available to the recursion. */
  ghost function Room(g: Graph, stack: seq<TypeId>): nat {
    |g.types - OnStack(stack)|
  }

  lemma RoomShrinks(g: Graph, stack: seq<TypeId>, t: TypeId)
    requires t in g.types && t !in stack
    ensures Room(g, stack + [t]) < Room(g, stack)
  {
    var a, b := g.types - OnStack(stack), g.types - OnStack(stack + [t]);
    assert OnStack(stack + [t]) == OnStack(stack) + {t};
    assert b == a - {t} && t in a;
  }

  /** What DoGather(t) appends to the output, given the labels followed so far and the ancestors. */
  ghost function Entries(g: Graph, t: TypeId, path: seq<string>, stack: seq<TypeId>): seq<Entry>
    requires g.Valid() && t in g.types
    decreases Room(g, stack), 1, 0
  {
    if t in stack then []
    else
      RoomShrinks(g, stack, t);
      [Entry(t, PathString(path))] + EntriesVia(g, g.edges(t), path, stack + [t])
  }

  ghost function EntriesVia(g: Graph, es: seq<Edge>, path: seq<string>, stack: seq<TypeId>): seq<Entry>
    requires g.Valid() && Targets(g.types, es)
    decreases Room(g, stack), 2, |es|
  {
    if es == [] then []
    else
      var e := es[|es| - 1];
      EntriesVia(g, es[..|es| - 1], path, stack) + Entries(g, e.target, path + [e.name], stack)
  }

  lemma {:induction false} ViaOneMore(
    g: Graph, es: seq<Edge>, e: Edge, path: seq<string>, stack: seq<TypeId>, start: seq<Entry>)
    requires g.Valid() && Targets(g.types, es) && e.target in g.types
    ensures Targets(g.types, es + [e])
    ensures start + EntriesVia(g, es + [e], path, stack) ==
            (start + EntriesVia(g, es, path, stack)) + Entries(g, e.target, path + [e.name], stack)
  {
    assert (es + [e])[..|es|] == es;
  }

  ghost function PathsOf(output: seq<Entry>, t: TypeId): seq<string> {
    if output == [] then []
    else
      var last := output[|output| - 1];
      PathsOf(output[..|output| - 1], t) + if last.tid == t then [last.path] else []
  }

  /** What one Gather call after another appends. */
  ghost function EntriesFrom(g: Graph, roots: seq<TypeId>): seq<Entry>
    requires g.Valid() && forall i :: 0 <= i < |roots| ==> roots[i] in g.types
  {
    if roots == [] then []
    else EntriesFrom(g, roots[..|roots| - 1]) + Entries(g, roots[|roots| - 1], [], [])
  }

  lemma {:induction false} EntriesOpen(g: Graph, t: TypeId, path: seq<string>, stack: seq<TypeId>, start: seq<Entry>)
    requires g.Valid() && t in g.types && t !in stack
    ensures Targets(g.types, g.edges(t))
    ensures start + Entries(g, t, path, stack) ==
            (start + [Entry(t, PathString(path))]) + EntriesVia(g, g.edges(t), path, stack + [t])
  {
  }

  lemma {:induction false} RootsOneMore(g: Graph, roots: seq<TypeId>, i: nat, start: seq<Entry>)
    requires g.Valid() && (forall k :: 0 <= k < |roots| ==> roots[k] in g.types) && i < |roots|
    ensures start + EntriesFrom(g, roots[..i + 1]) ==
            (start + EntriesFrom(g, roots[..i])) + Entries(g, roots[i], [], [])
  {
    assert roots[..i + 1][..i] == roots[..i];
  }

  // ---------------------------------------------------------------- Uniquefy

  ghost predicate StrictOrder<T(!new)>(less: (T, T) -> bool) {
    && (forall x :: !less(x, x))
    && (forall x, y :: less(x, y) || x == y || less(y, x))
    && (forall x, y, z :: less(x, y) && less(y, z) ==> less(x, z))
  }

  /** Sorted and without repetitions. */
  ghost predicate Increasing<T>(s: seq<T>, less: (T, T) -> bool) {
    forall i, j :: 0 <= i < j < |s| ==> less(s[i], s[j])
  }

  /** What Uniquefy is documented to make of its argument `t`. */
  ghost predicate Uniquefied<T(!new)>(r: seq<T>, t: seq<T>, less: (T, T) -> bool) {
    Increasing(r, less) && forall x :: x in r <==> x in t
  }

  /** std::string's operator <. */
  predicate StringLess(a: string, b: string) {
    b != "" && (a == "" || a[0] < b[0] || (a[0] == b[0] && StringLess(a[1..], b[1..])))
  }

  /** std::pair's operator <. */
  predicate EntryLess(a: Entry, b: Entry) {
    a.tid < b.tid || (a.tid == b.tid && StringLess(a.path, b.path))
  }

  lemma {:induction false} StringTotal(a: string, b: string)
    ensures !StringLess(a, a) && (StringLess(a, b) || a == b || StringLess(b, a))
    decreases |a|
  {
    if a != "" {
      StringTotal(a[1..], if b != "" then b[1..] else "");
      assert a == [a[0]] + a[1..];
      assert b != "" ==> b == [b[0]] + b[1..];
    }
  }

  lemma {:induction false} StringTransitive(a: string, b: string, c: string)
    requires StringLess(a, b) && StringLess(b, c)
    ensures StringLess(a, c)
    decreases |a|
  {
    if a != "" && a[0] == b[0] == c[0] {
      StringTransitive(a[1..], b[1..], c[1..]);
    }
  }

  lemma {:induction false} StringsAreOrdered()
    ensures StrictOrder(StringLess)
  {
    forall a, b ensures !StringLess(a, a) && (StringLess(a, b) || a == b || StringLess(b, a)) {
      StringTotal(a, b);
    }
    forall a, b, c | StringLess(a, b) && StringLess(b, c) ensures StringLess(a, c) {
      StringTransitive(a, b, c);
    }
  }

  lemma {:induction false} EntriesAreOrdered()
    ensures StrictOrder(EntryLess)
  {
    StringsAreOrdered();
  }

  /** Puts `x` into its place, unless it is there already. */
  method InsertOnce<T(==, !new)>(s: seq<T>, x: T, less: (T, T) -> bool) returns (r: seq<T>)
    requires StrictOrder(less) && Increasing(s, less)
    ensures Uniquefied(r, s + [x], less)
  {
    var k := 0;
    while k < |s| && less(s[k], x)
      invariant k <= |s| && forall i :: 0 <= i < k ==> less(s[i], x)
    {
      k := k + 1;
    }
    if k < |s| && s[k] == x {
      assert x in s;
      return s;
    }
    r := s[..k] + [x] + s[k..];
    if k < |s| {
      TailAbove(s, x, k, less);
    }
    InsertAt(s, x, k, less);
  }

  lemma {:induction false} TailAbove<T(!new)>(s: seq<T>, x: T, k: nat, less: (T, T) -> bool)
    requires StrictOrder(less) && Increasing(s, less) && k < |s| && less(x, s[k])
    ensures forall i :: k <= i < |s| ==> less(x, s[i])
  {
    forall i | k < i < |s| ensures less(x, s[i]) {
      assert less(s[k], s[i]);
    }
  }

  lemma {:induction false} InsertAt<T(!new)>(s: seq<T>, x: T, k: nat, less: (T, T) -> bool)
    requires Increasing(s, less) && k <= |s|
    requires (forall i :: 0 <= i < k ==> less(s[i], x)) && (forall i :: k <= i < |s| ==> less(x, s[i]))
    ensures Uniquefied(s[..k] + [x] + s[k..], s + [x], less)
  {
    var r := s[..k] + [x] + s[k..];
    forall i, j | 0 <= i < j < |r| ensures less(r[i], r[j]) {
      assert r[i] == if i < k then s[i] else if i == k then x else s[i - 1];
      assert r[j] == if j < k then s[j] else if j == k then x else s[j - 1];
    }
    assert s == s[..k] + s[k..];
  }

  /** Takes its container by value: what it sorts and deduplicates is the copy, which nobody sees. */
  method Uniquefy<T(==, !new)>(t: seq<T>, less: (T, T) -> bool) returns (ghost discarded: seq<T>)
    requires StrictOrder(less)
    ensures Uniquefied(discarded, t, less)
  {
    var copy := [];
    for i := 0 to |t|
      invariant Uniquefied(copy, t[..i], less)
    {
      assert t[..i + 1] == t[..i] + [t[i]];
      copy := InsertOnce(copy, t[i], less);
    }
    assert t[..|t|] == t;
    discarded := copy;
  }

  // ---------------------------------------------------------------- the registrations

  /** The pairs of names that are both registered, as the types they name. */
  ghost function KnownPairs(names: seq<(string, string)>, lookup: map<string, TypeId>): seq<(TypeId, TypeId)> {
    if names == [] then []
    else
      var (a, b) := names[|names| - 1];
      KnownPairs(names[..|names| - 1], lookup) + if a in lookup && b in lookup then [(lookup[a], lookup[b])] else []
  }

  /** The first unregistered name of every other pair. */
  ghost function UnknownNames(names: seq<(string, string)>, lookup: map<string, TypeId>): seq<string> {
    if names == [] then []
    else
      var (a, b) := names[|names| - 1];
      UnknownNames(names[..|names| - 1], lookup)
      + if a !in lookup then [a] else if b !in lookup then [b] else []
  }

  /** The pair has a name that is not registered. */
  ghost predicate Unknown(pair: (string, string), lookup: map<string, TypeId>) {
    pair.0 !in lookup || pair.1 !in lookup
  }

  ghost function FirstUnknown(pair: (string, string), lookup: map<string, TypeId>): string {
    if pair.0 !in lookup then pair.0 else pair.1
  }

  /** The name `x` is the first unregistered one of some pair. */
  ghost predicate IsMissing(names: seq<(string, string)>, lookup: map<string, TypeId>, x: string) {
    exists i :: 0 <= i < |names| && Unknown(names[i], lookup) && FirstUnknown(names[i], lookup) == x
  }

  /** What GetNoTypeIds is documented to return: the missing names, sorted and without repetitions. */
  ghost predicate SortedMissing(r: seq<string>, names: seq<(string, string)>, lookup: map<string, TypeId>) {
    Increasing(r, StringLess) && forall x :: x in r <==> IsMissing(names, lookup, x)
  }

  /** The pairs were registered in the strict order of the names that are missing from them. */
  ghost predicate RegisteredInOrder(names: seq<(string, string)>, lookup: map<string, TypeId>) {
    forall i, j :: 0 <= i < j < |names| && Unknown(names[i], lookup) && Unknown(names[j], lookup) ==>
      StringLess(FirstUnknown(names[i], lookup), FirstUnknown(names[j], lookup))
  }

  lemma {:induction false} UnknownAreMissing(names: seq<(string, string)>, lookup: map<string, TypeId>, x: string)
    ensures x in UnknownNames(names, lookup) <==> IsMissing(names, lookup, x)
  {
    if names != [] {
      var init, last := names[..|names| - 1], names[|names| - 1];
      UnknownAreMissing(init, lookup, x);
      assert forall i :: 0 <= i < |init| ==> init[i] == names[i];
      if IsMissing(names, lookup, x) && !IsMissing(init, lookup, x) {
        var i :| 0 <= i < |names| && Unknown(names[i], lookup) && FirstUnknown(names[i], lookup) == x;
        assert i == |init|;
      }
    }
  }

  lemma IncreasingOneMore(s: seq<string>, x: string)
    ensures Increasing(s + [x], StringLess) <==> Increasing(s, StringLess) && forall y <- s :: StringLess(y, x)
  {
    var r := s + [x];
    assert r[|s|] == x && forall i :: 0 <= i < |s| ==> r[i] == s[i];
    if Increasing(r, StringLess) {
      forall y <- s ensures StringLess(y, x) {
        var i :| 0 <= i < |s| && s[i] == y;
        assert StringLess(r[i], r[|s|]);
      }
      forall i, j | 0 <= i < j < |s| ensures StringLess(s[i], s[j]) {
        assert StringLess(r[i], r[j]);
      }
    }
  }

  lemma {:induction false} UnknownIncreasing(names: seq<(string, string)>, lookup: map<string, TypeId>)
    ensures Increasing(UnknownNames(names, lookup), StringLess) <==> RegisteredInOrder(names, lookup)
  {
    if names != [] {
      var init, last := names[..|names| - 1], names[|names| - 1];
      UnknownIncreasing(init, lookup);
      var before := UnknownNames(init, lookup);
      if Unknown(last, lookup) {
        IncreasingOneMore(before, FirstUnknown(last, lookup));
        forall x ensures x in before <==> IsMissing(init, lookup, x) {
          UnknownAreMissing(init, lookup, x);
        }
        InOrderOneMore(init, last, lookup);
        assert names == init + [last];
      } else {
        assert UnknownNames(names, lookup) == before;
        assert forall i :: 0 <= i < |init| ==> init[i] == names[i];
      }
    }
  }

  lemma InOrderOneMore(init: seq<(string, string)>, last: (string, string), lookup: map<string, TypeId>)
    requires Unknown(last, lookup)
    ensures RegisteredInOrder(init + [last], lookup) <==>
            RegisteredInOrder(init, lookup)
            && forall x :: IsMissing(init, lookup, x) ==> StringLess(x, FirstUnknown(last, lookup))
  {
    var all := init + [last];
    assert all[|init|] == last && forall i :: 0 <= i < |init| ==> all[i] == init[i];
    if RegisteredInOrder(all, lookup) {
      forall x | IsMissing(init, lookup, x) ensures StringLess(x, FirstUnknown(last, lookup)) {
        var i :| 0 <= i < |init| && Unknown(init[i], lookup) && FirstUnknown(init[i], lookup) == x;
        assert Unknown(all[i], lookup) && Unknown(all[|init|], lookup);
      }
      forall i, j | 0 <= i < j < |init| && Unknown(init[i], lookup) && Unknown(init[j], lookup)
        ensures StringLess(FirstUnknown(init[i], lookup), FirstUnknown(init[j], lookup))
      {
        assert Unknown(all[i], lookup) && Unknown(all[j], lookup);
      }
    }
    if RegisteredInOrder(init, lookup)
       && forall x :: IsMissing(init, lookup, x) ==> StringLess(x, FirstUnknown(last, lookup)) {
      forall i, j | 0 <= i < j < |all| && Unknown(all[i], lookup) && Unknown(all[j], lookup)
        ensures StringLess(FirstUnknown(all[i], lookup), FirstUnknown(all[j], lookup))
      {
        assert Unknown(init[i], lookup);
        if j < |init| {
          assert Unknown(init[j], lookup);
        } else {
          assert IsMissing(init, lookup, FirstUnknown(init[i], lookup));
        }
      }
    }
  }

  class StaticInformation {
    const reg: Registry
    var output: seq<Entry>
    var currentPath: seq<string>
    var alreadyProcessed: seq<TypeId>
    var aggregates: seq<(TypeId, TypeId)>
    var noTids: seq<string>

    ghost predicate Valid()
      reads this`aggregates
    {
      reg.Closed() && ValidPairs(reg, aggregates)
    }

    /** `g` is the graph that the registry and the recorded aggregations describe. */
    ghost predicate Describes(g: Graph)
      reads this`aggregates
    {
      && Valid() && g.Valid() && (forall t :: t in reg.registered <==> t in g.types)
      && forall t {:trigger g.edges(t)} :: t in g.types ==> g.edges(t) == EdgesOf(reg, aggregates, t)
    }

    constructor (registry: Registry)
      requires registry.Closed()
      ensures Valid() && reg == registry
      ensures output == [] && currentPath == [] && alreadyProcessed == [] && aggregates == [] && noTids == []
    {
      reg := registry;
      output, currentPath, alreadyProcessed, aggregates, noTids := [], [], [], [], [];
    }

    /** Looks both names up and records the pair, or the first name that is not registered. */
    method RecordAggregationInfo(a: string, b: string, lookup: map<string, TypeId>)
      requires Valid() && forall name <- lookup :: lookup[name] in reg.registered
      modifies this`aggregates, this`noTids
      ensures Valid()
      ensures a !in lookup ==> noTids == old(noTids) + [a] && aggregates == old(aggregates)
      ensures a in lookup && b !in lookup ==> noTids == old(noTids) + [b] && aggregates == old(aggregates)
      ensures a in lookup && b in lookup ==>
                noTids == old(noTids) && aggregates == old(aggregates) + [(lookup[a], lookup[b])]
    {
      if a !in lookup {
        noTids := noTids + [a];
        return;
      }
      if b !in lookup {
        noTids := noTids + [b];
        return;
      }
      aggregates := aggregates + [(lookup[a], lookup[b])];
    }

    /** The registrations one after the other. */
    method RecordAll(names: seq<(string, string)>, lookup: map<string, TypeId>)
      requires Valid() && aggregates == [] && noTids == []
      requires forall name <- lookup :: lookup[name] in reg.registered
      modifies this`aggregates, this`noTids
      ensures Valid() && aggregates == KnownPairs(names, lookup) && noTids == UnknownNames(names, lookup)
    {
      for i := 0 to |names|
        invariant Valid()
        invariant aggregates == KnownPairs(names[..i], lookup) && noTids == UnknownNames(names[..i], lookup)
      {
        assert names[..i + 1][..i] == names[..i];
        RecordAggregationInfo(names[i].0, names[i].1, lookup);
      }
      assert names[..|names|] == names;
    }

    method GetCurrentPath() returns (path: string)
      ensures path == PathString(currentPath)
    {
      path := "";
      for i := 0 to |currentPath|
        invariant path == PathString(currentPath[..i])
      {
        assert currentPath[..i + 1][..i] == currentPath[..i];
        path := path + "/" + currentPath[i];
      }
      assert currentPath[..|currentPath|] == currentPath;
    }

    method HasAlreadyBeenProcessed(tid: TypeId) returns (r: bool)
      ensures r <==> tid in alreadyProcessed
    {
      for i := 0 to |alreadyProcessed|
        invariant tid !in alreadyProcessed[..i]
      {
        if alreadyProcessed[i] == tid {
          return true;
        }
      }
      return false;
    }

    /**
     One recursive call with its pushes and pops, as every branch of DoGather makes it: `es` are the
     edges of `tid` followed before, and `start` is the output before the first of them.
     */
    method Follow(e: Edge, tid: TypeId, ghost g: Graph, ghost es: seq<Edge>, ghost start: seq<Entry>)
      requires Describes(g) && tid in g.types && e.target in g.types && tid !in alreadyProcessed
      requires Targets(g.types, es) && output == start + EntriesVia(g, es, currentPath, alreadyProcessed + [tid])
      modifies this`output, this`currentPath, this`alreadyProcessed
      ensures currentPath == old(currentPath) && alreadyProcessed == old(alreadyProcessed)
      ensures Targets(g.types, es + [e])
      ensures output == start + EntriesVia(g, es + [e], currentPath, alreadyProcessed + [tid])
      decreases Room(g, alreadyProcessed), 0, 0
    {
      RoomShrinks(g, alreadyProcessed, tid);
      ViaOneMore(g, es, e, currentPath, alreadyProcessed + [tid], start);
      ghost var path, stack := currentPath, alreadyProcessed;
      currentPath := currentPath + [e.name];
      alreadyProcessed := alreadyProcessed + [tid];
      DoGather(e.target, g);
      alreadyProcessed := alreadyProcessed[..|alreadyProcessed| - 1];
      currentPath := currentPath[..|currentPath| - 1];
      assert currentPath == path && alreadyProcessed == stack;
    }

    /** Appends the entries of every way on from `tid` and leaves both stacks as they were. */
    method DoGather(tid: TypeId, ghost g: Graph)
      requires Describes(g) && tid in g.types
      modifies this`output, this`currentPath, this`alreadyProcessed
      ensures currentPath == old(currentPath) && alreadyProcessed == old(alreadyProcessed)
      ensures output == old(output) + Entries(g, tid, currentPath, alreadyProcessed)
      decreases Room(g, alreadyProcessed), 1, 0
    {
      var seen := HasAlreadyBeenProcessed(tid);
      if seen {
        return;
      }
      EntriesOpen(g, tid, currentPath, alreadyProcessed, output);
      var here := GetCurrentPath();
      output := output + [Entry(tid, here)]; // RecordOutput
      ghost var start := output;
      ghost var es := FollowAttributes(tid, g, start);
      es := FollowChildren(tid, g, es, start);
      es := FollowAggregates(tid, g, es, start);
      assert es == g.edges(tid);
    }

    method FollowAttributes(tid: TypeId, ghost g: Graph, ghost start: seq<Entry>) returns (ghost es: seq<Edge>)
      requires Describes(g) && tid in g.types && tid !in alreadyProcessed && output == start
      modifies this`output, this`currentPath, this`alreadyProcessed
      ensures currentPath == old(currentPath) && alreadyProcessed == old(alreadyProcessed)
      ensures es == AttributeEdges(reg, reg.AttributesOf(tid)) && Targets(g.types, es)
      ensures output == start + EntriesVia(g, es, currentPath, alreadyProcessed + [tid])
      decreases Room(g, alreadyProcessed), 0, 1
    {
      var attributes := reg.AttributesOf(tid);
      es := [];
      for i := 0 to |attributes|
        invariant currentPath == old(currentPath) && alreadyProcessed == old(alreadyProcessed)
        invariant es == AttributeEdges(reg, attributes[..i]) && Targets(g.types, es)
        invariant output == start + EntriesVia(g, es, currentPath, alreadyProcessed + [tid])
      {
        var info := attributes[i];
        AttributeOneMore(reg, attributes, i);
        match info.checker {
          case Pointer(pointee) =>
            if pointee != reg.objectType {
              Follow(Edge(info.name, pointee), tid, g, es, start);
              es := es + [Edge(info.name, pointee)];
            }
          case Container(item) =>
            Follow(Edge(info.name + "/[i]", item), tid, g, es, start);
            es := es + [Edge(info.name + "/[i]", item)];
          case Plain =>
        }
      }
      assert attributes[..|attributes|] == attributes;
    }

    method FollowChildren(tid: TypeId, ghost g: Graph, ghost es0: seq<Edge>, ghost start: seq<Entry>)
      returns (ghost es: seq<Edge>)
      requires Describes(g) && tid in g.types && tid !in alreadyProcessed && Targets(g.types, es0)
      requires output == start + EntriesVia(g, es0, currentPath, alreadyProcessed + [tid])
      modifies this`output, this`currentPath, this`alreadyProcessed
      ensures currentPath == old(currentPath) && alreadyProcessed == old(alreadyProcessed)
      ensures es == es0 + ChildEdges(reg, tid, reg.registered) && Targets(g.types, es)
      ensures output == start + EntriesVia(g, es, currentPath, alreadyProcessed + [tid])
      decreases Room(g, alreadyProcessed), 0, 1
    {
      es := es0;
      for j := 0 to |reg.registered|
        invariant currentPath == old(currentPath) && alreadyProcessed == old(alreadyProcessed)
        invariant es == es0 + ChildEdges(reg, tid, reg.registered[..j]) && Targets(g.types, es)
        invariant output == start + EntriesVia(g, es, currentPath, alreadyProcessed + [tid])
      {
        var child := reg.registered[j];
        ChildOneMore(reg, tid, reg.registered, j, es0);
        if (child, tid) in reg.descends {
          Follow(Edge("$" + reg.NameOf(child), child), tid, g, es, start);
          es := es + [Edge("$" + reg.NameOf(child), child)];
        }
      }
      assert reg.registered[..|reg.registered|] == reg.registered;
    }

    method FollowAggregates(tid: TypeId, ghost g: Graph, ghost es0: seq<Edge>, ghost start: seq<Entry>)
      returns (ghost es: seq<Edge>)
      requires Describes(g) && tid in g.types && tid !in alreadyProcessed && Targets(g.types, es0)
      requires output == start + EntriesVia(g, es0, currentPath, alreadyProcessed + [tid])
      modifies this`output, this`currentPath, this`alreadyProcessed
      ensures currentPath == old(currentPath) && alreadyProcessed == old(alreadyProcessed)
      ensures es == es0 + AggregateEdges(reg, tid, aggregates) && Targets(g.types, es)
      ensures output == start + EntriesVia(g, es, currentPath, alreadyProcessed + [tid])
      decreases Room(g, alreadyProcessed), 0, 1
    {
      es := es0;
      for i := 0 to |aggregates|
        invariant currentPath == old(currentPath) && alreadyProcessed == old(alreadyProcessed)
        invariant es == es0 + AggregateEdges(reg, tid, aggregates[..i]) && Targets(g.types, es)
        invariant output == start + EntriesVia(g, es, currentPath, alreadyProcessed + [tid])
      {
        var item := aggregates[i];
        AggregateOneMore(reg, tid, aggregates, i, es0);
        if item.0 == tid || item.1 == tid {
          var other := item.1;
          if item.1 == tid {
            other := item.0;
          }
          Follow(Edge("$" + reg.NameOf(other), other), tid, g, es, start);
          es := es + [Edge("$" + reg.NameOf(other), other)];
        }
      }
      assert aggregates[..|aggregates|] == aggregates;
    }

    /** Gathering only appends: what Uniquefy does to its own copy of the output is lost. */
    method Gather(tid: TypeId, ghost g: Graph)
      requires Describes(g) && tid in g.types && currentPath == [] && alreadyProcessed == []
      modifies this`output, this`currentPath, this`alreadyProcessed
      ensures currentPath == [] && alreadyProcessed == []
      ensures output == old(output) + Entries(g, tid, [], [])
    {
      DoGather(tid, g);
      EntriesAreOrdered();
      ghost var _ := Uniquefy(output, EntryLess);
    }

    /** The loop over the root objects that fills the output. */
    method GatherRoots(roots: seq<TypeId>, ghost g: Graph)
      requires Describes(g) && currentPath == [] && alreadyProcessed == []
      requires forall i :: 0 <= i < |roots| ==> roots[i] in g.types
      modifies this`output, this`currentPath, this`alreadyProcessed
      ensures output == old(output) + EntriesFrom(g, roots)
    {
      for i := 0 to |roots|
        invariant currentPath == [] && alreadyProcessed == []
        invariant output == old(output) + EntriesFrom(g, roots[..i])
      {
        RootsOneMore(g, roots, i, old(output));
        Gather(roots[i], g);
      }
      assert roots[..|roots|] == roots;
    }

    method Get(tid: TypeId) returns (paths: seq<string>)
      ensures paths == PathsOf(output, tid)
    {
      paths := [];
      for i := 0 to |output|
        invariant paths == PathsOf(output[..i], tid)
      {
        assert output[..i + 1][..i] == output[..i];
        if output[i].tid == tid {
          paths := paths + [output[i].path];
        }
      }
      assert output[..|output|] == output;
    }

    /**
     The names come back as recorded.  That is the documented list of the missing names exactly if the
     pairs `names` that were registered came in the order of the names missing from them.
     */
    method GetNoTypeIds(ghost names: seq<(string, string)>, ghost lookup: map<string, TypeId>)
      returns (missing: seq<string>)
      requires noTids == UnknownNames(names, lookup)
      ensures missing == noTids
      ensures SortedMissing(missing, names, lookup) <==> RegisteredInOrder(names, lookup)
    {
      StringsAreOrdered();
      ghost var _ := Uniquefy(noTids, StringLess);
      missing := noTids;
      UnknownIncreasing(names, lookup);
      forall x ensures x in missing <==> IsMissing(names, lookup, x) {
        UnknownAreMissing(names, lookup, x);
      }
    }
  }

  /** The registrations one after the other, then the walk from every root object. */
  method GetTypicalAggregations(
    reg: Registry, lookup: map<string, TypeId>, names: seq<(string, string)>, roots: seq<TypeId>)
    returns (info: StaticInformation)
    requires reg.Closed() && (forall name <- lookup :: lookup[name] in reg.registered)
    requires forall i :: 0 <= i < |roots| ==> roots[i] in reg.registered
    ensures fresh(info) && info.reg == reg && info.noTids == UnknownNames(names, lookup)
    ensures info.aggregates == KnownPairs(names, lookup) && ValidPairs(reg, KnownPairs(names, lookup))
    ensures info.output == EntriesFrom(TypeGraph(reg, KnownPairs(names, lookup)), roots)
  {
    info := new StaticInformation(reg);
    info.RecordAll(names, lookup);
    ghost var g := TypeGraph(reg, info.aggregates);
    info.GatherRoots(roots, g);
  }

  /** What the program prints as missing: the documented list exactly if the registrations came in order. */
  method TypicalNoTypeIds(
    reg: Registry, lookup: map<string, TypeId>, names: seq<(string, string)>, roots: seq<TypeId>)
    returns (missing: seq<string>)
    requires reg.Closed() && (forall name <- lookup :: lookup[name] in reg.registered)
    requires forall i :: 0 <= i < |roots| ==> roots[i] in reg.registered
    ensures forall x :: x in missing <==> IsMissing(names, lookup, x)
    ensures SortedMissing(missing, names, lookup) <==> RegisteredInOrder(names, lookup)
  {
    var info := GetTypicalAggregations(reg, lookup, names, roots);
    missing := info.GetNoTypeIds(names, lookup);
    forall x ensures x in missing <==> IsMissing(names, lookup, x) {
      UnknownAreMissing(names, lookup, x);
    }
  }

  /** Strings are ordered by the first character in which they differ, a prefix first. */
  lemma {:induction false} StringLessMeaning(a: string, b: string)
    ensures StringLess(a, b) <==>
            exists n :: 0 <= n <= |a| && n < |b| && a[..n] == b[..n] && (n == |a| || a[n] < b[n])
    decreases |a|
  {
    if a == "" {
      assert b != "" ==> a[..0] == b[..0];
    } else if b != "" {
      var a', b' := a[1..], b[1..];
      StringLessMeaning(a', b');
      if a[0] == b[0] && StringLess(a', b') {
        var n :| 0 <= n <= |a'| && n < |b'| && a'[..n] == b'[..n] && (n == |a'| || a'[n] < b'[n]);
        assert a[..n + 1] == [a[0]] + a'[..n] && b[..n + 1] == [b[0]] + b'[..n];
      }
      if a[0] < b[0] {
        assert a[..0] == b[..0];
      }
      if n :| 0 < n <= |a| && n < |b| && a[..n] == b[..n] && (n == |a| || a[n] < b[n]) {
        assert a[..n][0] == b[..n][0];
        assert a'[..n - 1] == a[..n][1..] && b'[..n - 1] == b[..n][1..];
      }
    }
  }
}
