/**
 Repetitions in terms of what was registered: which types are linked twice in the graph of a registry,
 and when the recorded output is free of repetitions although Uniquefy does not touch it.
 */
module ConfigRegistry {
  import opened ConfigPaths
  import opened ConfigWalks
  import opened ConfigRepeats

  type Pairs = seq<(TypeId, TypeId)>

  /** The edge `e` is at two positions. */
  ghost predicate Twice(es: seq<Edge>, e: Edge) {
    exists i, j :: 0 <= i < j < |es| && es[i] == e && es[j] == e
  }

  lemma {:induction false} TwiceConcat(a: seq<Edge>, b: seq<Edge>, e: Edge)
    ensures Twice(a + b, e) <==> Twice(a, e) || Twice(b, e) || (e in a && e in b)
  {
    var s := a + b;
    assert forall i :: 0 <= i < |a| ==> s[i] == a[i];
    assert forall i :: 0 <= i < |b| ==> s[|a| + i] == b[i];
    if i, j :| 0 <= i < j < |s| && s[i] == e && s[j] == e {
      if |a| <= i {
        assert b[i - |a|] == e && b[j - |a|] == e;
      } else if |a| <= j {
        assert a[i] == e && b[j - |a|] == e;
      }
    }
    if e in a && e in b {
      var i :| 0 <= i < |a| && a[i] == e;
      var j :| 0 <= j < |b| && b[j] == e;
      assert s[i] == e && s[|a| + j] == e;
    }
    if i, j :| 0 <= i < j < |b| && b[i] == e && b[j] == e {
      assert s[|a| + i] == e && s[|a| + j] == e;
    }
    if i, j :| 0 <= i < j < |a| && a[i] == e && a[j] == e {
      assert s[i] == e && s[j] == e;
    }
  }

  lemma NotTwice(es: seq<Edge>, e: Edge)
    requires |es| <= 1
    ensures !Twice(es, e)
  {
  }

  // ---------------------------------------------------------------- which edges there are

  /** The label of an edge to a descendant or to the other side of an aggregation. */
  ghost predicate NamesTarget(reg: Registry, e: Edge) {
    e.name == "$" + reg.NameOf(e.target)
  }

  /** The aggregation links `x` with `y`. */
  ghost predicate Links(pair: (TypeId, TypeId), x: TypeId, y: TypeId) {
    (pair.0 == x || pair.1 == x) && Other(x, pair) == y
  }

  ghost predicate Linked(pairs: Pairs, x: TypeId, y: TypeId) {
    exists i :: 0 <= i < |pairs| && Links(pairs[i], x, y)
  }

  ghost predicate LinkedTwice(pairs: Pairs, x: TypeId, y: TypeId) {
    exists i, j :: 0 <= i < j < |pairs| && Links(pairs[i], x, y) && Links(pairs[j], x, y)
  }

  lemma {:induction false} LinkOneMore(init: Pairs, pair: (TypeId, TypeId), x: TypeId, y: TypeId)
    ensures Linked(init + [pair], x, y) <==> Linked(init, x, y) || Links(pair, x, y)
    ensures LinkedTwice(init + [pair], x, y) <==>
            LinkedTwice(init, x, y) || (Linked(init, x, y) && Links(pair, x, y))
  {
    var all := init + [pair];
    assert forall i :: 0 <= i < |init| ==> all[i] == init[i];
    assert all[|init|] == pair;
  }

  lemma {:induction false} AggregateLinks(reg: Registry, x: TypeId, pairs: Pairs, e: Edge)
    ensures e in AggregateEdges(reg, x, pairs) <==> NamesTarget(reg, e) && Linked(pairs, x, e.target)
    ensures Twice(AggregateEdges(reg, x, pairs), e) <==> NamesTarget(reg, e) && LinkedTwice(pairs, x, e.target)
  {
    if pairs != [] {
      var init, last := pairs[..|pairs| - 1], pairs[|pairs| - 1];
      assert pairs == init + [last];
      AggregateLinks(reg, x, init, e);
      LinkOneMore(init, last, x, e.target);
      NotTwice(AggregateEdge(reg, x, last), e);
      TwiceConcat(AggregateEdges(reg, x, init), AggregateEdge(reg, x, last), e);
    }
  }

  ghost predicate Distinct(types: seq<TypeId>) {
    forall i, j :: 0 <= i < j < |types| ==> types[i] != types[j]
  }

  lemma {:induction false} ChildLinks(reg: Registry, x: TypeId, candidates: seq<TypeId>, e: Edge)
    requires Distinct(candidates)
    ensures e in ChildEdges(reg, x, candidates) <==>
            NamesTarget(reg, e) && e.target in candidates && (e.target, x) in reg.descends
    ensures !Twice(ChildEdges(reg, x, candidates), e)
  {
    if candidates != [] {
      var init, last := candidates[..|candidates| - 1], candidates[|candidates| - 1];
      assert candidates == init + [last];
      ChildLinks(reg, x, init, e);
      NotTwice(ChildEdge(reg, x, last), e);
      TwiceConcat(ChildEdges(reg, x, init), ChildEdge(reg, x, last), e);
    }
  }

  /** Plain names, none used twice in a type, and none that could be taken for the name of a type. */
  ghost predicate GoodAttributes(attributes: seq<Attribute>) {
    && (forall i :: 0 <= i < |attributes| ==>
          IsPlain(attributes[i].name) && (attributes[i].name == "" || attributes[i].name[0] != '$'))
    && (forall i, j :: 0 <= i < j < |attributes| ==> attributes[i].name != attributes[j].name)
  }

  ghost predicate FromAttribute(reg: Registry, a: Attribute, e: Edge) {
    AttributeEdge(reg, a) == [e]
  }

  lemma {:induction false} AttributeLinks(reg: Registry, attributes: seq<Attribute>, e: Edge)
    requires GoodAttributes(attributes)
    ensures e in AttributeEdges(reg, attributes) <==>
            exists i :: 0 <= i < |attributes| && FromAttribute(reg, attributes[i], e)
    ensures !Twice(AttributeEdges(reg, attributes), e)
  {
    if attributes != [] {
      var init, last := attributes[..|attributes| - 1], attributes[|attributes| - 1];
      AttributeLinks(reg, init, e);
      NotTwice(AttributeEdge(reg, last), e);
      TwiceConcat(AttributeEdges(reg, init), AttributeEdge(reg, last), e);
      if i :| 0 <= i < |init| && FromAttribute(reg, init[i], e) {
        assert FromAttribute(reg, attributes[i], e);
        if FromAttribute(reg, last, e) {
          SameAttribute(reg, attributes[i], last, e, e);
        }
      }
      if FromAttribute(reg, last, e) {
        assert FromAttribute(reg, attributes[|attributes| - 1], e);
      }
    }
  }

  /** Labels of good attributes tell the attributes apart, and are good labels of no type. */
  lemma SameAttribute(reg: Registry, a: Attribute, b: Attribute, e: Edge, f: Edge)
    requires IsPlain(a.name) && IsPlain(b.name) && FromAttribute(reg, a, e) && FromAttribute(reg, b, f)
    requires e.name == f.name
    ensures a.name == b.name
  {
    assert (a.name + ITEMS)[|a.name|] == '/' && (b.name + ITEMS)[|b.name|] == '/';
    if e.name != a.name && f.name != b.name {
      SameEnd(a.name, b.name, ITEMS);
    }
  }

  lemma {:induction false} AttributeLabel(reg: Registry, a: Attribute, e: Edge)
    requires IsPlain(a.name) && (a.name == "" || a.name[0] != '$') && FromAttribute(reg, a, e)
    ensures GoodLabel(e.name) && (e.name == "" || e.name[0] != '$')
  {
  }

  // ---------------------------------------------------------------- repetitions in the registry

  /** Types are registered once, under different names without a slash, with good attributes. */
  ghost predicate WellNamed(reg: Registry) {
    && Distinct(reg.registered)
    && (forall t :: t in reg.registered ==> '/' !in reg.NameOf(t) && GoodAttributes(reg.AttributesOf(t)))
    && (forall t, u :: t in reg.registered && u in reg.registered && reg.NameOf(t) == reg.NameOf(u) ==> t == u)
  }

  /** `y` is linked to `x` by two aggregations, or by one and by being registered as its descendant. */
  ghost predicate DoublyLinked(reg: Registry, pairs: Pairs, x: TypeId, y: TypeId) {
    LinkedTwice(pairs, x, y) || (Linked(pairs, x, y) && y in reg.registered && (y, x) in reg.descends)
  }

  /** The same aggregation registered twice leaves two equal edges on both sides of the pair. */
  lemma {:induction false} RegisteredTwice(reg: Registry, pairs: Pairs, i: nat, j: nat, x: TypeId)
    requires i < j < |pairs| && pairs[i] == pairs[j] && (pairs[i].0 == x || pairs[i].1 == x)
    ensures Twice(EdgesOf(reg, pairs, x), Edge("$" + reg.NameOf(Other(x, pairs[i])), Other(x, pairs[i])))
  {
    var y := Other(x, pairs[i]);
    var e := Edge("$" + reg.NameOf(y), y);
    assert Links(pairs[i], x, y) && Links(pairs[j], x, y);
    AggregateLinks(reg, x, pairs, e);
    TwiceConcat(AttributeEdges(reg, reg.AttributesOf(x)) + ChildEdges(reg, x, reg.registered),
                AggregateEdges(reg, x, pairs), e);
  }

  lemma {:induction false} AttributeIsNoType(reg: Registry, x: TypeId, e: Edge)
    requires GoodAttributes(reg.AttributesOf(x)) && e in AttributeEdges(reg, reg.AttributesOf(x))
    ensures !NamesTarget(reg, e) && GoodLabel(e.name)
  {
    AttributeLinks(reg, reg.AttributesOf(x), e);
    var i :| 0 <= i < |reg.AttributesOf(x)| && FromAttribute(reg, reg.AttributesOf(x)[i], e);
    AttributeLabel(reg, reg.AttributesOf(x)[i], e);
  }

  /** The edges of a type: which are there, and which are there twice. */
  lemma {:induction false} EdgesTwice(reg: Registry, pairs: Pairs, x: TypeId, e: Edge)
    requires WellNamed(reg) && x in reg.registered
    ensures e in EdgesOf(reg, pairs, x) ==> e in AttributeEdges(reg, reg.AttributesOf(x)) || NamesTarget(reg, e)
    ensures Twice(EdgesOf(reg, pairs, x), e) <==> NamesTarget(reg, e) && DoublyLinked(reg, pairs, x, e.target)
  {
    var a, c, g := AttributeEdges(reg, reg.AttributesOf(x)), ChildEdges(reg, x, reg.registered),
                   AggregateEdges(reg, x, pairs);
    AttributeLinks(reg, reg.AttributesOf(x), e);
    ChildLinks(reg, x, reg.registered, e);
    AggregateLinks(reg, x, pairs, e);
    if e in a {
      AttributeIsNoType(reg, x, e);
    }
    TwiceConcat(a, c, e);
    TwiceConcat(a + c, g, e);
  }

  /** Two edges of a type with the same label are equal. */
  lemma {:induction false} LabelsDetermineEdges(reg: Registry, pairs: Pairs, x: TypeId, e: Edge, f: Edge)
    requires reg.Closed() && ValidPairs(reg, pairs) && WellNamed(reg) && x in reg.registered
    requires e in EdgesOf(reg, pairs, x) && f in EdgesOf(reg, pairs, x) && e.name == f.name
    requires e.target in reg.registered && f.target in reg.registered
    ensures e == f
  {
    var a := AttributeEdges(reg, reg.AttributesOf(x));
    EdgesTwice(reg, pairs, x, e);
    EdgesTwice(reg, pairs, x, f);
    if e in a && f in a {
      AttributeLabels(reg, reg.AttributesOf(x), e, f);
    } else if e in a {
      DollarLabels(reg, x, e, f);
    } else if f in a {
      DollarLabels(reg, x, f, e);
    } else {
      TypeLabels(reg, e, f);
    }
  }

  lemma {:induction false} AttributeLabels(reg: Registry, attributes: seq<Attribute>, e: Edge, f: Edge)
    requires GoodAttributes(attributes) && e.name == f.name
    requires e in AttributeEdges(reg, attributes) && f in AttributeEdges(reg, attributes)
    ensures e == f
  {
    AttributeLinks(reg, attributes, e);
    AttributeLinks(reg, attributes, f);
    var i :| 0 <= i < |attributes| && FromAttribute(reg, attributes[i], e);
    var j :| 0 <= j < |attributes| && FromAttribute(reg, attributes[j], f);
    SameAttribute(reg, attributes[i], attributes[j], e, f);
    assert i == j;
  }

  lemma {:induction false} TypeLabels(reg: Registry, e: Edge, f: Edge)
    requires WellNamed(reg) && e.target in reg.registered && f.target in reg.registered
    requires NamesTarget(reg, e) && NamesTarget(reg, f) && e.name == f.name
    ensures e == f
  {
    assert e.name[1..] == reg.NameOf(e.target) && f.name[1..] == reg.NameOf(f.target);
  }

  lemma {:induction false} DollarLabels(reg: Registry, x: TypeId, e: Edge, f: Edge)
    requires GoodAttributes(reg.AttributesOf(x)) && e in AttributeEdges(reg, reg.AttributesOf(x))
    requires NamesTarget(reg, f)
    ensures e.name != f.name
  {
    AttributeLinks(reg, reg.AttributesOf(x), e);
    var i :| 0 <= i < |reg.AttributesOf(x)| && FromAttribute(reg, reg.AttributesOf(x)[i], e);
    AttributeLabel(reg, reg.AttributesOf(x)[i], e);
    assert f.name[0] == '$';
  }

  lemma {:induction false} GraphIsWellLabelled(reg: Registry, pairs: Pairs)
    requires reg.Closed() && ValidPairs(reg, pairs) && WellNamed(reg)
    ensures WellLabelled(TypeGraph(reg, pairs))
  {
    var g := TypeGraph(reg, pairs);
    forall t, i | t in g.types && 0 <= i < |g.edges(t)| ensures GoodLabel(g.edges(t)[i].name) {
      var e := g.edges(t)[i];
      assert Targets(g.types, g.edges(t));
      EdgesTwice(reg, pairs, t, e);
      if e in AttributeEdges(reg, reg.AttributesOf(t)) {
        AttributeIsNoType(reg, t, e);
      } else {
        assert e.name[0] == '$' && IsPlain(e.name);
      }
    }
    forall t, i, j | t in g.types && 0 <= i < j < |g.edges(t)| && g.edges(t)[i].name == g.edges(t)[j].name
      ensures g.edges(t)[i] == g.edges(t)[j]
    {
      assert Targets(g.types, g.edges(t));
      LabelsDetermineEdges(reg, pairs, t, g.edges(t)[i], g.edges(t)[j]);
    }
  }

  /** The simple walk `u` reaches a type with a doubly linked partner that is neither on it nor on the stack. */
  ghost predicate ReachesDouble(reg: Registry, pairs: Pairs, t: TypeId, stack: seq<TypeId>, u: Walk, y: TypeId)
    requires reg.Closed() && ValidPairs(reg, pairs)
  {
    var g := TypeGraph(reg, pairs);
    && Simple(g, t, u, stack) && y !in Visits(g, t, u) && y !in stack
    && DoublyLinked(reg, pairs, End(g, t, u), y)
  }

  /**
   What DoGather appends has a repetition exactly if some simple walk reaches a type that is linked
   twice, by two aggregations or by an aggregation and descent, to a type it can go on to.
   */
  lemma {:induction false} WalkRepeatsIff(
    reg: Registry, pairs: Pairs, t: TypeId, path: seq<string>, stack: seq<TypeId>)
    requires reg.Closed() && ValidPairs(reg, pairs) && WellNamed(reg) && t in reg.registered
    ensures Repeats(Entries(TypeGraph(reg, pairs), t, path, stack)) <==>
            exists u, y :: ReachesDouble(reg, pairs, t, stack, u, y)
  {
    var g := TypeGraph(reg, pairs);
    GraphIsWellLabelled(reg, pairs);
    RepeatsIffDoubled(g, t, path, stack);
    if u, i: nat, j: nat :| Doubled(g, t, stack, u, i, j) {
      var y := DoubledReaches(reg, pairs, t, stack, u, i, j);
      assert ReachesDouble(reg, pairs, t, stack, u, y);
    }
    if u, y :| ReachesDouble(reg, pairs, t, stack, u, y) {
      var i, j := ReachedDoubles(reg, pairs, t, stack, u, y);
      assert Doubled(g, t, stack, u, i, j);
    }
  }

  ghost predicate SomeDouble(reg: Registry, pairs: Pairs, t: TypeId)
    requires reg.Closed() && ValidPairs(reg, pairs)
  {
    exists u, y :: ReachesDouble(reg, pairs, t, [], u, y)
  }

  /** Some root reaches a doubly linked pair, or simple walks from two of the roots end alike and read alike. */
  ghost predicate RootsDouble(reg: Registry, pairs: Pairs, roots: seq<TypeId>)
    requires reg.Closed() && ValidPairs(reg, pairs)
  {
    || (exists r :: 0 <= r < |roots| && SomeDouble(reg, pairs, roots[r]))
    || (exists r, s :: 0 <= r < s < |roots| && SomeMeet(TypeGraph(reg, pairs), roots[r], roots[s]))
  }

  /** The whole output, over all roots, has a repetition exactly if it is in one walk or two roots share one. */
  lemma {:induction false} OutputRepeatsIff(reg: Registry, pairs: Pairs, roots: seq<TypeId>)
    requires reg.Closed() && ValidPairs(reg, pairs) && WellNamed(reg)
    requires forall i :: 0 <= i < |roots| ==> roots[i] in reg.registered
    ensures Repeats(EntriesFrom(TypeGraph(reg, pairs), roots)) <==> RootsDouble(reg, pairs, roots)
  {
    var g := TypeGraph(reg, pairs);
    GraphIsWellLabelled(reg, pairs);
    OutputRepeats(g, roots);
    forall r | 0 <= r < |roots| ensures SomeDoubled(g, roots[r]) <==> SomeDouble(reg, pairs, roots[r]) {
      RepeatsIffDoubled(g, roots[r], [], []);
      WalkRepeatsIff(reg, pairs, roots[r], [], []);
    }
  }

  /** The program's output, from its registrations on: whether it repeats itself, as nobody removes repetitions. */
  method TypicalOutput(
    reg: Registry, lookup: map<string, TypeId>, names: seq<(string, string)>, roots: seq<TypeId>)
    returns (output: seq<Entry>)
    requires reg.Closed() && WellNamed(reg) && (forall name <- lookup :: lookup[name] in reg.registered)
    requires forall i :: 0 <= i < |roots| ==> roots[i] in reg.registered
    ensures ValidPairs(reg, KnownPairs(names, lookup))
    ensures output == EntriesFrom(TypeGraph(reg, KnownPairs(names, lookup)), roots)
    ensures Repeats(output) <==> RootsDouble(reg, KnownPairs(names, lookup), roots)
  {
    var info := GetTypicalAggregations(reg, lookup, names, roots);
    output := info.output;
    OutputRepeatsIff(reg, KnownPairs(names, lookup), roots);
  }

  lemma {:induction false} DoubledReaches(
    reg: Registry, pairs: Pairs, t: TypeId, stack: seq<TypeId>, u: Walk, i: nat, j: nat) returns (y: TypeId)
    requires reg.Closed() && ValidPairs(reg, pairs) && WellNamed(reg) && t in reg.registered
    requires Doubled(TypeGraph(reg, pairs), t, stack, u, i, j)
    ensures ReachesDouble(reg, pairs, t, stack, u, y)
  {
    var g := TypeGraph(reg, pairs);
    var x := End(g, t, u);
    EndIsType(g, t, u);
    y := g.edges(x)[i].target;
    assert Twice(EdgesOf(reg, pairs, x), g.edges(x)[i]);
    EdgesTwice(reg, pairs, x, g.edges(x)[i]);
  }

  lemma {:induction false} ReachedDoubles(
    reg: Registry, pairs: Pairs, t: TypeId, stack: seq<TypeId>, u: Walk, y: TypeId) returns (i: nat, j: nat)
    requires reg.Closed() && ValidPairs(reg, pairs) && WellNamed(reg) && t in reg.registered
    requires ReachesDouble(reg, pairs, t, stack, u, y)
    ensures Doubled(TypeGraph(reg, pairs), t, stack, u, i, j)
  {
    var g := TypeGraph(reg, pairs);
    var x, e := End(g, t, u), Edge("$" + reg.NameOf(y), y);
    EndIsType(g, t, u);
    EdgesTwice(reg, pairs, x, e);
    i, j :| i < j < |g.edges(x)| && g.edges(x)[i] == e && g.edges(x)[j] == e;
  }

  lemma {:induction false} EndIsType(g: Graph, t: TypeId, w: Walk)
    requires g.Valid() && t in g.types && IsWalk(g, t, w)
    ensures End(g, t, w) in g.types
    decreases |w|
  {
    if w != [] {
      EndIsType(g, Target(g, t, w[0]), w[1..]);
      VisitsStart(g, Target(g, t, w[0]), w[1..]);
      assert Visits(g, t, w) == [t] + Visits(g, Target(g, t, w[0]), w[1..]);
    }
  }

  lemma {:induction false} KnownPrefix(names: seq<(string, string)>, lookup: map<string, TypeId>, n: nat)
    requires n <= |names|
    ensures KnownPairs(names[..n], lookup) <= KnownPairs(names, lookup)
  {
    if n < |names| {
      assert names[..|names| - 1][..n] == names[..n];
      KnownPrefix(names[..|names| - 1], lookup, n);
    } else {
      assert names[..n] == names;
    }
  }

  lemma {:induction false} KnownAt(names: seq<(string, string)>, lookup: map<string, TypeId>, i: nat)
    requires i < |names| && names[i].0 in lookup && names[i].1 in lookup
    ensures KnownPairs(names[..i + 1], lookup) ==
            KnownPairs(names[..i], lookup) + [(lookup[names[i].0], lookup[names[i].1])]
    ensures KnownPairs(names[..i + 1], lookup) <= KnownPairs(names, lookup)
  {
    assert names[..i + 1][..i] == names[..i];
    KnownPrefix(names, lookup, i + 1);
  }

  /** Naming the same two types twice records their pair twice. */
  lemma {:induction false} NamedTwice(
    names: seq<(string, string)>, lookup: map<string, TypeId>, i: nat, j: nat) returns (p: nat, q: nat)
    requires i < j < |names| && names[i] == names[j] && names[i].0 in lookup && names[i].1 in lookup
    ensures var pairs := KnownPairs(names, lookup);
            p < q < |pairs| && pairs[p] == pairs[q] == (lookup[names[i].0], lookup[names[i].1])
  {
    p, q := |KnownPairs(names[..i], lookup)|, |KnownPairs(names[..j], lookup)|;
    KnownAt(names, lookup, i);
    KnownAt(names, lookup, j);
    assert names[..j][..i + 1] == names[..i + 1];
    KnownPrefix(names[..j], lookup, i + 1);
  }

  /** A pair that is registered twice is recorded twice, whatever the names, where a walk can go through it. */
  lemma {:induction false} RegisteredTwiceRepeats(
    reg: Registry, pairs: Pairs, i: nat, j: nat, t: TypeId, path: seq<string>, stack: seq<TypeId>, u: Walk)
    requires reg.Closed() && ValidPairs(reg, pairs) && t in reg.registered
    requires i < j < |pairs| && pairs[i] == pairs[j]
    requires Simple(TypeGraph(reg, pairs), t, u, stack)
    requires var x := End(TypeGraph(reg, pairs), t, u); var y := Other(x, pairs[i]);
             && (pairs[i].0 == x || pairs[i].1 == x)
             && y !in Visits(TypeGraph(reg, pairs), t, u) && y !in stack
    ensures Repeats(Entries(TypeGraph(reg, pairs), t, path, stack))
  {
    var g := TypeGraph(reg, pairs);
    var x := End(g, t, u);
    RegisteredTwice(reg, pairs, i, j, x);
    var y := Other(x, pairs[i]);
    var e := Edge("$" + reg.NameOf(y), y);
    var p: nat, q: nat :| p < q < |g.edges(x)| && g.edges(x)[p] == e && g.edges(x)[q] == e;
    DoubledRepeats(g, t, path, stack, u, p, q);
  }
}
