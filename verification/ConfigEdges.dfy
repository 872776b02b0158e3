/**
 Which edges a type has and in which order, in terms of its attributes, the registered types and the
 aggregations, and what that puts into the output.
 */
module ConfigEdges {
  import opened ConfigPaths
  import opened ConfigWalks
  import opened ConfigRepeats

  /** Where an edge comes from: an attribute of the type, a registered type, or an aggregation, by position. */
  datatype Origin = ByAttribute(i: nat) | ByChild(i: nat) | ByAggregate(i: nat)

  type Pairs = seq<(TypeId, TypeId)>

  /** The origin gives type `t` the edge `e`. */
  ghost predicate Gives(reg: Registry, pairs: Pairs, t: TypeId, o: Origin, e: Edge) {
    match o
    case ByAttribute(i) =>
      && i < |reg.AttributesOf(t)|
      && var a := reg.AttributesOf(t)[i];
         (match a.checker
          case Pointer(p) => p != reg.objectType && e == Edge(a.name, p)
          case Container(p) => e == Edge(a.name + "/[i]", p)
          case Plain => false)
    case ByChild(i) =>
      && i < |reg.registered| && (reg.registered[i], t) in reg.descends
      && e == Edge("$" + reg.NameOf(reg.registered[i]), reg.registered[i])
    case ByAggregate(i) =>
      && i < |pairs|
      && ((pairs[i].1 == t && e == Edge("$" + reg.NameOf(pairs[i].0), pairs[i].0))
          || (pairs[i].0 == t && e == Edge("$" + reg.NameOf(pairs[i].1), pairs[i].1)))
  }

  /** Attributes come first, then descendants, then aggregations, each in their own order. */
  ghost predicate Earlier(a: Origin, b: Origin) {
    match a
    case ByAttribute(i) => b.ByAttribute? ==> i < b.i
    case ByChild(i) => !b.ByAttribute? && (b.ByChild? ==> i < b.i)
    case ByAggregate(i) => b.ByAggregate? && i < b.i
  }

  ghost predicate InOrder(origins: seq<Origin>) {
    forall p, q :: 0 <= p < q < |origins| ==> Earlier(origins[p], origins[q])
  }

  ghost predicate Match(reg: Registry, pairs: Pairs, t: TypeId, origins: seq<Origin>, es: seq<Edge>) {
    |origins| == |es| && forall p :: 0 <= p < |es| ==> Gives(reg, pairs, t, origins[p], es[p])
  }

  datatype Kind = Attributes | Children | Aggregates

  ghost function At(kind: Kind, i: nat): Origin {
    match kind
    case Attributes => ByAttribute(i)
    case Children => ByChild(i)
    case Aggregates => ByAggregate(i)
  }

  /** The origins of one kind at the first `n` positions, and their edges. */
  ghost predicate Listed(
    reg: Registry, pairs: Pairs, t: TypeId, kind: Kind, os: seq<Origin>, es: seq<Edge>, n: nat)
  {
    && InOrder(os) && Match(reg, pairs, t, os, es)
    && (forall o <- os :: o.i < n && o == At(kind, o.i))
    && forall i: nat, e :: i < n && Gives(reg, pairs, t, At(kind, i), e) ==> At(kind, i) in os
  }

  /** The origin gives these edges: one or none. */
  ghost predicate GivesAll(reg: Registry, pairs: Pairs, t: TypeId, o: Origin, one: seq<Edge>) {
    if one == [] then forall e :: !Gives(reg, pairs, t, o, e) else |one| == 1 && Gives(reg, pairs, t, o, one[0])
  }

  lemma {:induction false} ListedStep(
    reg: Registry, pairs: Pairs, t: TypeId, kind: Kind, os: seq<Origin>, es: seq<Edge>, n: nat, one: seq<Edge>)
    requires n > 0 && Listed(reg, pairs, t, kind, os, es, n - 1) && GivesAll(reg, pairs, t, At(kind, n - 1), one)
    ensures Listed(reg, pairs, t, kind, os + (if one == [] then [] else [At(kind, n - 1)]), es + one, n)
  {
    var o := At(kind, n - 1);
    var all := os + if one == [] then [] else [o];
    assert forall p :: 0 <= p < |os| ==> os[p] in os;
    assert InOrder(all);
    assert Match(reg, pairs, t, all, es + one);
    forall i: nat, e | i < n && Gives(reg, pairs, t, At(kind, i), e) ensures At(kind, i) in all {
      if i < n - 1 {
        assert At(kind, i) in os;
      } else {
        assert all[|os|] == o;
      }
    }
  }

  lemma OneAttribute(reg: Registry, pairs: Pairs, t: TypeId, i: nat)
    requires i < |reg.AttributesOf(t)|
    ensures GivesAll(reg, pairs, t, ByAttribute(i), AttributeEdge(reg, reg.AttributesOf(t)[i]))
  {
  }

  lemma OneChild(reg: Registry, pairs: Pairs, t: TypeId, i: nat)
    requires i < |reg.registered|
    ensures GivesAll(reg, pairs, t, ByChild(i), ChildEdge(reg, t, reg.registered[i]))
  {
  }

  lemma OneAggregate(reg: Registry, pairs: Pairs, t: TypeId, i: nat)
    requires i < |pairs|
    ensures GivesAll(reg, pairs, t, ByAggregate(i), AggregateEdge(reg, t, pairs[i]))
  {
  }

  // The three loops, up to a position.

  lemma {:induction false} AttributeOrigins(reg: Registry, pairs: Pairs, t: TypeId, n: nat) returns (os: seq<Origin>)
    requires n <= |reg.AttributesOf(t)|
    ensures Listed(reg, pairs, t, Attributes, os, AttributeEdges(reg, reg.AttributesOf(t)[..n]), n)
  {
    os := [];
    if n > 0 {
      var before := AttributeOrigins(reg, pairs, t, n - 1);
      var one := AttributeEdge(reg, reg.AttributesOf(t)[n - 1]);
      OneAttribute(reg, pairs, t, n - 1);
      AttributeOneMore(reg, reg.AttributesOf(t), n - 1);
      os := before + if one == [] then [] else [At(Attributes, n - 1)];
      ListedStep(reg, pairs, t, Attributes, before, AttributeEdges(reg, reg.AttributesOf(t)[..n - 1]), n, one);
    }
  }

  lemma {:induction false} ChildOrigins(reg: Registry, pairs: Pairs, t: TypeId, n: nat) returns (os: seq<Origin>)
    requires n <= |reg.registered|
    ensures Listed(reg, pairs, t, Children, os, ChildEdges(reg, t, reg.registered[..n]), n)
  {
    os := [];
    if n > 0 {
      var before := ChildOrigins(reg, pairs, t, n - 1);
      var one := ChildEdge(reg, t, reg.registered[n - 1]);
      OneChild(reg, pairs, t, n - 1);
      assert reg.registered[..n][..n - 1] == reg.registered[..n - 1];
      os := before + if one == [] then [] else [At(Children, n - 1)];
      ListedStep(reg, pairs, t, Children, before, ChildEdges(reg, t, reg.registered[..n - 1]), n, one);
    }
  }

  lemma {:induction false} AggregateOrigins(reg: Registry, pairs: Pairs, t: TypeId, n: nat) returns (os: seq<Origin>)
    requires n <= |pairs|
    ensures Listed(reg, pairs, t, Aggregates, os, AggregateEdges(reg, t, pairs[..n]), n)
  {
    os := [];
    if n > 0 {
      var before := AggregateOrigins(reg, pairs, t, n - 1);
      var one := AggregateEdge(reg, t, pairs[n - 1]);
      OneAggregate(reg, pairs, t, n - 1);
      assert pairs[..n][..n - 1] == pairs[..n - 1];
      os := before + if one == [] then [] else [At(Aggregates, n - 1)];
      ListedStep(reg, pairs, t, Aggregates, before, AggregateEdges(reg, t, pairs[..n - 1]), n, one);
    }
  }

  lemma {:induction false} OrderConcat(a: seq<Origin>, b: seq<Origin>)
    requires InOrder(a) && InOrder(b) && forall x, y :: x in a && y in b ==> Earlier(x, y)
    ensures InOrder(a + b)
  {
    forall p, q | 0 <= p < q < |a + b| ensures Earlier((a + b)[p], (a + b)[q]) {
      if p < |a| <= q {
        assert a[p] in a && b[q - |a|] in b;
      }
    }
  }

  lemma {:induction false} MatchConcat(
    reg: Registry, pairs: Pairs, t: TypeId, a: seq<Origin>, x: seq<Edge>, b: seq<Origin>, y: seq<Edge>)
    requires Match(reg, pairs, t, a, x) && Match(reg, pairs, t, b, y)
    ensures Match(reg, pairs, t, a + b, x + y)
  {
  }

  /**
   The edges of a type: each comes from one attribute with a pointer or a container, one registered
   descendant, or one aggregation, in this order; and each of those gives an edge.
   */
  lemma {:induction false} EdgesInOrder(reg: Registry, pairs: Pairs, t: TypeId) returns (origins: seq<Origin>)
    ensures InOrder(origins) && Match(reg, pairs, t, origins, EdgesOf(reg, pairs, t))
    ensures forall o, e :: Gives(reg, pairs, t, o, e) ==> o in origins
  {
    var attributes := reg.AttributesOf(t);
    var a := AttributeOrigins(reg, pairs, t, |attributes|);
    var c := ChildOrigins(reg, pairs, t, |reg.registered|);
    var g := AggregateOrigins(reg, pairs, t, |pairs|);
    assert attributes[..|attributes|] == attributes && pairs[..|pairs|] == pairs;
    assert reg.registered[..|reg.registered|] == reg.registered;
    OrderConcat(a, c);
    OrderConcat(a + c, g);
    MatchConcat(reg, pairs, t, a, AttributeEdges(reg, attributes), c, ChildEdges(reg, t, reg.registered));
    MatchConcat(reg, pairs, t, a + c, AttributeEdges(reg, attributes) + ChildEdges(reg, t, reg.registered),
                g, AggregateEdges(reg, t, pairs));
    origins := a + c + g;
    forall o, e | Gives(reg, pairs, t, o, e) ensures o in origins {
      match o
      case ByAttribute(i) => assert At(Attributes, i) in a;
      case ByChild(i) => assert At(Children, i) in c;
      case ByAggregate(i) => assert At(Aggregates, i) in g;
    }
  }

  lemma GivesOnce(reg: Registry, pairs: Pairs, t: TypeId, o: Origin, e: Edge, f: Edge)
    requires Gives(reg, pairs, t, o, e) && Gives(reg, pairs, t, o, f)
    ensures e == f
  {
  }

  /** An edge is there exactly if an attribute, a registered descendant or an aggregation gives it. */
  lemma {:induction false} EdgeIff(reg: Registry, pairs: Pairs, t: TypeId, e: Edge)
    ensures e in EdgesOf(reg, pairs, t) <==> exists o :: Gives(reg, pairs, t, o, e)
  {
    var origins := EdgesInOrder(reg, pairs, t);
    var es := EdgesOf(reg, pairs, t);
    if e in es {
      var p :| 0 <= p < |es| && es[p] == e;
      assert Gives(reg, pairs, t, origins[p], e);
    }
    if o :| Gives(reg, pairs, t, o, e) {
      var p :| 0 <= p < |origins| && origins[p] == o;
      GivesOnce(reg, pairs, t, o, e, es[p]);
    }
  }

  // ---------------------------------------------------------------- the output

  lemma {:induction false} OneLabel(name: string)
    ensures PathString([name]) == "/" + name
  {
    assert [name][..0] == [];
  }

  lemma {:induction false} EmptyWalk(g: Graph, t: TypeId)
    ensures ReachedBy(g, t, [], t, "")
  {
    assert Visits(g, t, []) == [t] && Labels(g, t, []) == [];
    assert [] + Labels(g, t, []) == [];
  }

  lemma {:induction false} OneEdgeWalk(g: Graph, t: TypeId, i: nat)
    requires i < |g.edges(t)| && Target(g, t, i) != t
    ensures ReachedBy(g, t, [i], Target(g, t, i), "/" + g.edges(t)[i].name)
  {
    var e, w: Walk := g.edges(t)[i], [i];
    assert w[1..] == [];
    assert Visits(g, e.target, []) == [e.target];
    assert Visits(g, t, w) == [t, e.target];
    assert Labels(g, t, w) == [e.name];
    assert [] + Labels(g, t, w) == [e.name];
    OneLabel(e.name);
  }

  /** A root is recorded with the empty path, and the other end of each of its edges with the label of the edge. */
  lemma {:induction false} FirstStepIsRecorded(
    reg: Registry, pairs: Pairs, roots: seq<TypeId>, r: nat, o: Origin, e: Edge)
    requires reg.Closed() && ValidPairs(reg, pairs)
    requires (forall i :: 0 <= i < |roots| ==> roots[i] in reg.registered) && r < |roots|
    requires Gives(reg, pairs, roots[r], o, e) && e.target != roots[r]
    ensures Entry(roots[r], "") in EntriesFrom(TypeGraph(reg, pairs), roots)
    ensures Entry(e.target, "/" + e.name) in EntriesFrom(TypeGraph(reg, pairs), roots)
  {
    var g, t := TypeGraph(reg, pairs), roots[r];
    EdgeIff(reg, pairs, t, e);
    var i: nat :| i < |EdgesOf(reg, pairs, t)| && EdgesOf(reg, pairs, t)[i] == e;
    assert g.edges(t)[i] == e;
    EmptyWalk(g, t);
    OneEdgeWalk(g, t, i);
    InOutput(g, roots, r, [], t, "");
    InOutput(g, roots, r, [i], e.target, "/" + e.name);
  }

  lemma {:induction false} InOutput(g: Graph, roots: seq<TypeId>, r: nat, w: Walk, t: TypeId, path: string)
    requires g.Valid() && (forall i :: 0 <= i < |roots| ==> roots[i] in g.types)
    requires r < |roots| && ReachedBy(g, roots[r], w, t, path)
    ensures Entry(t, path) in EntriesFrom(g, roots)
  {
    GetIsComplete(g, roots, t, path);
    InPathsOf(EntriesFrom(g, roots), t, path);
  }

  /** The items of a container attribute of a root are in the output of the program. */
  method ContainersAreFollowed(
    reg: Registry, lookup: map<string, TypeId>, names: seq<(string, string)>, roots: seq<TypeId>,
    ghost r: nat, ghost i: nat, ghost name: string, ghost item: TypeId)
    returns (output: seq<Entry>)
    requires reg.Closed() && (forall name <- lookup :: lookup[name] in reg.registered)
    requires (forall k :: 0 <= k < |roots| ==> roots[k] in reg.registered) && r < |roots|
    requires i < |reg.AttributesOf(roots[r])| && reg.AttributesOf(roots[r])[i] == Attribute(name, Container(item))
    requires item != roots[r]
    ensures Entry(item, "/" + name + "/[i]") in output
  {
    var info := GetTypicalAggregations(reg, lookup, names, roots);
    output := info.output;
    FirstStepIsRecorded(reg, KnownPairs(names, lookup), roots, r, ByAttribute(i), Edge(name + "/[i]", item));
    assert "/" + (name + "/[i]") == "/" + name + "/[i]";
  }

  /** Get's answer: the paths at exactly the positions of the type, each once and in the order of discovery. */
  lemma {:induction false} PathsInOrder(output: seq<Entry>, t: TypeId) returns (at: seq<nat>)
    ensures forall i, j :: 0 <= i < j < |at| ==> at[i] < at[j]
    ensures forall n: nat :: n in at <==> n < |output| && output[n].tid == t
    ensures |PathsOf(output, t)| == |at|
    ensures forall i :: 0 <= i < |at| ==> at[i] < |output| && PathsOf(output, t)[i] == output[at[i]].path
  {
    at := [];
    if output != [] {
      var n := |output| - 1;
      at := PathsInOrder(output[..n], t);
      assert forall i :: 0 <= i < |at| ==> at[i] in at;
      if output[n].tid == t {
        at := at + [n];
      }
    }
  }

  /** First by root, then in lexicographic order. */
  ghost predicate WalkBefore(a: (nat, Walk), b: (nat, Walk)) {
    a.0 < b.0 || (a.0 == b.0 && Before(a.1, b.1))
  }

  ghost predicate Enumerates(g: Graph, roots: seq<TypeId>, ws: seq<(nat, Walk)>, es: seq<Entry>) {
    && |ws| == |es|
    && (forall p :: 0 <= p < |ws| ==>
          ws[p].0 < |roots| && Simple(g, roots[ws[p].0], ws[p].1, [])
          && es[p] == Recorded(g, roots[ws[p].0], ws[p].1, []))
    && forall p, q :: 0 <= p < q < |ws| ==> WalkBefore(ws[p], ws[q])
  }

  /** The whole output: one entry per root and simple walk from it, root by root and in order. */
  lemma {:induction false} OutputEnumeratesWalks(g: Graph, roots: seq<TypeId>) returns (ws: seq<(nat, Walk)>)
    requires g.Valid() && forall i :: 0 <= i < |roots| ==> roots[i] in g.types
    ensures Enumerates(g, roots, ws, EntriesFrom(g, roots))
    ensures forall r: nat, w :: r < |roots| && Simple(g, roots[r], w, []) ==> (r, w) in ws
  {
    ws := [];
    if roots != [] {
      var n := |roots| - 1;
      var before := OutputEnumeratesWalks(g, roots[..n]);
      var here := GatherEnumeratesSimpleWalks(g, roots[n], [], []);
      var tagged := Tagged(n, here);
      ws := before + tagged;
      forall k | 0 <= k < |here| ensures Simple(g, roots[n], here[k], []) {
        assert here[k] in here;
      }
      AppendRoot(g, roots, before, EntriesFrom(g, roots[..n]), here, Entries(g, roots[n], [], []));
      forall r: nat, w | r < |roots| && Simple(g, roots[r], w, []) ensures (r, w) in ws {
        if r < n {
          assert roots[..n][r] == roots[r] && (r, w) in before;
        } else {
          var k :| 0 <= k < |here| && here[k] == w;
          assert tagged[k] == (r, w);
        }
      }
    }
  }

  ghost function Tagged(n: nat, ws: seq<Walk>): (r: seq<(nat, Walk)>)
    ensures |r| == |ws| && forall k :: 0 <= k < |ws| ==> r[k] == (n, ws[k])
  {
    seq(|ws|, k requires 0 <= k < |ws| => (n, ws[k]))
  }

  lemma {:induction false} AppendRoot(
    g: Graph, roots: seq<TypeId>, before: seq<(nat, Walk)>, es: seq<Entry>, here: seq<Walk>, es': seq<Entry>)
    requires roots != [] && Enumerates(g, roots[..|roots| - 1], before, es)
    requires Ordered(here) && ConfigWalks.Match(g, roots[|roots| - 1], here, [], es')
    requires forall k :: 0 <= k < |here| ==> Simple(g, roots[|roots| - 1], here[k], [])
    ensures Enumerates(g, roots, before + Tagged(|roots| - 1, here), es + es')
  {
    var ws := before + Tagged(|roots| - 1, here);
    forall p | 0 <= p < |ws|
      ensures ws[p].0 < |roots| && Simple(g, roots[ws[p].0], ws[p].1, [])
      ensures (es + es')[p] == Recorded(g, roots[ws[p].0], ws[p].1, [])
    {
      if p < |before| {
        assert roots[..|roots| - 1][before[p].0] == roots[before[p].0];
      }
    }
    forall p, q | 0 <= p < q < |ws| ensures WalkBefore(ws[p], ws[q]) {
      if |before| <= p {
        assert Before(here[p - |before|], here[q - |before|]);
      } else if |before| <= q {
        assert before[p].0 < |roots| - 1;
      }
    }
  }
}
