/**
 What the gatherer's output means.  A walk is a list of edge positions; it is simple when it visits
 no type twice and no type of a given ancestor stack.  The gatherer records exactly one entry per
 simple walk, in lexicographic order of the walks, so the ancestor stack is not a visited set.
 */
module ConfigWalks {
  import opened ConfigPaths

  type Walk = seq<nat>

  ghost function Target(g: Graph, t: TypeId, i: nat): TypeId
    requires i < |g.edges(t)|
  {
    g.edges(t)[i].target
  }

  ghost predicate IsWalk(g: Graph, t: TypeId, w: Walk)
    decreases |w|
  {
    w == [] || (w[0] < |g.edges(t)| && IsWalk(g, Target(g, t, w[0]), w[1..]))
  }

  ghost function Visits(g: Graph, t: TypeId, w: Walk): seq<TypeId>
    requires IsWalk(g, t, w)
    decreases |w|
  {
    if w == [] then [t] else [t] + Visits(g, Target(g, t, w[0]), w[1..])
  }

  ghost function Labels(g: Graph, t: TypeId, w: Walk): seq<string>
    requires IsWalk(g, t, w)
    decreases |w|
  {
    if w == [] then [] else [g.edges(t)[w[0]].name] + Labels(g, Target(g, t, w[0]), w[1..])
  }

  /** The walk visits distinct types and avoids the stack. */
  ghost predicate Simple(g: Graph, t: TypeId, w: Walk, stack: seq<TypeId>) {
    && IsWalk(g, t, w)
    && var v := Visits(g, t, w);
       && (forall i, j :: 0 <= i < j < |v| ==> v[i] != v[j])
       && (forall i :: 0 <= i < |v| ==> v[i] !in stack)
  }

  /** The entry that a walk stands for: the type it ends in and the labels along it. */
  ghost function Recorded(g: Graph, t: TypeId, w: Walk, path: seq<string>): Entry
    requires IsWalk(g, t, w)
  {
    var v := Visits(g, t, w);
    Entry(v[|v| - 1], PathString(path + Labels(g, t, w)))
  }

  /** Lexicographic order, a prefix first. */
  ghost predicate Before(a: Walk, b: Walk) {
    b != [] && (a == [] || a[0] < b[0] || (a[0] == b[0] && Before(a[1..], b[1..])))
  }

  ghost predicate Ordered(ws: seq<Walk>) {
    forall i, j :: 0 <= i < j < |ws| ==> Before(ws[i], ws[j])
  }

  // ---------------------------------------------------------------- the walks in the order of the recursion

  ghost function Walks(g: Graph, t: TypeId, stack: seq<TypeId>): seq<Walk>
    requires g.Valid() && t in g.types
    decreases Room(g, stack), 1, 0
  {
    if t in stack then []
    else
      RoomShrinks(g, stack, t);
      [[]] + WalksVia(g, t, |g.edges(t)|, stack + [t])
  }

  /** The walks that start with one of the first `n` edges of `t`. */
  ghost function WalksVia(g: Graph, t: TypeId, n: nat, stack: seq<TypeId>): seq<Walk>
    requires g.Valid() && t in g.types && n <= |g.edges(t)|
    decreases Room(g, stack), 2, n
  {
    if n == 0 then []
    else WalksVia(g, t, n - 1, stack) + Prepend(n - 1, Walks(g, Target(g, t, n - 1), stack))
  }

  ghost function Prepend(i: nat, ws: seq<Walk>): (r: seq<Walk>)
    ensures |r| == |ws| && forall k :: 0 <= k < |ws| ==> r[k] == [i] + ws[k]
  {
    seq(|ws|, k requires 0 <= k < |ws| => [i] + ws[k])
  }

  // ---------------------------------------------------------------- exactly the simple walks

  lemma {:induction false} SimpleStep(g: Graph, t: TypeId, w: Walk, stack: seq<TypeId>)
    requires w != [] && w[0] < |g.edges(t)| && t !in stack
    ensures Simple(g, t, w, stack) <==> Simple(g, Target(g, t, w[0]), w[1..], stack + [t])
  {
    if IsWalk(g, t, w) {
      var v, u := Visits(g, t, w), Visits(g, Target(g, t, w[0]), w[1..]);
      assert v == [t] + u;
      assert forall i :: 0 < i < |v| ==> v[i] == u[i - 1];
      if Simple(g, t, w, stack) {
        forall i | 0 <= i < |u| ensures u[i] !in stack + [t] {
          assert v[0] != v[i + 1];
        }
        forall i, j | 0 <= i < j < |u| ensures u[i] != u[j] {
          assert v[i + 1] != v[j + 1];
        }
      }
      if Simple(g, Target(g, t, w[0]), w[1..], stack + [t]) {
        forall i | 0 <= i < |v| ensures v[i] !in stack {
          if i > 0 {
            assert u[i - 1] !in stack + [t];
          }
        }
        forall i, j | 0 <= i < j < |v| ensures v[i] != v[j] {
          assert u[j - 1] !in stack + [t];
        }
      }
    }
  }

  lemma {:induction false} VisitsStart(g: Graph, t: TypeId, w: Walk)
    requires IsWalk(g, t, w)
    ensures |Visits(g, t, w)| == |w| + 1 && Visits(g, t, w)[0] == t
    decreases |w|
  {
    if w != [] {
      VisitsStart(g, Target(g, t, w[0]), w[1..]);
    }
  }

  lemma {:induction false} WalksAreSimple(g: Graph, t: TypeId, stack: seq<TypeId>, w: Walk)
    requires g.Valid() && t in g.types
    ensures w in Walks(g, t, stack) <==> Simple(g, t, w, stack)
    decreases Room(g, stack), 1, 0
  {
    if IsWalk(g, t, w) {
      VisitsStart(g, t, w);
    }
    if t !in stack {
      RoomShrinks(g, stack, t);
      ViaAreSimple(g, t, |g.edges(t)|, stack + [t], w);
      if w != [] && w[0] < |g.edges(t)| {
        SimpleStep(g, t, w, stack);
      } else if w == [] {
        assert Walks(g, t, stack)[0] == [];
      }
      assert w in Walks(g, t, stack) <==> w == [] || w in WalksVia(g, t, |g.edges(t)|, stack + [t]);
    }
  }

  lemma {:induction false} ViaAreSimple(g: Graph, t: TypeId, n: nat, stack: seq<TypeId>, w: Walk)
    requires g.Valid() && t in g.types && n <= |g.edges(t)|
    ensures w in WalksVia(g, t, n, stack) <==>
            w != [] && w[0] < n && Simple(g, Target(g, t, w[0]), w[1..], stack)
    decreases Room(g, stack), 2, n
  {
    if n > 0 {
      var ws := Walks(g, Target(g, t, n - 1), stack);
      ViaAreSimple(g, t, n - 1, stack, w);
      InPrepend(n - 1, ws, w);
      if w != [] {
        WalksAreSimple(g, Target(g, t, n - 1), stack, w[1..]);
      }
    }
  }

  lemma InPrepend(i: nat, ws: seq<Walk>, w: Walk)
    ensures w in Prepend(i, ws) <==> w != [] && w[0] == i && w[1..] in ws
  {
    if w in Prepend(i, ws) {
      var k :| 0 <= k < |ws| && Prepend(i, ws)[k] == w;
      assert w[1..] == ws[k];
    }
    if w != [] && w[0] == i && w[1..] in ws {
      var k :| 0 <= k < |ws| && ws[k] == w[1..];
      assert Prepend(i, ws)[k] == w;
    }
  }

  // ---------------------------------------------------------------- in order, hence once each

  lemma {:induction false} WalksAreOrdered(g: Graph, t: TypeId, stack: seq<TypeId>)
    requires g.Valid() && t in g.types
    ensures Ordered(Walks(g, t, stack))
    decreases Room(g, stack), 1, 0
  {
    if t !in stack {
      RoomShrinks(g, stack, t);
      ViaAreOrdered(g, t, |g.edges(t)|, stack + [t]);
    }
  }

  lemma {:induction false} ViaAreOrdered(g: Graph, t: TypeId, n: nat, stack: seq<TypeId>)
    requires g.Valid() && t in g.types && n <= |g.edges(t)|
    ensures Ordered(WalksVia(g, t, n, stack))
    ensures forall i :: 0 <= i < |WalksVia(g, t, n, stack)| ==>
              WalksVia(g, t, n, stack)[i] != [] && WalksVia(g, t, n, stack)[i][0] < n
    decreases Room(g, stack), 2, n
  {
    if n > 0 {
      ViaAreOrdered(g, t, n - 1, stack);
      WalksAreOrdered(g, Target(g, t, n - 1), stack);
      var a, ws := WalksVia(g, t, n - 1, stack), Walks(g, Target(g, t, n - 1), stack);
      var b := Prepend(n - 1, ws);
      forall i, j | 0 <= i < j < |b| ensures Before(b[i], b[j]) {
        assert b[i][1..] == ws[i] && b[j][1..] == ws[j];
      }
      forall i, j | 0 <= i < j < |a + b| ensures Before((a + b)[i], (a + b)[j]) {
      }
    }
  }

  lemma {:induction false} BeforeIsIrreflexive(a: Walk)
    ensures !Before(a, a)
  {
    if a != [] {
      BeforeIsIrreflexive(a[1..]);
    }
  }

  // ---------------------------------------------------------------- the recorded entries

  ghost predicate Match(g: Graph, t: TypeId, ws: seq<Walk>, path: seq<string>, es: seq<Entry>) {
    && |ws| == |es|
    && forall k :: 0 <= k < |ws| ==> IsWalk(g, t, ws[k]) && es[k] == Recorded(g, t, ws[k], path)
  }

  lemma {:induction false} EntriesMatchWalks(g: Graph, t: TypeId, path: seq<string>, stack: seq<TypeId>)
    requires g.Valid() && t in g.types
    ensures Match(g, t, Walks(g, t, stack), path, Entries(g, t, path, stack))
    decreases Room(g, stack), 1, 0
  {
    if t !in stack {
      RoomShrinks(g, stack, t);
      var es := g.edges(t);
      assert es[..|es|] == es;
      ViaMatchWalks(g, t, |es|, path, stack + [t]);
      assert Recorded(g, t, [], path) == Entry(t, PathString(path)) by {
        assert path + [] == path;
      }
    }
  }

  lemma {:induction false} ViaMatchWalks(g: Graph, t: TypeId, n: nat, path: seq<string>, stack: seq<TypeId>)
    requires g.Valid() && t in g.types && n <= |g.edges(t)|
    ensures Targets(g.types, g.edges(t)[..n])
    ensures Match(g, t, WalksVia(g, t, n, stack), path, EntriesVia(g, g.edges(t)[..n], path, stack))
    decreases Room(g, stack), 2, n
  {
    if n > 0 {
      var e := g.edges(t)[n - 1];
      assert g.edges(t)[..n][..n - 1] == g.edges(t)[..n - 1];
      ViaMatchWalks(g, t, n - 1, path, stack);
      EntriesMatchWalks(g, e.target, path + [e.name], stack);
      PrependMatches(g, t, n - 1, Walks(g, e.target, stack), path, Entries(g, e.target, path + [e.name], stack));
    }
  }

  lemma {:induction false} PrependMatches(
    g: Graph, t: TypeId, i: nat, ws: seq<Walk>, path: seq<string>, es: seq<Entry>)
    requires i < |g.edges(t)| && Match(g, Target(g, t, i), ws, path + [g.edges(t)[i].name], es)
    ensures Match(g, t, Prepend(i, ws), path, es)
  {
    var e := g.edges(t)[i];
    forall k | 0 <= k < |ws|
      ensures IsWalk(g, t, [i] + ws[k]) && Recorded(g, t, [i] + ws[k], path) == es[k]
    {
      var w := [i] + ws[k];
      assert w[1..] == ws[k];
      VisitsStart(g, e.target, ws[k]);
      assert path + Labels(g, t, w) == (path + [e.name]) + Labels(g, e.target, ws[k]);
    }
  }

  // ---------------------------------------------------------------- main results

  /**
   DoGather(t) appends one entry per simple walk from `t` that avoids the ancestors, in
   lexicographic order: every entry is that of its walk, and no simple walk is left out or repeated.
   */
  lemma {:induction false} GatherEnumeratesSimpleWalks(g: Graph, t: TypeId, path: seq<string>, stack: seq<TypeId>)
    returns (ws: seq<Walk>)
    requires g.Valid() && t in g.types
    ensures Ordered(ws) && forall i, j :: 0 <= i < j < |ws| ==> ws[i] != ws[j]
    ensures forall w :: w in ws <==> Simple(g, t, w, stack)
    ensures Match(g, t, ws, path, Entries(g, t, path, stack))
  {
    ws := Walks(g, t, stack);
    forall w ensures w in ws <==> Simple(g, t, w, stack) {
      WalksAreSimple(g, t, stack, w);
    }
    WalksAreOrdered(g, t, stack);
    forall i, j | 0 <= i < j < |ws| ensures ws[i] != ws[j] {
      BeforeIsIrreflexive(ws[i]);
    }
    EntriesMatchWalks(g, t, path, stack);
  }

  ghost predicate ReachedBy(g: Graph, root: TypeId, w: Walk, t: TypeId, path: string) {
    Simple(g, root, w, []) && Recorded(g, root, w, []) == Entry(t, path)
  }

  lemma {:induction false} InPathsOf(output: seq<Entry>, t: TypeId, path: string)
    ensures path in PathsOf(output, t) <==> Entry(t, path) in output
  {
    if output != [] {
      InPathsOf(output[..|output| - 1], t, path);
      assert output == output[..|output| - 1] + [output[|output| - 1]];
    }
  }

  lemma {:induction false} EntryHasWalk(g: Graph, root: TypeId, t: TypeId, path: string)
    requires g.Valid() && root in g.types
    ensures Entry(t, path) in Entries(g, root, [], []) <==> exists w :: ReachedBy(g, root, w, t, path)
  {
    var ws := GatherEnumeratesSimpleWalks(g, root, [], []);
    var es := Entries(g, root, [], []);
    if Entry(t, path) in es {
      var k :| 0 <= k < |es| && es[k] == Entry(t, path);
      assert ws[k] in ws;
      assert ReachedBy(g, root, ws[k], t, path);
    }
    if w :| ReachedBy(g, root, w, t, path) {
      var k :| 0 <= k < |ws| && ws[k] == w;
      assert es[k] == Entry(t, path);
    }
  }

  /** After any sequence of Gather calls, Get(t) holds a path exactly if a simple walk from a root spells it. */
  lemma {:induction false} GetIsComplete(g: Graph, roots: seq<TypeId>, t: TypeId, path: string)
    requires g.Valid() && forall i :: 0 <= i < |roots| ==> roots[i] in g.types
    ensures path in PathsOf(EntriesFrom(g, roots), t) <==> SomeWalk(g, roots, t, path)
  {
    InPathsOf(EntriesFrom(g, roots), t, path);
    if roots != [] {
      var init, last := roots[..|roots| - 1], roots[|roots| - 1];
      GetIsComplete(g, init, t, path);
      InPathsOf(EntriesFrom(g, init), t, path);
      EntryHasWalk(g, last, t, path);
      if i, w :| 0 <= i < |roots| && ReachedBy(g, roots[i], w, t, path) {
        if i < |init| {
          assert ReachedBy(g, init[i], w, t, path);
        }
      }
      if w :| ReachedBy(g, last, w, t, path) {
        assert ReachedBy(g, roots[|roots| - 1], w, t, path);
      }
      if i, w :| 0 <= i < |init| && ReachedBy(g, init[i], w, t, path) {
        assert ReachedBy(g, roots[i], w, t, path);
      }
    }
  }

  ghost predicate SomeWalk(g: Graph, roots: seq<TypeId>, t: TypeId, path: string) {
    exists i, w :: 0 <= i < |roots| && ReachedBy(g, roots[i], w, t, path)
  }

  /** Registering, gathering and asking for a type returns exactly the paths of the simple walks to it. */
  method TypicalPaths(
    reg: Registry, lookup: map<string, TypeId>, names: seq<(string, string)>, roots: seq<TypeId>, tid: TypeId)
    returns (paths: seq<string>)
    requires reg.Closed() && (forall name <- lookup :: lookup[name] in reg.registered)
    requires forall i :: 0 <= i < |roots| ==> roots[i] in reg.registered
    ensures ValidPairs(reg, KnownPairs(names, lookup))
    ensures forall path :: path in paths <==>
              SomeWalk(TypeGraph(reg, KnownPairs(names, lookup)), roots, tid, path)
  {
    var info := GetTypicalAggregations(reg, lookup, names, roots);
    paths := info.Get(tid);
    ghost var g := TypeGraph(reg, KnownPairs(names, lookup));
    forall path ensures path in paths <==> SomeWalk(g, roots, tid, path) {
      GetIsComplete(g, roots, tid, path);
    }
  }

  /**
   Two equal edges, such as those of an aggregation that is registered twice, record every
   configuration path through them twice; nothing removes the copy.
   */
  lemma {:induction false} EqualEdgesRepeatPaths(
    g: Graph, t: TypeId, path: seq<string>, stack: seq<TypeId>, i: nat, j: nat, w: Walk)
    returns (p: nat, q: nat)
    requires g.Valid() && t in g.types && i < j < |g.edges(t)| && g.edges(t)[i] == g.edges(t)[j]
    requires Simple(g, t, [i] + w, stack)
    ensures p < |Entries(g, t, path, stack)| && q < |Entries(g, t, path, stack)| && p != q
    ensures Entries(g, t, path, stack)[p] == Entries(g, t, path, stack)[q] == Recorded(g, t, [i] + w, path)
  {
    var ws := GatherEnumeratesSimpleWalks(g, t, path, stack);
    var a, b := [i] + w, [j] + w;
    VisitsStart(g, t, a);
    assert a[1..] == w && b[1..] == w;
    SimpleStep(g, t, a, stack);
    SimpleStep(g, t, b, stack);
    p :| p < |ws| && ws[p] == a;
    q :| q < |ws| && ws[q] == b;
    assert a[0] != b[0];
  }
}
