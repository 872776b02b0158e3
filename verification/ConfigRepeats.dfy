/**
 When the gatherer records an entry twice.  Uniquefy does not remove repetitions, so the output is free
 of them exactly if none arises: an entry is repeated if and only if some simple walk reaches a type
 that is linked twice to a type that can still be visited.
 */
module ConfigRepeats {
  import opened ConfigPaths
  import opened ConfigWalks

  ghost predicate Repeats(es: seq<Entry>) {
    exists p, q :: 0 <= p < q < |es| && es[p] == es[q]
  }

  // ---------------------------------------------------------------- paths determine their labels

  const ITEMS := "/[i]"

  predicate IsPlain(name: string) {
    '/' !in name && name != "[i]"
  }

  /** The label of an edge: a plain name, or one followed by the mark of a container. */
  ghost predicate GoodLabel(text: string) {
    exists name :: IsPlain(name) && (text == name || text == name + ITEMS)
  }

  ghost predicate GoodLabels(path: seq<string>) {
    forall i :: 0 <= i < |path| ==> GoodLabel(path[i])
  }

  lemma LastSlash(x: string, n: string, y: string, m: string)
    requires x + "/" + n == y + "/" + m && '/' !in n && '/' !in m
    ensures x == y && n == m
  {
    var s, t := x + "/" + n, y + "/" + m;
    assert s[|x|] == '/' && t[|y|] == '/';
    assert forall i :: 0 <= i < |n| ==> s[|x| + 1 + i] == n[i];
    assert |x| == |y|;
    assert s[..|x|] == x && t[..|y|] == y;
    assert s[|x| + 1..] == n && t[|y| + 1..] == m;
  }

  lemma SameEnd(x: string, y: string, z: string)
    requires x + z == y + z
    ensures x == y
  {
    assert |x + z| == |x| + |z| && |y + z| == |y| + |z|;
    assert (x + z)[..|x|] == x && (y + z)[..|y|] == y;
  }

  /** The last label can be read off a path. */
  lemma LastLabel(x: string, a: string, y: string, b: string)
    requires GoodLabel(a) && GoodLabel(b) && x + "/" + a == y + "/" + b
    ensures x == y && a == b
  {
    var n :| IsPlain(n) && (a == n || a == n + ITEMS);
    var m :| IsPlain(m) && (b == m || b == m + ITEMS);
    assert x + "/" + (n + ITEMS) == (x + "/" + n) + "/" + "[i]";
    assert y + "/" + (m + ITEMS) == (y + "/" + m) + "/" + "[i]";
    if a == n && b == m {
      LastSlash(x, n, y, m);
    } else if a == n {
      LastSlash(x, n, y + "/" + m, "[i]");
    } else if b == m {
      LastSlash(x + "/" + n, "[i]", y, m);
    } else {
      LastSlash(x + "/" + n, "[i]", y + "/" + m, "[i]");
      LastSlash(x, n, y, m);
    }
  }

  lemma {:induction false} PathStringInjective(a: seq<string>, b: seq<string>)
    requires GoodLabels(a) && GoodLabels(b) && PathString(a) == PathString(b)
    ensures a == b
  {
    if a != [] && b != [] {
      var a', b' := a[..|a| - 1], b[..|b| - 1];
      LastLabel(PathString(a'), a[|a| - 1], PathString(b'), b[|b| - 1]);
      PathStringInjective(a', b');
      assert a == a' + [a[|a| - 1]] && b == b' + [b[|b| - 1]];
    }
  }

  lemma {:induction false} PathStringConcat(a: seq<string>, b: seq<string>)
    ensures PathString(a + b) == PathString(a) + PathString(b)
  {
    if b == [] {
      assert a + b == a;
    } else {
      assert (a + b)[..|a + b| - 1] == a + b[..|b| - 1];
      PathStringConcat(a, b[..|b| - 1]);
    }
  }

  // ---------------------------------------------------------------- repeated entries in a graph

  /** Labels are good, and a type has no two different edges with the same label. */
  ghost predicate WellLabelled(g: Graph) {
    && (forall t, i :: t in g.types && 0 <= i < |g.edges(t)| ==> GoodLabel(g.edges(t)[i].name))
    && (forall t, i, j :: t in g.types && 0 <= i < j < |g.edges(t)| && g.edges(t)[i].name == g.edges(t)[j].name ==>
          g.edges(t)[i] == g.edges(t)[j])
  }

  ghost function End(g: Graph, t: TypeId, w: Walk): TypeId
    requires IsWalk(g, t, w)
  {
    var v := Visits(g, t, w);
    v[|v| - 1]
  }

  /** The simple walk `u` reaches a type with two equal edges to a type that is neither on it nor on the stack. */
  ghost predicate Doubled(g: Graph, t: TypeId, stack: seq<TypeId>, u: Walk, i: nat, j: nat) {
    && Simple(g, t, u, stack)
    && var x := End(g, t, u);
       && i < j < |g.edges(x)| && g.edges(x)[i] == g.edges(x)[j]
       && Target(g, x, i) !in Visits(g, t, u) && Target(g, x, i) !in stack
  }

  lemma {:induction false} DoubledStep(g: Graph, t: TypeId, stack: seq<TypeId>, k: nat, u: Walk, i: nat, j: nat)
    requires k < |g.edges(t)| && t !in stack
    ensures Doubled(g, Target(g, t, k), stack + [t], u, i, j) <==> Doubled(g, t, stack, [k] + u, i, j)
  {
    var w := [k] + u;
    assert w[1..] == u;
    SimpleStep(g, t, w, stack);
    if IsWalk(g, Target(g, t, k), u) {
      VisitsStart(g, Target(g, t, k), u);
      assert Visits(g, t, w) == [t] + Visits(g, Target(g, t, k), u);
    }
  }

  lemma {:induction false} SimpleStart(g: Graph, t: TypeId, w: Walk, stack: seq<TypeId>)
    requires Simple(g, t, w, stack)
    ensures t !in stack
  {
    VisitsStart(g, t, w);
    assert Visits(g, t, w)[0] !in stack;
  }

  /** Two different simple walks with the same labels part at a type with two equal edges. */
  lemma {:induction false} WalksPart(g: Graph, t: TypeId, stack: seq<TypeId>, a: Walk, b: Walk)
    returns (u: Walk, i: nat, j: nat)
    requires g.Valid() && t in g.types && WellLabelled(g) && a != b
    requires Simple(g, t, a, stack) && Simple(g, t, b, stack) && Labels(g, t, a) == Labels(g, t, b)
    ensures Doubled(g, t, stack, u, i, j)
    decreases |a|
  {
    assert a != [] && b != [];
    SimpleStart(g, t, a, stack);
    SimpleStep(g, t, a, stack);
    SimpleStep(g, t, b, stack);
    assert Labels(g, t, a)[1..] == Labels(g, Target(g, t, a[0]), a[1..]);
    assert Labels(g, t, b)[1..] == Labels(g, Target(g, t, b[0]), b[1..]);
    assert Labels(g, t, a)[0] == g.edges(t)[a[0]].name && Labels(g, t, b)[0] == g.edges(t)[b[0]].name;
    if a[0] == b[0] {
      assert a == [a[0]] + a[1..] && b == [b[0]] + b[1..];
      u, i, j := WalksPart(g, Target(g, t, a[0]), stack + [t], a[1..], b[1..]);
      DoubledStep(g, t, stack, a[0], u, i, j);
      u := [a[0]] + u;
    } else {
      u, i, j := [], if a[0] < b[0] then a[0] else b[0], if a[0] < b[0] then b[0] else a[0];
      SimpleStart(g, Target(g, t, a[0]), a[1..], stack + [t]);
      assert Visits(g, t, u) == [t];
    }
  }

  /** A doubled edge extends the walk in two ways that are recorded alike. */
  lemma {:induction false} DoubledExtends(
    g: Graph, t: TypeId, path: seq<string>, stack: seq<TypeId>, u: Walk, i: nat, j: nat)
    requires Doubled(g, t, stack, u, i, j)
    ensures Simple(g, t, u + [i], stack) && Simple(g, t, u + [j], stack)
    ensures Recorded(g, t, u + [i], path) == Recorded(g, t, u + [j], path)
    decreases |u|
  {
    SimpleStart(g, t, u, stack);
    if u == [] {
      assert u + [i] == [i] && u + [j] == [j];
      var y := Target(g, t, i);
      assert [i][1..] == [] && [j][1..] == [];
      SimpleStep(g, t, [i], stack);
      SimpleStep(g, t, [j], stack);
      assert Visits(g, y, []) == [y];
    } else {
      var k, e := u[0], g.edges(t)[u[0]];
      assert u == [k] + u[1..];
      DoubledStep(g, t, stack, k, u[1..], i, j);
      DoubledExtends(g, e.target, path + [e.name], stack + [t], u[1..], i, j);
      RecordedStep(g, t, path, stack, u, i);
      RecordedStep(g, t, path, stack, u, j);
    }
  }

  lemma {:induction false} RecordedStep(g: Graph, t: TypeId, path: seq<string>, stack: seq<TypeId>, u: Walk, i: nat)
    requires u != [] && u[0] < |g.edges(t)| && t !in stack
    requires Simple(g, Target(g, t, u[0]), u[1..] + [i], stack + [t])
    ensures Simple(g, t, u + [i], stack)
    ensures Recorded(g, t, u + [i], path) ==
            Recorded(g, Target(g, t, u[0]), u[1..] + [i], path + [g.edges(t)[u[0]].name])
  {
    var w, e := u + [i], g.edges(t)[u[0]];
    assert w[0] == u[0] && w[1..] == u[1..] + [i];
    SimpleStep(g, t, w, stack);
    VisitsStart(g, e.target, w[1..]);
    assert path + Labels(g, t, w) == (path + [e.name]) + Labels(g, e.target, w[1..]);
  }

  lemma {:induction false} LabelsAreGood(g: Graph, t: TypeId, w: Walk)
    requires g.Valid() && t in g.types && WellLabelled(g) && IsWalk(g, t, w)
    ensures GoodLabels(Labels(g, t, w))
    decreases |w|
  {
    if w != [] {
      LabelsAreGood(g, Target(g, t, w[0]), w[1..]);
    }
  }

  lemma {:induction false} SameRecordSameLabels(g: Graph, t: TypeId, path: seq<string>, a: Walk, b: Walk)
    requires g.Valid() && t in g.types && WellLabelled(g) && IsWalk(g, t, a) && IsWalk(g, t, b)
    requires Recorded(g, t, a, path) == Recorded(g, t, b, path)
    ensures Labels(g, t, a) == Labels(g, t, b)
  {
    var la, lb := Labels(g, t, a), Labels(g, t, b);
    LabelsAreGood(g, t, a);
    LabelsAreGood(g, t, b);
    PathStringConcat(path, la);
    PathStringConcat(path, lb);
    var p := PathString(path);
    assert (p + PathString(la))[|p|..] == PathString(la) && (p + PathString(lb))[|p|..] == PathString(lb);
    PathStringInjective(la, lb);
  }

  /** A doubled edge that a simple walk reaches records an entry twice, whatever the labels. */
  lemma {:induction false} DoubledRepeats(
    g: Graph, t: TypeId, path: seq<string>, stack: seq<TypeId>, u: Walk, i: nat, j: nat)
    requires g.Valid() && t in g.types && Doubled(g, t, stack, u, i, j)
    ensures Repeats(Entries(g, t, path, stack))
  {
    var ws := GatherEnumeratesSimpleWalks(g, t, path, stack);
    DoubledExtends(g, t, path, stack, u, i, j);
    var p: nat :| p < |ws| && ws[p] == u + [i];
    var q: nat :| q < |ws| && ws[q] == u + [j];
    assert ws[p][|u|] != ws[q][|u|];
    var es := Entries(g, t, path, stack);
    assert es[p] == es[q];
    assert Repeats(es) by {
      assert if p < q then es[p] == es[q] else es[q] == es[p];
    }
  }

  /** With good labels nothing else repeats: the output has a repetition exactly if a doubled edge is reached. */
  lemma {:induction false} RepeatsIffDoubled(g: Graph, t: TypeId, path: seq<string>, stack: seq<TypeId>)
    requires g.Valid() && t in g.types && WellLabelled(g)
    ensures Repeats(Entries(g, t, path, stack)) <==> exists u, i, j :: Doubled(g, t, stack, u, i, j)
  {
    var es := Entries(g, t, path, stack);
    if p, q :| 0 <= p < q < |es| && es[p] == es[q] {
      var ws := GatherEnumeratesSimpleWalks(g, t, path, stack);
      assert ws[p] in ws && ws[q] in ws;
      SameRecordSameLabels(g, t, path, ws[p], ws[q]);
      var u, i, j := WalksPart(g, t, stack, ws[p], ws[q]);
      assert Doubled(g, t, stack, u, i, j);
    }
    if u, i, j :| Doubled(g, t, stack, u, i, j) {
      DoubledRepeats(g, t, path, stack, u, i, j);
    }
  }

  // ---------------------------------------------------------------- repeated entries over all roots

  /** Simple walks from two roots end in the same type and have the same labels. */
  ghost predicate Meet(g: Graph, root: TypeId, root': TypeId, a: Walk, b: Walk) {
    && Simple(g, root, a, []) && Simple(g, root', b, [])
    && End(g, root, a) == End(g, root', b) && Labels(g, root, a) == Labels(g, root', b)
  }

  ghost predicate Common(a: seq<Entry>, b: seq<Entry>) {
    exists e :: e in a && e in b
  }

  lemma {:induction false} RepeatsConcat(a: seq<Entry>, b: seq<Entry>)
    ensures Repeats(a + b) <==> Repeats(a) || Repeats(b) || Common(a, b)
  {
    var s := a + b;
    assert forall i :: 0 <= i < |a| ==> s[i] == a[i];
    assert forall i :: 0 <= i < |b| ==> s[|a| + i] == b[i];
    if p, q :| 0 <= p < q < |s| && s[p] == s[q] {
      if |a| <= p {
        assert b[p - |a|] == b[q - |a|];
      } else if |a| <= q {
        assert a[p] in a && b[q - |a|] in b && a[p] == b[q - |a|];
      } else {
        assert a[p] == a[q];
      }
    }
    if e :| e in a && e in b {
      var p :| 0 <= p < |a| && a[p] == e;
      var q :| 0 <= q < |b| && b[q] == e;
      assert s[p] == s[|a| + q];
    }
    if p, q :| 0 <= p < q < |a| && a[p] == a[q] {
      assert s[p] == s[q];
    }
    if p, q :| 0 <= p < q < |b| && b[p] == b[q] {
      assert s[|a| + p] == s[|a| + q];
    }
  }

  lemma {:induction false} WalksMeetIff(g: Graph, root: TypeId, root': TypeId, a: Walk, b: Walk)
    requires g.Valid() && root in g.types && root' in g.types && WellLabelled(g)
    requires Simple(g, root, a, []) && Simple(g, root', b, [])
    ensures Recorded(g, root, a, []) == Recorded(g, root', b, []) <==> Meet(g, root, root', a, b)
  {
    var la, lb := Labels(g, root, a), Labels(g, root', b);
    LabelsAreGood(g, root, a);
    LabelsAreGood(g, root', b);
    assert [] + la == la && [] + lb == lb;
    if PathString(la) == PathString(lb) {
      PathStringInjective(la, lb);
    }
  }

  /** The output over some roots and the walk from one more root share an entry exactly if two walks meet. */
  lemma {:induction false} CommonIffMeet(g: Graph, roots: seq<TypeId>, root: TypeId)
    requires g.Valid() && (forall i :: 0 <= i < |roots| ==> roots[i] in g.types) && root in g.types && WellLabelled(g)
    ensures Common(EntriesFrom(g, roots), Entries(g, root, [], [])) <==>
            exists r, a, b :: 0 <= r < |roots| && Meet(g, roots[r], root, a, b)
  {
    var all, es := EntriesFrom(g, roots), Entries(g, root, [], []);
    if e :| e in all && e in es {
      InPathsOf(all, e.tid, e.path);
      GetIsComplete(g, roots, e.tid, e.path);
      EntryHasWalk(g, root, e.tid, e.path);
      assert SomeWalk(g, roots, e.tid, e.path);
      var r, a :| 0 <= r < |roots| && ReachedBy(g, roots[r], a, e.tid, e.path);
      var b :| ReachedBy(g, root, b, e.tid, e.path);
      WalksMeetIff(g, roots[r], root, a, b);
      assert Meet(g, roots[r], root, a, b);
    }
    if r, a, b :| 0 <= r < |roots| && Meet(g, roots[r], root, a, b) {
      WalksMeetIff(g, roots[r], root, a, b);
      var e := Recorded(g, roots[r], a, []);
      assert ReachedBy(g, roots[r], a, e.tid, e.path) && ReachedBy(g, root, b, e.tid, e.path);
      InPathsOf(all, e.tid, e.path);
      GetIsComplete(g, roots, e.tid, e.path);
      EntryHasWalk(g, root, e.tid, e.path);
      assert e in all && e in es;
    }
  }

  ghost predicate SomeDoubled(g: Graph, t: TypeId) {
    exists u, i, j :: Doubled(g, t, [], u, i, j)
  }

  ghost predicate SomeMeet(g: Graph, root: TypeId, root': TypeId) {
    exists a, b :: Meet(g, root, root', a, b)
  }

  /** Some root reaches a doubled edge, or walks from two of the roots meet. */
  ghost predicate RootsRepeat(g: Graph, roots: seq<TypeId>) {
    || (exists r :: 0 <= r < |roots| && SomeDoubled(g, roots[r]))
    || (exists r, s :: 0 <= r < s < |roots| && SomeMeet(g, roots[r], roots[s]))
  }

  lemma {:induction false} RootsRepeatOneMore(g: Graph, init: seq<TypeId>, last: TypeId)
    ensures RootsRepeat(g, init + [last]) <==>
            || RootsRepeat(g, init) || SomeDoubled(g, last)
            || exists r :: 0 <= r < |init| && SomeMeet(g, init[r], last)
  {
    var roots := init + [last];
    assert roots[|init|] == last && forall r :: 0 <= r < |init| ==> roots[r] == init[r];
    if r :| 0 <= r < |init| && SomeDoubled(g, init[r]) {
      assert SomeDoubled(g, roots[r]);
    }
    if SomeDoubled(g, last) {
      assert SomeDoubled(g, roots[|init|]);
    }
    if r, s :| 0 <= r < s < |init| && SomeMeet(g, init[r], init[s]) {
      assert SomeMeet(g, roots[r], roots[s]);
    }
    if r :| 0 <= r < |init| && SomeMeet(g, init[r], last) {
      assert SomeMeet(g, roots[r], roots[|init|]);
    }
  }

  /** The output over all roots has a repetition exactly if some root reaches a doubled edge or two walks meet. */
  lemma {:induction false} OutputRepeats(g: Graph, roots: seq<TypeId>)
    requires g.Valid() && (forall i :: 0 <= i < |roots| ==> roots[i] in g.types) && WellLabelled(g)
    ensures Repeats(EntriesFrom(g, roots)) <==> RootsRepeat(g, roots)
  {
    if roots != [] {
      var init, last := roots[..|roots| - 1], roots[|roots| - 1];
      OutputRepeats(g, init);
      RepeatsConcat(EntriesFrom(g, init), Entries(g, last, [], []));
      RepeatsIffDoubled(g, last, [], []);
      CommonIffSomeMeet(g, init, last);
      RootsRepeatOneMore(g, init, last);
      assert roots == init + [last];
    }
  }

  lemma {:induction false} CommonIffSomeMeet(g: Graph, roots: seq<TypeId>, root: TypeId)
    requires g.Valid() && (forall i :: 0 <= i < |roots| ==> roots[i] in g.types) && root in g.types && WellLabelled(g)
    ensures Common(EntriesFrom(g, roots), Entries(g, root, [], [])) <==>
            exists r :: 0 <= r < |roots| && SomeMeet(g, roots[r], root)
  {
    CommonIffMeet(g, roots, root);
    if r :| 0 <= r < |roots| && SomeMeet(g, roots[r], root) {
      var a, b :| Meet(g, roots[r], root, a, b);
    }
    if r, a, b :| 0 <= r < |roots| && Meet(g, roots[r], root, a, b) {
      assert SomeMeet(g, roots[r], root);
    }
  }
}
