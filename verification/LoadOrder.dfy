/**
 The library load order of bindings/python/ns__init__.py: a layered topological sort by repeated
 rounds over shared work lists.

 `Placed(deps, n)` is the set of modules that n rounds can place.  The sorter is proved to compute
 its layers; what the layers mean is then stated through dependency chains.  Python's limit on the
 recursion depth, which is what ends the recursion when no progress is possible, is the parameter
 `frames`.
 */
module LoadOrder {
  type Lib = string
  type Deps = map<Lib, seq<Lib>>

  ghost predicate Distinct(s: seq<Lib>) {
    forall i, j :: 0 <= i < j < |s| ==> s[i] != s[j]
  }

  /** `keys` lists the modules in the insertion order of the dictionary. */
  ghost predicate ListsKeys(deps: Deps, keys: seq<Lib>) {
    Distinct(keys) && forall m :: m in keys <==> m in deps
  }

  predicate Ready(deps: Deps, m: Lib, placed: set<Lib>)
    requires m in deps
  {
    forall i :: 0 <= i < |deps[m]| ==> deps[m][i] in placed
  }

  ghost function Placed(deps: Deps, n: nat): set<Lib> {
    if n == 0 then {} else set m | m in deps && Ready(deps, m, Placed(deps, n - 1))
  }

  /** The modules that round `k` places, in dictionary order. */
  ghost function Layer(deps: Deps, keys: seq<Lib>, k: nat): seq<Lib> {
    Select(keys, Placed(deps, k + 1) - Placed(deps, k))
  }

  /** The elements of `s` that are in `keep`, in order. */
  ghost function Select(s: seq<Lib>, keep: set<Lib>): seq<Lib> {
    if s == [] then []
    else Select(s[..|s| - 1], keep) + if s[|s| - 1] in keep then [s[|s| - 1]] else []
  }

  ghost function SetOf(s: seq<Lib>): set<Lib> {
    set m | m in s
  }

  // ---------------------------------------------------------------- the sorter

  method ModulesThatCanBeLoaded(deps: Deps, pending: seq<Lib>, current: seq<Lib>) returns (modules: seq<Lib>)
    requires forall m <- pending :: m in deps
    ensures modules == Select(pending, set m | m in deps && Ready(deps, m, SetOf(current)))
  {
    ghost var ready := set m | m in deps && Ready(deps, m, SetOf(current));
    modules := [];
    for i := 0 to |pending|
      invariant modules == Select(pending[..i], ready)
    {
      var candidate := pending[i];
      assert pending[..i + 1][..i] == pending[..i];
      var canBeLoaded := true;
      for j := 0 to |deps[candidate]|
        invariant canBeLoaded
        invariant forall k :: 0 <= k < j ==> deps[candidate][k] in current
      {
        if deps[candidate][j] !in current {
          canBeLoaded := false;
          break;
        }
      }
      if !canBeLoaded {
        continue;
      }
      modules := modules + [candidate];
    }
    assert pending[..|pending|] == pending;
  }

  /** list.remove: drops the first occurrence. */
  function Remove(s: seq<Lib>, m: Lib): seq<Lib>
    requires m in s
  {
    if s[0] == m then s[1..] else [s[0]] + Remove(s[1..], m)
  }

  class Sorter {
    var pending: seq<Lib>
    var current: seq<Lib>
    var steps: seq<seq<Lib>>

    /** The work lists after `n` rounds. */
    ghost predicate After(deps: Deps, keys: seq<Lib>, n: nat)
      reads this
    {
      && ListsKeys(deps, keys)
      && pending == Select(keys, deps.Keys - Placed(deps, n))
      && SetOf(current) == Placed(deps, n)
      && |steps| == n && forall k :: 0 <= k < n ==> steps[k] == Layer(deps, keys, k)
    }

    constructor (deps: Deps, keys: seq<Lib>)
      requires ListsKeys(deps, keys)
      ensures After(deps, keys, 0)
    {
      pending, current, steps := keys, [], [];
      SelectAll(keys, deps.Keys - Placed(deps, 0));
    }

    /** One round: the modules that can be loaded move from `pending` to `current` and to this step. */
    method Round(deps: Deps, ghost keys: seq<Lib>, stepNumber: nat)
      requires After(deps, keys, stepNumber)
      modifies this
      ensures After(deps, keys, stepNumber + 1)
    {
      if stepNumber == |steps| {
        steps := steps + [[]];
      }
      ghost var todo := deps.Keys - Placed(deps, stepNumber);
      SelectProperties(keys, todo);
      var modules := ModulesThatCanBeLoaded(deps, pending, current);
      RoundSelects(deps, keys, stepNumber);
      SelectProperties(keys, Placed(deps, stepNumber + 1) - Placed(deps, stepNumber));
      PlacedGrows(deps, stepNumber);
      Move(keys, stepNumber, modules, todo);
      assert Placed(deps, stepNumber) + SetOf(modules) == Placed(deps, stepNumber + 1);
      assert todo - SetOf(modules) == deps.Keys - Placed(deps, stepNumber + 1);
    }

    method Move(ghost keys: seq<Lib>, stepNumber: nat, modules: seq<Lib>, ghost todo: set<Lib>)
      requires |steps| == stepNumber + 1 && steps[stepNumber] == []
      requires Distinct(keys) && pending == Select(keys, todo)
      requires Distinct(modules) && forall m <- modules :: m in todo && m in keys
      modifies this
      ensures steps == old(steps)[stepNumber := modules]
      ensures SetOf(current) == old(SetOf(current)) + SetOf(modules)
      ensures pending == Select(keys, todo - SetOf(modules))
    {
      assert todo - SetOf(modules[..0]) == todo;
      for i := 0 to |modules|
        invariant steps == old(steps)[stepNumber := modules[..i]]
        invariant SetOf(current) == old(SetOf(current)) + SetOf(modules[..i])
        invariant pending == Select(keys, todo - SetOf(modules[..i]))
      {
        var m := modules[i];
        assert modules[..i + 1] == modules[..i] + [m];
        assert SetOf(modules[..i + 1]) == SetOf(modules[..i]) + {m};
        RemoveSelected(keys, todo - SetOf(modules[..i]), m);
        assert todo - SetOf(modules[..i]) - {m} == todo - SetOf(modules[..i + 1]);
        steps := steps[stepNumber := steps[stepNumber] + [m]];
        pending := Remove(pending, m);
        assert SetOf(current + [m]) == SetOf(current) + {m};
        current := current + [m];
      }
      assert modules[..|modules|] == modules;
    }

    /**
     The recursion of dependency_order with `frames` stack frames left.  It returns if some number
     of rounds below that depth places every module, and otherwise fails with RecursionError.
     */
    method DependencyOrder(deps: Deps, ghost keys: seq<Lib>, stepNumber: nat, frames: nat) returns (ok: bool)
      requires After(deps, keys, stepNumber)
      requires forall k :: 0 <= k < stepNumber ==> !Complete(deps, k)
      modifies this
      ensures ok <==> exists n :: stepNumber <= n < stepNumber + frames && Complete(deps, n)
      ensures ok ==> After(deps, keys, |steps|) && NeedsRounds(deps, |steps|)
      decreases frames
    {
      if frames == 0 {
        return false;
      }
      SelectProperties(keys, deps.Keys - Placed(deps, stepNumber));
      PlacedGrows(deps, stepNumber);
      if |pending| == 0 {
        assert forall m <- deps :: m in keys && m in Placed(deps, stepNumber);
        assert Complete(deps, stepNumber);
        return true;
      }
      assert pending[0] in deps && pending[0] !in Placed(deps, stepNumber);
      assert !Complete(deps, stepNumber);
      Round(deps, keys, stepNumber);
      ok := DependencyOrder(deps, keys, stepNumber + 1, frames - 1);
    }
  }

  ghost function Flatten(steps: seq<seq<Lib>>): seq<Lib> {
    if steps == [] then [] else Flatten(steps[..|steps| - 1]) + steps[|steps| - 1]
  }

  datatype Outcome = Sorted(libraries: seq<Lib>) | RecursionError

  /** The modules in load order, or the failure that Python raises. */
  method SortToDependencies(deps: Deps, keys: seq<Lib>, frames: nat) returns (r: Outcome)
    requires ListsKeys(deps, keys)
    ensures r.Sorted? <==> exists n :: 0 <= n < frames && Complete(deps, n)
    ensures r.Sorted? ==> exists n :: NeedsRounds(deps, n) && r.libraries == Flatten(Layers(deps, keys, n))
  {
    var sorter := new Sorter(deps, keys);
    var ok := sorter.DependencyOrder(deps, keys, 0, frames);
    if !ok {
      return RecursionError;
    }
    var libraries := [];
    for i := 0 to |sorter.steps|
      invariant libraries == Flatten(sorter.steps[..i])
    {
      assert sorter.steps[..i + 1][..i] == sorter.steps[..i];
      libraries := libraries + sorter.steps[i];
    }
    assert sorter.steps[..|sorter.steps|] == sorter.steps;
    assert sorter.steps == Layers(deps, keys, |sorter.steps|);
    assert NeedsRounds(deps, |sorter.steps|);
    r := Sorted(libraries);
  }

  // ---------------------------------------------------------------- selections

  lemma {:induction false} SelectProperties(s: seq<Lib>, keep: set<Lib>)
    ensures forall m :: m in Select(s, keep) <==> m in s && m in keep
    ensures Distinct(s) ==> Distinct(Select(s, keep))
  {
    if s != [] {
      SelectProperties(s[..|s| - 1], keep);
      assert s == s[..|s| - 1] + [s[|s| - 1]];
    }
  }

  lemma {:induction false} SelectAll(s: seq<Lib>, keep: set<Lib>)
    requires forall m <- s :: m in keep
    ensures Select(s, keep) == s
  {
    if s != [] {
      SelectAll(s[..|s| - 1], keep);
      assert s == s[..|s| - 1] + [s[|s| - 1]];
    }
  }

  lemma {:induction false} SelectAgain(s: seq<Lib>, a: set<Lib>, b: set<Lib>)
    ensures Select(Select(s, a), b) == Select(s, a * b)
  {
    if s != [] {
      var init, last := s[..|s| - 1], s[|s| - 1];
      SelectAgain(init, a, b);
      if last in a {
        assert Select(s, a)[..|Select(s, a)| - 1] == Select(init, a);
      } else {
        assert Select(s, a) == Select(init, a);
      }
    }
  }

  lemma {:induction false} SelectSame(s: seq<Lib>, a: set<Lib>, b: set<Lib>)
    requires forall m <- s :: m in a <==> m in b
    ensures Select(s, a) == Select(s, b)
  {
    if s != [] {
      SelectSame(s[..|s| - 1], a, b);
    }
  }

  lemma {:induction false} RemoveLast(s: seq<Lib>, x: Lib, m: Lib)
    requires m in s
    ensures Remove(s + [x], m) == Remove(s, m) + [x]
  {
    if s[0] != m {
      assert (s + [x])[1..] == s[1..] + [x];
      RemoveLast(s[1..], x, m);
    }
  }

  lemma {:induction false} RemoveEnd(s: seq<Lib>, m: Lib)
    requires m !in s
    ensures Remove(s + [m], m) == s
  {
    if s != [] {
      assert (s + [m])[1..] == s[1..] + [m];
      RemoveEnd(s[1..], m);
    }
  }

  lemma {:induction false} RemoveSelected(s: seq<Lib>, keep: set<Lib>, m: Lib)
    requires Distinct(s) && m in s && m in keep
    ensures m in Select(s, keep) && Remove(Select(s, keep), m) == Select(s, keep - {m})
  {
    var init, last := s[..|s| - 1], s[|s| - 1];
    assert s == init + [last];
    SelectProperties(s, keep);
    SelectProperties(init, keep);
    if last == m {
      RemoveEnd(Select(init, keep), m);
      SelectSame(init, keep, keep - {m});
    } else {
      RemoveSelected(init, keep, m);
      assert last in keep <==> last in keep - {m};
      if last in keep {
        RemoveLast(Select(init, keep), last, m);
      } else {
        assert Select(s, keep) == Select(init, keep) && Select(s, keep - {m}) == Select(init, keep - {m});
      }
    }
  }

  lemma {:induction false} RoundSelects(deps: Deps, keys: seq<Lib>, n: nat)
    requires ListsKeys(deps, keys)
    ensures Select(Select(keys, deps.Keys - Placed(deps, n)), Placed(deps, n + 1)) == Layer(deps, keys, n)
  {
    SelectAgain(keys, deps.Keys - Placed(deps, n), Placed(deps, n + 1));
    SelectSame(keys, (deps.Keys - Placed(deps, n)) * Placed(deps, n + 1), Placed(deps, n + 1) - Placed(deps, n));
  }

  // ---------------------------------------------------------------- rounds

  lemma {:induction false} PlacedGrows(deps: Deps, n: nat)
    ensures Placed(deps, n) <= Placed(deps, n + 1) <= deps.Keys && Placed(deps, n) <= deps.Keys
  {
    if n > 0 {
      PlacedGrows(deps, n - 1);
    }
  }

  lemma {:induction false} PlacedMonotone(deps: Deps, m: nat, n: nat)
    requires m <= n
    ensures Placed(deps, m) <= Placed(deps, n)
    decreases n - m
  {
    if m < n {
      PlacedGrows(deps, m);
      PlacedMonotone(deps, m + 1, n);
    }
  }

  ghost predicate Complete(deps: Deps, n: nat) {
    Placed(deps, n) == deps.Keys
  }

  /** `n` rounds place every module and fewer do not. */
  ghost predicate NeedsRounds(deps: Deps, n: nat) {
    Complete(deps, n) && forall k :: 0 <= k < n ==> !Complete(deps, k)
  }

  lemma {:induction false} StableOnce(deps: Deps, m: nat, n: nat)
    requires m <= n && Placed(deps, m) == Placed(deps, m + 1)
    ensures Placed(deps, n) == Placed(deps, m)
    decreases n - m
  {
    if m < n {
      StableOnce(deps, m + 1, n);
    }
  }

  /** Until the rounds stop making progress, each places at least one module. */
  lemma {:induction false} RoundsCount(deps: Deps, n: nat)
    ensures |Placed(deps, n)| >= n || (exists m :: 0 <= m < n && Placed(deps, m) == Placed(deps, m + 1))
  {
    if n > 0 {
      RoundsCount(deps, n - 1);
      PlacedGrows(deps, n - 1);
      if Placed(deps, n - 1) != Placed(deps, n) {
        SmallerSet(Placed(deps, n - 1), Placed(deps, n));
      }
    }
  }

  lemma {:induction false} SmallerSet(a: set<Lib>, b: set<Lib>)
    requires a <= b
    ensures |a| <= |b| && (|a| == |b| ==> a == b)
  {
    assert b == a + (b - a);
    if a != b {
      var x :| x in b - a;
      assert |b - a| >= 1 by {
        assert b - a != {};
      }
    }
  }

  /** After as many rounds as there are modules nothing changes any more. */
  lemma {:induction false} Stabilises(deps: Deps, n: nat)
    requires |deps| <= n
    ensures Placed(deps, n) == Placed(deps, |deps|)
  {
    RoundsCount(deps, |deps|);
    PlacedGrows(deps, |deps|);
    if m :| 0 <= m < |deps| && Placed(deps, m) == Placed(deps, m + 1) {
      StableOnce(deps, m, |deps|);
      StableOnce(deps, m, n);
    } else {
      SmallerSet(Placed(deps, |deps|), deps.Keys);
      PlacedMonotone(deps, |deps|, n);
      if n > 0 {
        PlacedGrows(deps, n - 1);
      }
    }
  }

  ghost predicate ClosedUnderReady(deps: Deps, placed: set<Lib>) {
    forall m <- deps :: Ready(deps, m, placed) ==> m in placed
  }

  /** The modules ever placed are the least set that holds each module whose dependencies it holds. */
  lemma {:induction false} PlacedIsLeastFixedPoint(deps: Deps, placed: set<Lib>)
    ensures ClosedUnderReady(deps, Placed(deps, |deps|))
    ensures forall m <- Placed(deps, |deps|) :: m in deps && Ready(deps, m, Placed(deps, |deps|))
    ensures ClosedUnderReady(deps, placed) ==> Placed(deps, |deps|) <= placed
  {
    Stabilises(deps, |deps| + 1);
    if ClosedUnderReady(deps, placed) {
      BelowClosed(deps, placed, |deps|);
    }
  }

  lemma {:induction false} BelowClosed(deps: Deps, placed: set<Lib>, n: nat)
    requires ClosedUnderReady(deps, placed)
    ensures Placed(deps, n) <= placed
  {
    if n > 0 {
      BelowClosed(deps, placed, n - 1);
    }
  }

  // ---------------------------------------------------------------- dependency chains

  /** Each element but the last is a module that depends on the next one. */
  ghost predicate Chain(deps: Deps, c: seq<Lib>) {
    c != [] && forall i :: 0 <= i < |c| - 1 ==> c[i] in deps && c[i + 1] in deps[c[i]]
  }

  ghost predicate ChainFrom(deps: Deps, m: Lib, c: seq<Lib>) {
    Chain(deps, c) && c[0] == m
  }

  ghost predicate Bounded(deps: Deps, c: seq<Lib>, n: nat)
    requires c != []
  {
    |c| <= n && c[|c| - 1] in deps
  }

  /** `n` rounds place a module exactly if its chains have at most `n` members and end in modules. */
  lemma {:induction false} PlacedIffChainsBounded(deps: Deps, m: Lib, n: nat)
    ensures m in Placed(deps, n) <==> forall c :: ChainFrom(deps, m, c) ==> Bounded(deps, c, n)
  {
    if m in Placed(deps, n) {
      forall c | ChainFrom(deps, m, c) ensures Bounded(deps, c, n) {
        ChainsOfPlaced(deps, m, n, c);
      }
    } else {
      var c := LongChain(deps, m, n);
    }
  }

  lemma {:induction false} ChainsOfPlaced(deps: Deps, m: Lib, n: nat, c: seq<Lib>)
    requires m in Placed(deps, n) && ChainFrom(deps, m, c)
    ensures Bounded(deps, c, n)
    decreases n
  {
    if |c| > 1 {
      assert c[1] in deps[m];
      var i :| 0 <= i < |deps[m]| && deps[m][i] == c[1];
      assert ChainFrom(deps, c[1], c[1..]);
      ChainsOfPlaced(deps, c[1], n - 1, c[1..]);
    }
  }

  /** A module that is not placed has a chain that is too long or leaves the modules. */
  lemma {:induction false} LongChain(deps: Deps, m: Lib, n: nat) returns (c: seq<Lib>)
    requires m !in Placed(deps, n)
    ensures ChainFrom(deps, m, c) && !Bounded(deps, c, n)
    decreases n
  {
    if m !in deps || n == 0 {
      c := [m];
    } else {
      var i :| 0 <= i < |deps[m]| && deps[m][i] !in Placed(deps, n - 1);
      var d := LongChain(deps, deps[m][i], n - 1);
      c := [m] + d;
      assert forall k :: 0 < k < |c| ==> c[k] == d[k - 1];
      assert c[|c| - 1] == d[|d| - 1];
    }
  }

  /** A module's step is the length of its longest dependency chain: members minus one. */
  lemma {:induction false} StepIsLongestChain(deps: Deps, m: Lib, k: nat)
    requires m in Placed(deps, k + 1) && m !in Placed(deps, k)
    ensures forall c :: ChainFrom(deps, m, c) ==> |c| <= k + 1 && c[|c| - 1] in deps
    ensures exists c :: ChainFrom(deps, m, c) && |c| == k + 1
  {
    forall c | ChainFrom(deps, m, c) ensures Bounded(deps, c, k + 1) {
      ChainsOfPlaced(deps, m, k + 1, c);
    }
    var c := LongChain(deps, m, k);
    assert ChainFrom(deps, m, c) && Bounded(deps, c, k + 1);
  }

  /** Some chain from `m` ends in an absent library, or comes back to a library it has passed. */
  ghost predicate Doomed(deps: Deps, m: Lib) {
    exists c :: ChainFrom(deps, m, c) && (c[|c| - 1] !in deps || !Distinct(c))
  }

  lemma {:induction false} ChainDescends(deps: Deps, c: seq<Lib>, n: nat, k: nat)
    requires Chain(deps, c) && k < |c| && c[0] in Placed(deps, n)
    ensures k < n && c[k] in Placed(deps, n - k)
  {
    if k > 0 {
      ChainDescends(deps, c, n, k - 1);
      assert c[k] in deps[c[k - 1]];
      var i :| 0 <= i < |deps[c[k - 1]]| && deps[c[k - 1]][i] == c[k];
    }
  }

  lemma {:induction false} CyclesAreNeverPlaced(deps: Deps, c: seq<Lib>, n: nat)
    requires Chain(deps, c) && |c| > 1 && c[0] == c[|c| - 1]
    ensures c[0] !in Placed(deps, n)
  {
    if c[0] in Placed(deps, n) {
      ChainDescends(deps, c, n, |c| - 1);
      CyclesAreNeverPlaced(deps, c, n - (|c| - 1));
      assert false;
    }
  }

  lemma {:induction false} Pigeonhole(s: seq<Lib>, all: set<Lib>)
    requires Distinct(s) && forall m <- s :: m in all
    ensures |s| <= |all|
  {
    if s != [] {
      var init, last := s[..|s| - 1], s[|s| - 1];
      Pigeonhole(init, all - {last});
    }
  }

  /** Exactly the modules that reach a cycle or an absent library are never placed. */
  lemma {:induction false} NeverPlacedIffDoomed(deps: Deps, m: Lib)
    ensures Doomed(deps, m) <==> m !in Placed(deps, |deps|)
    ensures Doomed(deps, m) <==> forall n: nat :: m !in Placed(deps, n)
  {
    if Doomed(deps, m) {
      forall n: nat ensures m !in Placed(deps, n) {
        DoomedIsNotPlaced(deps, m, n);
      }
    } else if m !in Placed(deps, |deps|) {
      var c := LongChain(deps, m, |deps|);
      assert c[|c| - 1] in deps && Distinct(c);
      assert forall i :: 0 <= i < |c| ==> c[i] in deps;
      Pigeonhole(c, deps.Keys);
      assert false;
    }
  }

  lemma {:induction false} DoomedIsNotPlaced(deps: Deps, m: Lib, n: nat)
    requires Doomed(deps, m)
    ensures m !in Placed(deps, n)
  {
    if m in Placed(deps, n) {
      var c :| ChainFrom(deps, m, c) && (c[|c| - 1] !in deps || !Distinct(c));
      ChainsOfPlaced(deps, m, n, c);
      var i, j :| 0 <= i < j < |c| && c[i] == c[j];
      ChainDescends(deps, c, n, i);
      var cycle := c[i..j + 1];
      assert forall k :: 0 <= k < |cycle| ==> cycle[k] == c[i + k];
      CyclesAreNeverPlaced(deps, cycle, n - i);
      assert false;
    }
  }

  ghost predicate NobodyDoomed(deps: Deps) {
    forall m <- deps :: !Doomed(deps, m)
  }

  lemma {:induction false} CompleteAtSize(deps: Deps)
    ensures NobodyDoomed(deps) <==> Complete(deps, |deps|)
  {
    PlacedGrows(deps, |deps|);
    forall m <- deps ensures Doomed(deps, m) <==> m !in Placed(deps, |deps|) {
      NeverPlacedIffDoomed(deps, m);
    }
  }

  /** Rounds finish exactly if no module reaches a cycle or an absent library. */
  lemma {:induction false} CompletesIffNobodyDoomed(deps: Deps)
    ensures (exists n: nat :: Complete(deps, n)) <==> NobodyDoomed(deps)
    ensures NobodyDoomed(deps) <==> Complete(deps, |deps|)
  {
    CompleteAtSize(deps);
    if n: nat :| Complete(deps, n) {
      PlacedGrows(deps, |deps|);
      if n <= |deps| {
        PlacedMonotone(deps, n, |deps|);
      } else {
        Stabilises(deps, n);
      }
    }
  }

  /** Otherwise what is pending stops changing and is exactly the set of the doomed modules. */
  lemma {:induction false} PendingStabilises(deps: Deps, n: nat)
    requires |deps| <= n
    ensures deps.Keys - Placed(deps, n) == set m | m in deps && Doomed(deps, m)
  {
    Stabilises(deps, n);
    forall m <- deps ensures Doomed(deps, m) <==> m !in Placed(deps, |deps|) {
      NeverPlacedIffDoomed(deps, m);
    }
  }

  /** With `frames` frames the recursion returns exactly if every chain is shorter and ends in a module. */
  lemma {:induction false} ReturnsIffChainsFit(deps: Deps, frames: nat)
    requires frames > 0
    ensures (exists n :: 0 <= n < frames && Complete(deps, n)) <==>
            forall m, c :: m in deps && ChainFrom(deps, m, c) ==> Bounded(deps, c, frames - 1)
  {
    PlacedGrows(deps, frames - 1);
    if n :| 0 <= n < frames && Complete(deps, n) {
      PlacedMonotone(deps, n, frames - 1);
      forall m, c | m in deps && ChainFrom(deps, m, c) ensures Bounded(deps, c, frames - 1) {
        ChainsOfPlaced(deps, m, frames - 1, c);
      }
    }
    if forall m, c :: m in deps && ChainFrom(deps, m, c) ==> Bounded(deps, c, frames - 1) {
      forall m <- deps ensures m in Placed(deps, frames - 1) {
        PlacedIffChainsBounded(deps, m, frames - 1);
      }
      assert Complete(deps, frames - 1);
    }
  }

  // ---------------------------------------------------------------- the load list

  ghost function Layers(deps: Deps, keys: seq<Lib>, n: nat): seq<seq<Lib>> {
    seq(n, k requires 0 <= k => Layer(deps, keys, k))
  }

  lemma {:induction false} FlattenOneMore(deps: Deps, keys: seq<Lib>, n: nat)
    ensures Flatten(Layers(deps, keys, n + 1)) == Flatten(Layers(deps, keys, n)) + Layer(deps, keys, n)
  {
    assert Layers(deps, keys, n + 1)[..n] == Layers(deps, keys, n);
  }

  lemma DistinctConcat(a: seq<Lib>, b: seq<Lib>)
    requires Distinct(a) && Distinct(b) && forall m :: m in a ==> m !in b
    ensures Distinct(a + b) && forall m :: m in a + b <==> m in a || m in b
  {
    forall i, j | 0 <= i < j < |a + b| ensures (a + b)[i] != (a + b)[j] {
      if i < |a| <= j {
        assert a[i] in a && b[j - |a|] in b;
      }
    }
  }

  lemma {:induction false} LayersFlatten(deps: Deps, keys: seq<Lib>, n: nat)
    requires ListsKeys(deps, keys)
    ensures forall m :: m in Flatten(Layers(deps, keys, n)) <==> m in Placed(deps, n)
    ensures Distinct(Flatten(Layers(deps, keys, n)))
  {
    if n > 0 {
      LayersFlatten(deps, keys, n - 1);
      PlacedGrows(deps, n - 1);
      var placed, placed' := Placed(deps, n - 1), Placed(deps, n);
      SelectProperties(keys, placed' - placed);
      FlattenOneMore(deps, keys, n - 1);
      DistinctConcat(Flatten(Layers(deps, keys, n - 1)), Layer(deps, keys, n - 1));
    } else {
      assert Layers(deps, keys, 0) == [];
    }
  }

  lemma {:induction false} DistinctCount(s: seq<Lib>, m: Lib)
    requires Distinct(s)
    ensures multiset(s)[m] == if m in s then 1 else 0
  {
    if s != [] {
      var init, last := s[..|s| - 1], s[|s| - 1];
      assert s == init + [last];
      DistinctCount(init, m);
    }
  }

  lemma {:induction false} SameElements(a: seq<Lib>, b: seq<Lib>)
    requires Distinct(a) && Distinct(b) && forall m :: m in a <==> m in b
    ensures multiset(a) == multiset(b)
  {
    forall m ensures multiset(a)[m] == multiset(b)[m] {
      DistinctCount(a, m);
      DistinctCount(b, m);
    }
  }

  /** Everything placed in fewer rounds comes before everything placed in more. */
  lemma {:induction false} FlattenPrefix(deps: Deps, keys: seq<Lib>, k: nat, n: nat)
    requires k <= n
    ensures Flatten(Layers(deps, keys, k)) <= Flatten(Layers(deps, keys, n))
  {
    if k < n {
      FlattenPrefix(deps, keys, k, n - 1);
      FlattenOneMore(deps, keys, n - 1);
    } else {
      assert Layers(deps, keys, k) == Layers(deps, keys, n);
    }
  }

  lemma {:induction false} FirstPlaced(deps: Deps, m: Lib, n: nat) returns (k: nat)
    requires m in Placed(deps, n)
    ensures k < n && m in Placed(deps, k + 1) && m !in Placed(deps, k)
  {
    if m in Placed(deps, n - 1) {
      k := FirstPlaced(deps, m, n - 1);
    } else {
      k := n - 1;
    }
  }

  /** A library belongs to one step only, and each of its dependencies to a strictly earlier one. */
  lemma {:induction false} DependenciesInEarlierSteps(deps: Deps, keys: seq<Lib>, m: Lib, k: nat)
    requires ListsKeys(deps, keys) && m in Layer(deps, keys, k)
    ensures m in deps && forall i: nat :: m in Layer(deps, keys, i) ==> i == k
    ensures forall d <- deps[m] :: exists j: nat :: j < k && d in Layer(deps, keys, j)
  {
    InLayer(deps, keys, m, k);
    forall i: nat | m in Layer(deps, keys, i) ensures i == k {
      InLayer(deps, keys, m, i);
      PlacedMonotone(deps, if i < k then i + 1 else k + 1, if i < k then k else if k < i then i else k + 1);
    }
    forall d <- deps[m] ensures exists j: nat :: j < k && d in Layer(deps, keys, j) {
      var x :| 0 <= x < |deps[m]| && deps[m][x] == d;
      var j := FirstPlaced(deps, d, k);
      InLayer(deps, keys, d, j);
    }
  }

  lemma {:induction false} InLayer(deps: Deps, keys: seq<Lib>, m: Lib, k: nat)
    requires ListsKeys(deps, keys)
    ensures m in Layer(deps, keys, k) <==> m in Placed(deps, k + 1) && m !in Placed(deps, k)
  {
    SelectProperties(keys, Placed(deps, k + 1) - Placed(deps, k));
  }

  /** A dependency of the i-th library is loaded before it. */
  lemma {:induction false} DependencyIsEarlier(deps: Deps, keys: seq<Lib>, n: nat, i: nat, d: Lib) returns (j: nat)
    requires ListsKeys(deps, keys) && i < |Flatten(Layers(deps, keys, n))|
    requires Flatten(Layers(deps, keys, n))[i] in deps && d in deps[Flatten(Layers(deps, keys, n))[i]]
    ensures j < i && Flatten(Layers(deps, keys, n))[j] == d
  {
    var all := Flatten(Layers(deps, keys, n));
    var m := all[i];
    LayersFlatten(deps, keys, n);
    assert m in all;
    var k := FirstPlaced(deps, m, n);
    var x :| 0 <= x < |deps[m]| && deps[m][x] == d;
    LayersFlatten(deps, keys, k);
    FlattenPrefix(deps, keys, k, n);
    var early := Flatten(Layers(deps, keys, k));
    assert d in early && m !in early;
    j :| 0 <= j < |early| && early[j] == d;
    assert all[j] == d;
    assert early == all[..|early|];
  }

  /** The sorted list is a permutation of the modules in which every dependency comes earlier. */
  lemma {:induction false} LoadListIsTopological(deps: Deps, keys: seq<Lib>, n: nat)
    requires ListsKeys(deps, keys) && Complete(deps, n)
    ensures var all := Flatten(Layers(deps, keys, n));
            && Distinct(all) && multiset(all) == multiset(keys)
            && forall i, d :: 0 <= i < |all| && all[i] in deps && d in deps[all[i]] ==> d in all[..i]
  {
    var all := Flatten(Layers(deps, keys, n));
    LayersFlatten(deps, keys, n);
    SameElements(all, keys);
    forall i, d | 0 <= i < |all| && all[i] in deps && d in deps[all[i]] ensures d in all[..i] {
      var j := DependencyIsEarlier(deps, keys, n, i, d);
      assert all[..i][j] == d;
    }
  }

  /** Within a step the modules keep the order of the dictionary. */
  lemma {:induction false} StepsKeepOrder(s: seq<Lib>, keep: set<Lib>) returns (at: seq<nat>)
    ensures forall i, j :: 0 <= i < j < |at| ==> at[i] < at[j]
    ensures forall n: nat :: n in at <==> n < |s| && s[n] in keep
    ensures |Select(s, keep)| == |at| && forall i :: 0 <= i < |at| ==> at[i] < |s| && Select(s, keep)[i] == s[at[i]]
  {
    at := [];
    if s != [] {
      var n := |s| - 1;
      at := StepsKeepOrder(s[..n], keep);
      assert forall i :: 0 <= i < |at| ==> at[i] in at;
      if s[n] in keep {
        at := at + [n];
      }
    }
  }
}
