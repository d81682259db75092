// How far a change spreads: the level-by-level search over reversed
// dependency edges, and that it finds shortest paths whatever the order the
// maps are walked in (service/tangofake/tangofake.go).
module ImpactDistance {
  import opened Wrappers
  import opened TargetGraph

  datatype ChangeType = New | Changed | Deleted

  /** A chain in which each target depends on the one before it. */
  predicate Chain(g: Graph, w: seq<string>) {
    |w| > 0 && forall i :: 0 <= i < |w| - 1 ==> w[i] in DepsOf(g, w[i + 1])
  }

  /** A change to a seed reaches t in n steps. */
  ghost predicate Reaches(g: Graph, seeds: set<string>, t: string, n: nat) {
    exists w: seq<string> :: |w| == n + 1 && Chain(g, w) && w[0] in seeds && w[n] == t
  }

  /** n is the length of the shortest chain from any seed to t. */
  ghost predicate Shortest(g: Graph, seeds: set<string>, t: string, n: nat) {
    Reaches(g, seeds, t, n) && forall k: nat :: k < n ==> !Reaches(g, seeds, t, k)
  }

  /** Exactly the targets a change can reach, each with its shortest distance. */
  ghost predicate AreDistances(g: Graph, seeds: set<string>, distances: map<string, nat>) {
    && (forall t, n: nat :: Reaches(g, seeds, t, n) ==> t in distances)
    && (forall t :: t in distances ==> Shortest(g, seeds, t, distances[t]))
  }

  /** There is only one such map: nothing depends on the order of any walk. */
  lemma DistancesAreUnique(g: Graph, seeds: set<string>, a: map<string, nat>, b: map<string, nat>)
    requires AreDistances(g, seeds, a) && AreDistances(g, seeds, b)
    ensures a == b
  {
    hide Reaches;
    forall t | t in a ensures t in b && a[t] == b[t] {
      assert Reaches(g, seeds, t, a[t]) && Reaches(g, seeds, t, b[t]);
    }
    forall t | t in b ensures t in a {
      assert Reaches(g, seeds, t, b[t]);
    }
  }

  lemma SeedReached(g: Graph, seeds: set<string>, t: string)
    ensures Reaches(g, seeds, t, 0) <==> t in seeds
  {
    if t in seeds {
      assert Chain(g, [t]) && [t][0] == t;
    }
  }

  /** A target is reached in n + 1 steps exactly through one of its dependencies. */
  lemma StepReached(g: Graph, seeds: set<string>, t: string, n: nat)
    ensures Reaches(g, seeds, t, n + 1) <==> exists m :: m in DepsOf(g, t) && Reaches(g, seeds, m, n)
  {
    hide DepsOf;
    if Reaches(g, seeds, t, n + 1) {
      var w :| |w| == n + 2 && Chain(g, w) && w[0] in seeds && w[n + 1] == t;
      var v := w[..n + 1];
      assert Chain(g, v) && w[n] in DepsOf(g, w[n + 1]);
      assert Reaches(g, seeds, v[n], n);
    }
    if m :| m in DepsOf(g, t) && Reaches(g, seeds, m, n) {
      var v :| |v| == n + 1 && Chain(g, v) && v[0] in seeds && v[n] == m;
      var w := v + [t];
      assert Chain(g, w) && w[n + 1] == t;
    }
  }

  /** Which targets depend on each target. */
  ghost predicate AreDependents(g: Graph, dependents: map<string, seq<string>>) {
    forall dep, t :: t in DepsOf(dependents, dep) <==> dep in DepsOf(g, t)
  }

  lemma AddDependent(dependents: map<string, seq<string>>, d: string, t: string)
    ensures var added := dependents[d := DepsOf(dependents, d) + [t]];
      forall dep, u :: u in DepsOf(added, dep) <==> u in DepsOf(dependents, dep) || (dep == d && u == t)
  {
  }

  method BuildDependents(g: Graph) returns (dependents: map<string, seq<string>>)
    ensures AreDependents(g, dependents)
  {
    dependents := map[];
    var todo := g.Keys;
    while todo != {}
      invariant todo <= g.Keys
      invariant forall dep, t :: t in DepsOf(dependents, dep) <==> t !in todo && dep in DepsOf(g, t)
    {
      var t :| t in todo;
      var deps := g[t];
      for j := 0 to |deps|
        invariant forall dep, u :: u in DepsOf(dependents, dep) <==>
          (u !in todo && dep in DepsOf(g, u)) || (u == t && dep in deps[..j])
      {
        assert deps[..j + 1] == deps[..j] + [deps[j]];
        AddDependent(dependents, deps[j], t);
        dependents := dependents[deps[j] := DepsOf(dependents, deps[j]) + [t]];
      }
      assert deps[..|deps|] == deps;
      todo := todo - {t};
    }
  }

  // ---- The search ----

  /** Everything within distance steps is found, with its shortest distance. */
  ghost predicate FoundUpTo(g: Graph, seeds: set<string>, distances: map<string, nat>, distance: nat) {
    && (forall t :: t in distances ==> distances[t] <= distance && Shortest(g, seeds, t, distances[t]))
    && (forall t, n: nat :: n <= distance && Reaches(g, seeds, t, n) ==> t in distances)
  }

  ghost predicate IsLevel(distances: map<string, nat>, frontier: seq<string>, distance: nat) {
    forall t :: t in frontier <==> t in distances && distances[t] == distance
  }

  /** Part of a level is expanded: found holds the earlier levels, next the new targets. */
  ghost predicate Expanding(g: Graph, seeds: set<string>, before: map<string, nat>, distances: map<string, nat>,
                            next: seq<string>, distance: nat) {
    && (forall t :: t in before ==> t in distances && distances[t] == before[t])
    && (forall t :: t in distances && t !in before ==> distances[t] == distance && Reaches(g, seeds, t, distance))
    && (forall t :: t in next <==> t in distances && t !in before)
  }

  lemma ExpandOne(g: Graph, seeds: set<string>, before: map<string, nat>, distances: map<string, nat>,
                  next: seq<string>, distance: nat, m: string, t: string)
    requires distance > 0 && FoundUpTo(g, seeds, before, distance - 1)
    requires Expanding(g, seeds, before, distances, next, distance)
    requires m in before && before[m] == distance - 1 && m in DepsOf(g, t) && t !in distances
    ensures Expanding(g, seeds, before, distances[t := distance], next + [t], distance)
  {
    hide DepsOf;
    assert Reaches(g, seeds, m, distance - 1);
    StepReached(g, seeds, t, distance - 1);
  }

  /** Everything that depends on one of these targets is found. */
  ghost predicate Expanded(g: Graph, targets: seq<string>, distances: map<string, nat>) {
    forall m, t :: m in targets && m in DepsOf(g, t) ==> t in distances
  }

  predicate Covered(ds: seq<string>, j: nat, distances: map<string, nat>) {
    j <= |ds| && forall k :: 0 <= k < j ==> ds[k] in distances
  }

  lemma NothingExpanded(g: Graph, frontier: seq<string>, distances: map<string, nat>)
    ensures Expanded(g, frontier[..0], distances)
  {
  }

  lemma ExpandedGrows(g: Graph, targets: seq<string>, distances: map<string, nat>, t: string, distance: nat)
    requires Expanded(g, targets, distances)
    ensures Expanded(g, targets, distances[t := distance])
  {
  }

  lemma IsDependent(g: Graph, dependents: map<string, seq<string>>, m: string, j: nat)
    requires AreDependents(g, dependents) && j < |DepsOf(dependents, m)|
    ensures m in DepsOf(g, DepsOf(dependents, m)[j])
  {
    assert DepsOf(dependents, m)[j] in DepsOf(dependents, m);
  }

  lemma AllExpanded(g: Graph, dependents: map<string, seq<string>>, frontier: seq<string>, i: nat, distances: map<string, nat>)
    requires AreDependents(g, dependents) && i < |frontier| && Expanded(g, frontier[..i], distances)
    requires Covered(DepsOf(dependents, frontier[i]), |DepsOf(dependents, frontier[i])|, distances)
    ensures Expanded(g, frontier[..i + 1], distances)
  {
    hide DepsOf;
    var ds := DepsOf(dependents, frontier[i]);
    assert frontier[..i + 1] == frontier[..i] + [frontier[i]];
  }

  /** With the whole level expanded, everything one step further is found. */
  lemma LevelDone(g: Graph, seeds: set<string>, before: map<string, nat>, distances: map<string, nat>,
                  frontier: seq<string>, next: seq<string>, distance: nat)
    requires distance > 0 && FoundUpTo(g, seeds, before, distance - 1) && IsLevel(before, frontier, distance - 1)
    requires Expanding(g, seeds, before, distances, next, distance)
    requires Expanded(g, frontier, distances)
    ensures FoundUpTo(g, seeds, distances, distance) && IsLevel(distances, next, distance)
  {
    hide DepsOf, Reaches;
    forall t, n: nat | n <= distance && Reaches(g, seeds, t, n) ensures t in distances {
      if n == distance && t !in before {
        StepReached(g, seeds, t, distance - 1);
        var m :| m in DepsOf(g, t) && Reaches(g, seeds, m, distance - 1);
        assert m in before && Reaches(g, seeds, m, before[m]);
        StepReached(g, seeds, t, before[m]);
        assert m in frontier;
      }
    }
  }

  lemma SeedsFound(g: Graph, seeds: set<string>, distances: map<string, nat>, frontier: seq<string>)
    requires distances.Keys == seeds && forall t :: t in distances ==> distances[t] == 0
    requires forall t :: t in frontier <==> t in distances
    ensures FoundUpTo(g, seeds, distances, 0) && IsLevel(distances, frontier, 0)
    ensures Tall(distances, if |frontier| > 0 then 1 else 0)
  {
    SeedsAreTall(distances, frontier);
    hide Reaches, Tall;
    forall t ensures Reaches(g, seeds, t, 0) <==> t in seeds { SeedReached(g, seeds, t); }
  }

  lemma SeedsAreTall(distances: map<string, nat>, frontier: seq<string>)
    requires forall t :: t in distances ==> distances[t] == 0
    requires forall t :: t in frontier <==> t in distances
    ensures Tall(distances, if |frontier| > 0 then 1 else 0)
  {
    if |frontier| > 0 {
      assert frontier[0] in frontier;
      Subset({frontier[0]}, distances.Keys);
    } else {
      forall t ensures t !in distances { assert t !in frontier; }
    }
  }

  /** There are at least n distances, all of them below n. */
  predicate Tall(distances: map<string, nat>, n: nat) {
    |distances| >= n && forall t :: t in distances ==> distances[t] < n
  }

  lemma BelowTheirNumber(distances: map<string, nat>, n: nat)
    requires Tall(distances, n)
    ensures forall t :: t in distances ==> distances[t] < |distances|
  {
  }

  /** A level that finds something makes the map taller; one that does not leaves it as it was. */
  lemma LevelGrows(g: Graph, seeds: set<string>, before: map<string, nat>, distances: map<string, nat>,
                   next: seq<string>, distance: nat)
    requires Tall(before, distance) && Expanding(g, seeds, before, distances, next, distance)
    ensures Tall(distances, if |next| > 0 then distance + 1 else distance)
    ensures |next| > 0 ==> |distances| > |before|
    ensures |next| == 0 ==> |distances| == |before|
  {
    hide Reaches;
    assert before.Keys <= distances.Keys;
    if |next| > 0 {
      assert next[0] in distances.Keys && next[0] !in before.Keys;
      Smaller(before.Keys, distances.Keys, next[0]);
    } else {
      assert distances.Keys == before.Keys;
    }
  }

  lemma Smaller(a: set<string>, b: set<string>, x: string)
    requires a <= b && x in b && x !in a
    ensures |a| < |b|
  {
    Subset(a, b - {x});
  }

  lemma {:induction false} Subset(a: set<string>, b: set<string>)
    requires a <= b
    ensures |a| <= |b|
  {
    if a != {} {
      var x :| x in a;
      Subset(a - {x}, b - {x});
    }
  }

  /** Only seeds and targets of the graph are ever reached. */
  lemma ReachedAreTargets(g: Graph, seeds: set<string>, distances: map<string, nat>, distance: nat)
    requires FoundUpTo(g, seeds, distances, distance)
    ensures |distances| <= |g.Keys + seeds|
  {
    forall t | t in distances ensures t in g.Keys + seeds {
      var n := distances[t];
      assert Reaches(g, seeds, t, n);
      if n == 0 { SeedReached(g, seeds, t); } else { StepReached(g, seeds, t, n - 1); }
    }
    Subset(distances.Keys, g.Keys + seeds);
  }

  /** An empty level ends the search with everything found. */
  lemma {:induction false} NothingFurther(g: Graph, seeds: set<string>, distances: map<string, nat>,
                                          distance: nat, t: string, n: nat)
    requires FoundUpTo(g, seeds, distances, distance) && IsLevel(distances, [], distance)
    requires Reaches(g, seeds, t, n)
    ensures t in distances
    decreases n
  {
    hide Reaches;
    if n > distance {
      StepReached(g, seeds, t, n - 1);
      var m :| m in DepsOf(g, t) && Reaches(g, seeds, m, n - 1);
      NothingFurther(g, seeds, distances, distance, m, n - 1);
      var k := distances[m];
      assert Reaches(g, seeds, m, k) && k < distance;
      StepReached(g, seeds, t, k);
    }
  }

  lemma SearchDone(g: Graph, seeds: set<string>, distances: map<string, nat>, frontier: seq<string>, distance: nat)
    requires FoundUpTo(g, seeds, distances, distance) && IsLevel(distances, frontier, distance) && |frontier| == 0
    ensures AreDistances(g, seeds, distances)
  {
    hide Reaches;
    assert frontier == [];
    forall t, n: nat | Reaches(g, seeds, t, n) ensures t in distances {
      NothingFurther(g, seeds, distances, distance, t, n);
    }
  }

  lemma ExpandingBegins(g: Graph, seeds: set<string>, before: map<string, nat>, distance: nat)
    ensures Expanding(g, seeds, before, before, [], distance)
  {
  }

  lemma StillFound(g: Graph, seeds: set<string>, before: map<string, nat>, distances: map<string, nat>,
                   next: seq<string>, distance: nat, frontier: seq<string>, i: nat)
    requires distance > 0 && i < |frontier| && IsLevel(before, frontier, distance - 1)
    ensures frontier[i] in before && before[frontier[i]] == distance - 1
  {
    assert frontier[i] in frontier;
  }

  method StartAtSeeds(seeds: set<string>) returns (distances: map<string, nat>, frontier: seq<string>)
    ensures distances.Keys == seeds && forall t :: t in distances ==> distances[t] == 0
    ensures forall t :: t in frontier <==> t in distances
  {
    distances, frontier := map[], [];
    var todo := seeds;
    while todo != {}
      invariant todo <= seeds && distances.Keys == seeds - todo
      invariant forall t :: t in distances ==> distances[t] == 0
      invariant forall t :: t in frontier <==> t in distances
    {
      var t :| t in todo;
      distances := distances[t := 0];
      frontier := frontier + [t];
      todo := todo - {t};
    }
  }

  predicate AreKinds(seedKinds: map<string, ChangeType>, distances: map<string, nat>, kinds: map<string, ChangeType>) {
    && kinds.Keys == distances.Keys && seedKinds.Keys <= distances.Keys
    && forall t :: t in kinds ==> kinds[t] == if t in seedKinds then seedKinds[t] else Changed
  }

  lemma SeedsKeepKinds(seedKinds: map<string, ChangeType>, distances: map<string, nat>)
    requires distances.Keys == seedKinds.Keys
    ensures AreKinds(seedKinds, distances, seedKinds)
  {
  }

  lemma ReachedIsChanged(seedKinds: map<string, ChangeType>, distances: map<string, nat>,
                         kinds: map<string, ChangeType>, t: string, distance: nat)
    requires AreKinds(seedKinds, distances, kinds) && t !in distances
    ensures AreKinds(seedKinds, distances[t := distance], kinds[t := Changed])
  {
  }

  /**
   * Distances of everything the seeds reach, in whatever order seeds and
   * dependents come; all of them are below the number of targets found. A seed
   * keeps its kind, and what only a chain reaches is changed.
   */
  method Spread(g: Graph, seedKinds: map<string, ChangeType>)
    returns (distances: map<string, nat>, kinds: map<string, ChangeType>)
    ensures AreDistances(g, seedKinds.Keys, distances)
    ensures forall t :: t in distances ==> distances[t] < |distances|
    ensures AreKinds(seedKinds, distances, kinds)
  {
    var seeds := seedKinds.Keys;
    kinds := seedKinds;
    hide AreKinds, FoundUpTo, IsLevel, Expanding, AreDistances, AreDependents, Expanded, DepsOf, Tall;
    var frontier;
    distances, frontier := StartAtSeeds(seeds);
    SeedsFound(g, seeds, distances, frontier);
    SeedsKeepKinds(seedKinds, distances);
    var dependents := BuildDependents(g);
    var distance: nat := 1;
    while |frontier| > 0
      invariant distance > 0 && FoundUpTo(g, seeds, distances, distance - 1)
      invariant IsLevel(distances, frontier, distance - 1) && AreKinds(seedKinds, distances, kinds)
      invariant Tall(distances, if |frontier| > 0 then distance else distance - 1)
      decreases |g.Keys + seeds| - |distances|, |frontier|
    {
      var before := distances;
      var next: seq<string> := [];
      ExpandingBegins(g, seeds, before, distance);
      NothingExpanded(g, frontier, distances);
      for i := 0 to |frontier|
        invariant Expanding(g, seeds, before, distances, next, distance) && AreKinds(seedKinds, distances, kinds)
        invariant Expanded(g, frontier[..i], distances)
      {
        var dependentsOf := DepsOf(dependents, frontier[i]);
        for j := 0 to |dependentsOf|
          invariant Expanding(g, seeds, before, distances, next, distance) && AreKinds(seedKinds, distances, kinds)
          invariant Expanded(g, frontier[..i], distances)
          invariant Covered(dependentsOf, j, distances)
        {
          var dependent := dependentsOf[j];
          if dependent !in distances {
            StillFound(g, seeds, before, distances, next, distance, frontier, i);
            IsDependent(g, dependents, frontier[i], j);
            ExpandOne(g, seeds, before, distances, next, distance, frontier[i], dependent);
            ExpandedGrows(g, frontier[..i], distances, dependent, distance);
            ReachedIsChanged(seedKinds, distances, kinds, dependent, distance);
            distances := distances[dependent := distance];
            kinds := kinds[dependent := Changed];
            next := next + [dependent];
          }
        }
        AllExpanded(g, dependents, frontier, i, distances);
      }
      assert frontier[..|frontier|] == frontier;
      LevelDone(g, seeds, before, distances, frontier, next, distance);
      LevelGrows(g, seeds, before, distances, next, distance);
      ReachedAreTargets(g, seeds, distances, distance);
      frontier := next;
      distance := distance + 1;
    }
    SearchDone(g, seeds, distances, frontier, distance - 1);
    BelowTheirNumber(distances, distance - 1);
  }
}
