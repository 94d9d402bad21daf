/** Release waves: each module is released as soon as all its dependencies are. */
module ReleaseWaves {
  import opened Collections
  import opened Names
  import opened ModuleGraph

  datatype Plan = Plan(path: Name, releasable: bool, dependencies: seq<Name>)

  datatype Outcome = Waves(waves: seq<seq<Name>>) | Cyclic

  /** The releasable modules; of two with one path the later counts. */
  function Releasable(plans: seq<Plan>): Graph {
    if plans == [] then map[]
    else
      var last := plans[|plans| - 1];
      var before := Releasable(plans[..|plans| - 1]);
      if last.releasable then before[last.path := last.dependencies] else before
  }

  /** A module is released if some plan for it says so, with the dependencies of the last such plan. */
  lemma {:induction false} ReleasableIs(plans: seq<Plan>, x: Name)
    ensures x in Releasable(plans) <==> exists p :: p in plans && p.releasable && p.path == x
    ensures forall i :: && 0 <= i < |plans| && plans[i].releasable && plans[i].path == x
                        && (forall j :: i < j < |plans| && plans[j].releasable ==> plans[j].path != x) ==>
                        x in Releasable(plans) && Releasable(plans)[x] == plans[i].dependencies
  {
    if plans != [] {
      var front := plans[..|plans| - 1];
      ReleasableIs(front, x);
      assert forall p :: p in plans <==> p in front || p == plans[|plans| - 1];
      assert forall i :: 0 <= i < |front| ==> front[i] == plans[i];
    }
  }

  ghost function Released(waves: seq<seq<Name>>): set<Name> {
    set w, x | w in waves && x in w :: x
  }

  ghost predicate IsNext(g: Graph, released: set<Name>, x: Name) {
    x in g && x !in released && forall y :: Depends(g, x, y) ==> y in released
  }

  /** Wave `k` lists, sorted and without repetition, exactly the modules that the waves before it allow. */
  ghost predicate WaveRight(g: Graph, waves: seq<seq<Name>>, k: nat)
    requires k < |waves|
  {
    && waves[k] != [] && Sorted(waves[k]) && Distinct(waves[k])
    && forall x :: x in waves[k] <==> IsNext(g, Released(waves[..k]), x)
  }

  ghost predicate AreWaves(g: Graph, waves: seq<seq<Name>>) {
    forall k {:trigger WaveRight(g, waves, k)} :: 0 <= k < |waves| ==> WaveRight(g, waves, k)
  }

  lemma ReleasedGrows(waves: seq<seq<Name>>, wave: seq<Name>)
    ensures Released(waves + [wave]) == Released(waves) + Elements(wave)
  {
    forall x
      ensures x in Released(waves + [wave]) <==> x in Released(waves) + Elements(wave)
    {
      if x in Released(waves) {
        var w :| w in waves && x in w;
        assert w in waves + [wave];
      }
      if x in wave {
        assert wave in waves + [wave];
      }
    }
  }

  lemma ExtendWaves(g: Graph, waves: seq<seq<Name>>, wave: seq<Name>)
    requires AreWaves(g, waves) && wave != [] && Sorted(wave) && Distinct(wave)
    requires forall x :: x in wave <==> IsNext(g, Released(waves), x)
    ensures AreWaves(g, waves + [wave])
  {
    var longer := waves + [wave];
    forall k | 0 <= k < |longer|
      ensures WaveRight(g, longer, k)
    {
      if k < |waves| {
        assert WaveRight(g, waves, k) && longer[..k] == waves[..k];
      } else {
        assert longer[..k] == waves;
      }
    }
  }

  // ---------------------------------------------------------------- what the waves mean

  lemma InWave(waves: seq<seq<Name>>, k: nat, x: Name)
    requires k <= |waves| && x in Released(waves[..k])
    ensures exists j :: 0 <= j < k && x in waves[j]
  {
    var w :| w in waves[..k] && x in w;
    var j :| 0 <= j < k && waves[..k][j] == w;
    assert waves[j] == w;
  }

  lemma ReleasedIn(waves: seq<seq<Name>>, k: nat, j: nat, x: Name)
    requires j < k <= |waves| && x in waves[j]
    ensures x in Released(waves[..k])
  {
    assert waves[..k][j] == waves[j];
  }

  /** No module is in two waves. */
  lemma OneWaveEach(g: Graph, waves: seq<seq<Name>>, j: nat, k: nat, x: Name)
    requires AreWaves(g, waves) && j < |waves| && k < |waves| && x in waves[j] && x in waves[k]
    ensures j == k
  {
    assert WaveRight(g, waves, j) && WaveRight(g, waves, k);
    if j < k {
      ReleasedIn(waves, k, j, x);
    } else if k < j {
      ReleasedIn(waves, j, k, x);
    }
  }

  /** A module past the first wave has a dependency in the wave just before its own. */
  lemma NeededLastWave(g: Graph, waves: seq<seq<Name>>, k: nat, x: Name)
    requires AreWaves(g, waves) && 0 < k < |waves| && x in waves[k]
    ensures exists y :: y in waves[k - 1] && Depends(g, x, y)
  {
    assert WaveRight(g, waves, k) && WaveRight(g, waves, k - 1);
    assert waves[..k] == waves[..k - 1] + [waves[k - 1]];
    ReleasedGrows(waves[..k - 1], waves[k - 1]);
    var y :| Depends(g, x, y) && y !in Released(waves[..k - 1]);
  }

  /** A schedule numbers the modules so that each comes strictly after its dependencies. */
  ghost predicate IsSchedule(g: Graph, schedule: map<Name, nat>) {
    && schedule.Keys == g.Keys
    && forall x, y :: Depends(g, x, y) ==> schedule[y] < schedule[x]
  }

  /** No schedule releases a module in an earlier wave than the computed one. */
  lemma {:induction false} WavesAreEarliest(g: Graph, waves: seq<seq<Name>>, schedule: map<Name, nat>, k: nat, x: Name)
    requires AreWaves(g, waves) && IsSchedule(g, schedule) && k < |waves| && x in waves[k]
    ensures x in g && k <= schedule[x]
  {
    assert WaveRight(g, waves, k);
    if k > 0 {
      NeededLastWave(g, waves, k, x);
      var y :| y in waves[k - 1] && Depends(g, x, y);
      WavesAreEarliest(g, waves, schedule, k - 1, y);
    }
  }

  /** The numbers of the waves are themselves a schedule, so a complete list of waves rules out a cycle. */
  lemma WavesRespectDependencies(g: Graph, waves: seq<seq<Name>>, k: nat, x: Name, y: Name)
    requires AreWaves(g, waves) && k < |waves| && x in waves[k] && Depends(g, x, y)
    ensures exists j :: 0 <= j < k && y in waves[j]
  {
    assert WaveRight(g, waves, k);
    InWave(waves, k, y);
  }

  ghost function Flatten(waves: seq<seq<Name>>): seq<Name> {
    if waves == [] then [] else Flatten(waves[..|waves| - 1]) + waves[|waves| - 1]
  }

  lemma {:induction false} FlattenIsReleased(waves: seq<seq<Name>>)
    ensures Elements(Flatten(waves)) == Released(waves)
  {
    if waves != [] {
      var front, last := waves[..|waves| - 1], waves[|waves| - 1];
      FlattenIsReleased(front);
      assert waves == front + [last];
      ReleasedGrows(front, last);
      assert Elements(Flatten(front) + last) == Elements(Flatten(front)) + Elements(last);
    }
  }

  lemma {:induction false} FlattenIsOrder(g: Graph, waves: seq<seq<Name>>)
    requires AreWaves(g, waves)
    ensures IsOrder(g, Flatten(waves))
  {
    if waves != [] {
      var n := |waves| - 1;
      var front, last := waves[..n], waves[n];
      assert forall k :: 0 <= k < n ==> front[..k] == waves[..k];
      forall k | 0 <= k < n
        ensures WaveRight(g, front, k)
      {
        assert WaveRight(g, waves, k) && front[..k] == waves[..k];
      }
      FlattenIsOrder(g, front);
      FlattenIsReleased(front);
      assert WaveRight(g, waves, n);
      OrderPlusWave(g, Flatten(front), last);
    }
  }

  lemma OrderPlusWave(g: Graph, order: seq<Name>, wave: seq<Name>)
    requires IsOrder(g, order) && Distinct(wave)
    requires forall x :: x in wave ==> IsNext(g, Elements(order), x)
    ensures IsOrder(g, order + wave)
  {
    var longer := order + wave;
    forall i, j | 0 <= i < j < |longer|
      ensures longer[i] != longer[j]
    {
      if j >= |order| {
        assert longer[j] in wave && IsNext(g, Elements(order), longer[j]);
      }
    }
    forall i, y | 0 <= i < |longer| && Depends(g, longer[i], y)
      ensures y in longer[..i]
    {
      if i < |order| {
        assert longer[..i] == order[..i];
      } else {
        assert longer[i] in wave && y in order;
        var k :| 0 <= k < |order| && order[k] == y;
        assert longer[..i][k] == y;
      }
    }
  }

  // ---------------------------------------------------------------- the computation

  /** Whether every dependency of a pending module has been released. */
  method Ready(remaining: Graph, dependencies: seq<Name>) returns (ready: bool)
    ensures ready <==> forall y :: y in dependencies ==> y !in remaining
  {
    for i := 0 to |dependencies|
      invariant forall k :: 0 <= k < i ==> dependencies[k] !in remaining
    {
      if dependencies[i] in remaining {
        return false;
      }
    }
    return true;
  }

  method NextWave(remaining: Graph) returns (wave: seq<Name>)
    ensures Sorted(wave) && Distinct(wave)
    ensures forall x :: x in wave <==> x in remaining && forall y :: y in remaining[x] ==> y !in remaining
  {
    var left := remaining.Keys;
    var found: seq<Name> := [];
    while left != {}
      invariant left <= remaining.Keys && Distinct(found)
      invariant forall x :: x in found <==>
                  && x in remaining && x !in left
                  && forall y :: y in remaining[x] ==> y !in remaining
      decreases left
    {
      var path :| path in left;
      left := left - {path};
      var ready := Ready(remaining, remaining[path]);
      if ready {
        found := found + [path];
      }
    }
    wave := Sort(found);
    SameDistinct(found, wave);
  }

  lemma SameDistinct(a: seq<Name>, b: seq<Name>)
    requires multiset(a) == multiset(b) && Distinct(a)
    ensures Distinct(b) && forall x :: x in b <==> x in a
  {
    forall x
      ensures x in b <==> x in a
      ensures multiset(a)[x] <= 1
    {
      assert x in b <==> x in multiset(b);
      DistinctCounts(a, x);
    }
    forall i, j | 0 <= i < j < |b|
      ensures b[i] != b[j]
    {
      assert b == b[..j] + [b[j]] + b[j + 1..];
      assert multiset(b) == multiset(b[..j]) + multiset{b[j]} + multiset(b[j + 1..]);
      DistinctCounts(a, b[j]);
      assert b[..j][i] == b[i] && b[i] in multiset(b[..j]);
    }
  }

  lemma {:induction false} DistinctCounts(a: seq<Name>, x: Name)
    requires Distinct(a)
    ensures multiset(a)[x] <= 1
  {
    if a != [] {
      var front := a[..|a| - 1];
      assert a == front + [a[|a| - 1]];
      DistinctCounts(front, x);
      assert x in front <==> x in multiset(front);
    }
  }

  /** The waves of the releasable modules; refused if and only if these depend on each other in a cycle. */
  method StandaloneReleaseWaves(plans: seq<Plan>) returns (r: Outcome)
    ensures r.Cyclic? <==> HasCycle(Releasable(plans))
    ensures r.Waves? ==> AreWaves(Releasable(plans), r.waves) && Released(r.waves) == Releasable(plans).Keys
  {
    var g: Graph := map[];
    for i := 0 to |plans|
      invariant g == Releasable(plans[..i])
    {
      assert plans[..i + 1][..i] == plans[..i];
      if plans[i].releasable {
        g := g[plans[i].path := plans[i].dependencies];
      }
    }
    assert plans[..|plans|] == plans;
    r := WavesOf(g);
  }

  /** What is left after the waves so far. */
  ghost predicate Along(g: Graph, waves: seq<seq<Name>>, remaining: Graph) {
    AreWaves(g, waves) && Released(waves) <= g.Keys && remaining == g - Released(waves)
  }

  ghost predicate IsWaveOf(remaining: Graph, wave: seq<Name>) {
    && Sorted(wave) && Distinct(wave)
    && forall x :: x in wave <==> x in remaining && forall y :: y in remaining[x] ==> y !in remaining
  }

  method WavesOf(g: Graph) returns (r: Outcome)
    ensures r.Cyclic? <==> HasCycle(g)
    ensures r.Waves? ==> AreWaves(g, r.waves) && Released(r.waves) == g.Keys
  {
    var remaining := g;
    var waves: seq<seq<Name>> := [];
    NothingReleased(g, waves);
    while remaining != map[]
      invariant Along(g, waves, remaining)
      decreases remaining.Keys
    {
      var wave := NextWave(remaining);
      if wave == [] {
        Stuck(g, waves, remaining, wave);
        return Cyclic;
      }
      TakeWave(g, waves, wave, remaining);
      waves := waves + [wave];
      remaining := remaining - (set x | x in wave);
    }
    AllReleased(g, waves, remaining);
    return Waves(waves);
  }

  lemma NothingReleased(g: Graph, waves: seq<seq<Name>>)
    requires waves == []
    ensures Along(g, waves, g)
  {
    assert Released(waves) == {};
  }

  lemma Stuck(g: Graph, waves: seq<seq<Name>>, remaining: Graph, wave: seq<Name>)
    requires Along(g, waves, remaining) && remaining != map[] && IsWaveOf(remaining, wave) && wave == []
    ensures HasCycle(g)
  {
    NextIsAllowed(g, waves, remaining, wave);
    var x :| x in remaining;
    assert x in g.Keys && x !in Released(waves);
    NothingAllowed(g, Released(waves));
  }

  lemma TakeWave(g: Graph, waves: seq<seq<Name>>, wave: seq<Name>, remaining: Graph)
    requires Along(g, waves, remaining) && IsWaveOf(remaining, wave) && wave != []
    ensures var after := remaining - (set x | x in wave);
            Along(g, waves + [wave], after) && after.Keys < remaining.Keys
  {
    NextIsAllowed(g, waves, remaining, wave);
    ExtendWaves(g, waves, wave);
    ReleasedGrows(waves, wave);
    assert wave[0] in wave;
    Without(g, Released(waves), Elements(wave), remaining, wave[0]);
  }

  lemma Without(g: Graph, a: set<Name>, b: set<Name>, remaining: Graph, x: Name)
    requires remaining == g - a && x in b && x in remaining
    ensures remaining - b == g - (a + b) && (remaining - b).Keys < remaining.Keys
  {
    assert x !in (remaining - b).Keys && (remaining - b).Keys <= remaining.Keys;
  }

  lemma AllReleased(g: Graph, waves: seq<seq<Name>>, remaining: Graph)
    requires Along(g, waves, remaining) && remaining == map[]
    ensures Released(waves) == g.Keys && !HasCycle(g)
  {
    forall x | x in g
      ensures x in Released(waves)
    {
      assert x !in remaining;
    }
    FlattenIsOrder(g, waves);
    FlattenIsReleased(waves);
    OrderMeansAcyclic(g, Flatten(waves));
  }

  lemma NextIsAllowed(g: Graph, waves: seq<seq<Name>>, remaining: Graph, wave: seq<Name>)
    requires remaining == g - Released(waves)
    requires forall x :: x in wave <==> x in remaining && forall y :: y in remaining[x] ==> y !in remaining
    ensures forall x :: x in wave <==> IsNext(g, Released(waves), x)
  {
    forall x
      ensures x in wave <==> IsNext(g, Released(waves), x)
    {
      if x in remaining {
        assert forall y :: Depends(g, x, y) ==> y in remaining[x];
      }
    }
  }

  lemma NothingAllowed(g: Graph, released: set<Name>)
    requires released < g.Keys && forall x :: !IsNext(g, released, x)
    ensures HasCycle(g)
  {
    var left := g.Keys - released;
    forall x | x in left
      ensures CanFollow(g, left, x)
    {
      assert !IsNext(g, released, x);
    }
    var x :| x in g.Keys && x !in released;
    assert x in left;
    StuckMeansCycle(g, left);
  }
}
