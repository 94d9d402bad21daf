/** Dependency graphs of modules: walks, cycles and why a set nobody can leave holds a cycle. */
module ModuleGraph {
  import opened Collections
  import opened Names

  /** Each module's dependencies; names that are not modules are ignored, as the tool does. */
  type Graph = map<Name, seq<Name>>

  predicate Depends(g: Graph, x: Name, y: Name) {
    x in g && y in g && y in g[x]
  }

  ghost predicate Edge(g: Graph, walk: seq<Name>, i: nat)
    requires i + 1 < |walk|
  {
    Depends(g, walk[i], walk[i + 1])
  }

  ghost predicate IsWalk(g: Graph, walk: seq<Name>) {
    && (forall i :: 0 <= i < |walk| ==> walk[i] in g)
    && (forall i {:trigger Edge(g, walk, i)} :: 0 <= i < |walk| - 1 ==> Edge(g, walk, i))
  }

  ghost predicate IsClosedWalk(g: Graph, walk: seq<Name>) {
    2 <= |walk| && IsWalk(g, walk) && walk[0] == walk[|walk| - 1]
  }

  ghost predicate HasCycle(g: Graph) {
    exists walk :: IsClosedWalk(g, walk)
  }

  /** Every module of `order` comes after all its dependencies. */
  ghost predicate IsOrder(g: Graph, order: seq<Name>) {
    && Distinct(order)
    && (forall i, y :: 0 <= i < |order| && Depends(g, order[i], y) ==> y in order[..i])
  }

  lemma SubWalk(g: Graph, walk: seq<Name>, k: nat)
    requires IsWalk(g, walk) && k <= |walk|
    ensures IsWalk(g, walk[k..])
  {
    var rest := walk[k..];
    assert forall i :: 0 <= i < |rest| ==> rest[i] == walk[k + i];
    forall i | 0 <= i < |rest| - 1
      ensures Edge(g, rest, i)
    {
      assert Edge(g, walk, k + i);
    }
  }

  lemma ExtendWalk(g: Graph, walk: seq<Name>, y: Name)
    requires IsWalk(g, walk) && walk != [] && Depends(g, walk[|walk| - 1], y)
    ensures IsWalk(g, walk + [y])
  {
    forall i | 0 <= i < |walk|
      ensures Edge(g, walk + [y], i)
    {
      assert i < |walk| - 1 ==> Edge(g, walk, i);
    }
  }

  lemma {:induction false} WalkDescends(g: Graph, order: seq<Name>, walk: seq<Name>, i: nat)
    requires IsOrder(g, order) && IsWalk(g, walk) && walk != [] && i < |order| && walk[0] == order[i]
    ensures exists j :: 0 <= j <= i && walk[|walk| - 1] == order[j] && (|walk| > 1 ==> j < i)
    decreases |walk|
  {
    if |walk| > 1 {
      assert Edge(g, walk, 0);
      var k :| 0 <= k < i && order[..i][k] == walk[1];
      SubWalk(g, walk, 1);
      WalkDescends(g, order, walk[1..], k);
    }
  }

  /** A graph that can be listed dependencies first has no cycle. */
  lemma OrderMeansAcyclic(g: Graph, order: seq<Name>)
    requires IsOrder(g, order) && forall x :: x in g ==> x in order
    ensures !HasCycle(g)
  {
    forall walk
      ensures !IsClosedWalk(g, walk)
    {
      if IsClosedWalk(g, walk) {
        var i :| 0 <= i < |order| && order[i] == walk[0];
        WalkDescends(g, order, walk, i);
      }
    }
  }

  ghost predicate CanFollow(g: Graph, s: set<Name>, x: Name) {
    exists y :: y in s && Depends(g, x, y)
  }

  ghost predicate Stuck(g: Graph, s: set<Name>) {
    forall x {:trigger CanFollow(g, s, x)} :: x in s ==> x in g && CanFollow(g, s, x)
  }

  /** Following dependencies inside a finite set that offers one from everywhere must come back. */
  lemma {:induction false} FollowUntilRepeat(g: Graph, s: set<Name>, path: seq<Name>)
    requires Stuck(g, s) && path != [] && IsWalk(g, path) && forall x :: x in path ==> x in s
    ensures HasCycle(g)
    decreases |s - Elements(path)|
  {
    var last := path[|path| - 1];
    assert last in path && CanFollow(g, s, last);
    var y :| y in s && Depends(g, last, y);
    ExtendWalk(g, path, y);
    if y in path {
      var k :| 0 <= k < |path| && path[k] == y;
      SubWalk(g, path + [y], k);
      assert IsClosedWalk(g, (path + [y])[k..]);
    } else {
      assert Elements(path + [y]) == Elements(path) + {y};
      Shrinks(s - Elements(path + [y]), s - Elements(path));
      FollowUntilRepeat(g, s, path + [y]);
    }
  }

  ghost function Elements(names: seq<Name>): set<Name> {
    set x | x in names
  }

  lemma {:induction false} Shrinks(a: set<Name>, b: set<Name>)
    requires a < b
    ensures |a| < |b|
    decreases b
  {
    var x :| x in b && x !in a;
    if a != {} {
      var y :| y in a;
      assert x in b - {y} && x !in a - {y};
      Shrinks(a - {y}, b - {y});
    }
  }

  lemma StuckMeansCycle(g: Graph, s: set<Name>)
    requires Stuck(g, s) && s != {}
    ensures HasCycle(g)
  {
    var x :| x in s;
    assert CanFollow(g, s, x);
    FollowUntilRepeat(g, s, [x]);
  }
}
