/**
 * The order in which selected modules are handled: dependencies first, and
 * among the modules that are ready always the least directory name.
 */
module DependencyOrder {
  import opened Collections
  import opened Names
  import opened ModuleGraph

  datatype Module = Module(path: Name, directory: Name, dependencies: seq<Name>)

  /** One dependency between selected directories. */
  datatype Arrow = Arrow(from: Name, to: Name)

  /** The catalogue by path; of two modules with one path the later counts. */
  function ByPath(modules: seq<Module>): map<Name, Module> {
    if modules == [] then map[]
    else
      var last := modules[|modules| - 1];
      ByPath(modules[..|modules| - 1])[last.path := last]
  }

  /** Some module in directory `x` names a path that the catalogue puts in directory `y`. */
  ghost predicate Needs(modules: seq<Module>, x: Name, y: Name) {
    exists m, p :: m in modules && m.directory == x && p in m.dependencies
      && p in ByPath(modules) && ByPath(modules)[p].directory == y
  }

  function OwnArrows(byPath: map<Name, Module>, selected: set<Name>, from: Name, paths: seq<Name>): seq<Arrow> {
    if paths == [] then []
    else
      var last := paths[|paths| - 1];
      OwnArrows(byPath, selected, from, paths[..|paths| - 1])
      + if last in byPath && byPath[last].directory in selected then [Arrow(from, byPath[last].directory)] else []
  }

  function Arrows(byPath: map<Name, Module>, selected: set<Name>, modules: seq<Module>): seq<Arrow> {
    if modules == [] then []
    else
      var last := modules[|modules| - 1];
      Arrows(byPath, selected, modules[..|modules| - 1])
      + if last.directory in selected then OwnArrows(byPath, selected, last.directory, last.dependencies) else []
  }

  lemma {:induction false} OwnArrowsAre(byPath: map<Name, Module>, selected: set<Name>, from: Name, paths: seq<Name>,
                                        a: Arrow)
    ensures a in OwnArrows(byPath, selected, from, paths)
      <==> a.from == from && a.to in selected && exists p :: p in paths && p in byPath && byPath[p].directory == a.to
  {
    if paths != [] {
      var front := paths[..|paths| - 1];
      OwnArrowsAre(byPath, selected, from, front, a);
      assert paths == front + [paths[|paths| - 1]];
    }
  }

  ghost predicate Contributes(byPath: map<Name, Module>, selected: set<Name>, m: Module, a: Arrow) {
    && m.directory in selected
    && a in OwnArrows(byPath, selected, m.directory, m.dependencies)
  }

  lemma {:induction false} ArrowsAre(byPath: map<Name, Module>, selected: set<Name>, modules: seq<Module>, a: Arrow)
    ensures a in Arrows(byPath, selected, modules)
      <==> exists m :: m in modules && Contributes(byPath, selected, m, a)
  {
    if modules != [] {
      var front, last := modules[..|modules| - 1], modules[|modules| - 1];
      ArrowsAre(byPath, selected, front, a);
      assert modules == front + [last];
      assert a in Arrows(byPath, selected, modules)
        <==> a in Arrows(byPath, selected, front) || Contributes(byPath, selected, last, a);
    }
  }

  lemma ArrowsAreNeeds(modules: seq<Module>, selected: set<Name>, a: Arrow)
    ensures a in Arrows(ByPath(modules), selected, modules)
      <==> a.from in selected && a.to in selected && Needs(modules, a.from, a.to)
  {
    var byPath := ByPath(modules);
    ArrowsAre(byPath, selected, modules, a);
    forall m | m in modules
      ensures Contributes(byPath, selected, m, a) <==>
          && m.directory in selected && a.from == m.directory && a.to in selected
          && exists p :: p in m.dependencies && p in byPath && byPath[p].directory == a.to
    {
      OwnArrowsAre(byPath, selected, m.directory, m.dependencies, a);
    }
  }

  function Targets(arrows: seq<Arrow>, x: Name): seq<Name> {
    if arrows == [] then []
    else
      var last := arrows[|arrows| - 1];
      Targets(arrows[..|arrows| - 1], x) + if last.from == x then [last.to] else []
  }

  lemma {:induction false} TargetsAre(arrows: seq<Arrow>, x: Name, y: Name)
    ensures y in Targets(arrows, x) <==> Arrow(x, y) in arrows
  {
    if arrows != [] {
      var front := arrows[..|arrows| - 1];
      TargetsAre(arrows[..|arrows| - 1], x, y);
      assert arrows == front + [arrows[|arrows| - 1]];
    }
  }

  /** The selected part of the dependency graph, on directories. */
  ghost function SelectedGraph(modules: seq<Module>, selected: set<Name>): Graph {
    map x | x in selected :: Targets(Arrows(ByPath(modules), selected, modules), x)
  }

  lemma SelectedGraphIsNeeds(modules: seq<Module>, selected: set<Name>)
    ensures SelectedGraph(modules, selected).Keys == selected
    ensures forall x, y ::
              Depends(SelectedGraph(modules, selected), x, y)
              <==> x in selected && y in selected && Needs(modules, x, y)
  {
    var g := SelectedGraph(modules, selected);
    forall x, y
      ensures Depends(g, x, y) <==> x in selected && y in selected && Needs(modules, x, y)
    {
      TargetsAre(Arrows(ByPath(modules), selected, modules), x, y);
      ArrowsAreNeeds(modules, selected, Arrow(x, y));
    }
  }

  // ---------------------------------------------------------------- the greedy order

  ghost predicate IsReady(g: Graph, done: seq<Name>, x: Name) {
    x in g && x !in done && forall y :: Depends(g, x, y) ==> y in done
  }

  /** `order[i]` is the least of the modules whose dependencies all come before place `i`. */
  ghost predicate PicksLeast(g: Graph, order: seq<Name>, i: nat)
    requires i < |order|
  {
    && IsReady(g, order[..i], order[i])
    && forall x :: IsReady(g, order[..i], x) ==> !Less(x, order[i])
  }

  ghost predicate IsGreedy(g: Graph, order: seq<Name>) {
    forall i {:trigger PicksLeast(g, order, i)} :: 0 <= i < |order| ==> PicksLeast(g, order, i)
  }

  ghost predicate IsExhausted(g: Graph, order: seq<Name>) {
    forall x :: !IsReady(g, order, x)
  }

  lemma GreedyIsOrder(g: Graph, order: seq<Name>)
    requires IsGreedy(g, order)
    ensures IsOrder(g, order) && forall x :: x in order ==> x in g
  {
    forall i, j | 0 <= i < j < |order|
      ensures order[i] != order[j]
    {
      assert PicksLeast(g, order, j);
      assert order[..j][i] == order[i];
    }
    forall i, y | 0 <= i < |order| && Depends(g, order[i], y)
      ensures y in order[..i]
    {
      assert PicksLeast(g, order, i);
    }
    forall x | x in order
      ensures x in g
    {
      var i :| 0 <= i < |order| && order[i] == x;
      assert PicksLeast(g, order, i);
    }
  }

  lemma SameElements(g: Graph, order: seq<Name>)
    requires (forall x :: x in order ==> x in g) && g.Keys - Elements(order) == {}
    ensures Elements(order) == g.Keys
  {
    forall x | x in g.Keys
      ensures x in Elements(order)
    {
      assert x !in g.Keys - Elements(order);
    }
    forall x | x in Elements(order)
      ensures x in g.Keys
    {
      assert x in order;
    }
  }

  /** An exhausted order lists the whole graph if and only if the graph has no cycle. */
  lemma CompleteIffAcyclic(g: Graph, order: seq<Name>)
    requires IsGreedy(g, order) && IsExhausted(g, order)
    ensures |order| == |g.Keys| <==> !HasCycle(g)
    ensures Elements(order) == g.Keys <==> !HasCycle(g)
  {
    GreedyIsOrder(g, order);
    DistinctHasSize(order);
    var left := g.Keys - Elements(order);
    if left == {} {
      SameElements(g, order);
      OrderMeansAcyclic(g, order);
    } else {
      forall x | x in left
        ensures CanFollow(g, left, x)
      {
        assert !IsReady(g, order, x);
      }
      StuckMeansCycle(g, left);
      Shrinks(Elements(order), g.Keys);
    }
  }

  lemma {:induction false} DistinctHasSize(names: seq<Name>)
    requires Distinct(names)
    ensures |Elements(names)| == |names|
  {
    if names != [] {
      var front, last := names[..|names| - 1], names[|names| - 1];
      assert names == front + [last];
      DistinctHasSize(front);
      assert Elements(names) == Elements(front) + {last};
    }
  }

  lemma {:induction false} GreedyAgrees(g: Graph, h: Graph, a: seq<Name>, b: seq<Name>, n: nat)
    requires g.Keys == h.Keys && forall x, y :: Depends(g, x, y) <==> Depends(h, x, y)
    requires IsGreedy(g, a) && IsGreedy(h, b) && n <= |a| && n <= |b|
    ensures a[..n] == b[..n]
  {
    if n > 0 {
      GreedyAgrees(g, h, a, b, n - 1);
      assert PicksLeast(g, a, n - 1) && PicksLeast(h, b, n - 1);
      assert IsReady(h, b[..n - 1], a[n - 1]) && IsReady(g, a[..n - 1], b[n - 1]);
      LessIsTotal(a[n - 1], b[n - 1]);
      assert a[..n] == a[..n - 1] + [a[n - 1]] && b[..n] == b[..n - 1] + [b[n - 1]];
    }
  }

  /** There is only one exhausted greedy order, whatever list the graph was built from. */
  lemma GreedyIsUnique(g: Graph, h: Graph, a: seq<Name>, b: seq<Name>)
    requires g.Keys == h.Keys && forall x, y :: Depends(g, x, y) <==> Depends(h, x, y)
    requires IsGreedy(g, a) && IsExhausted(g, a)
    requires IsGreedy(h, b) && IsExhausted(h, b)
    ensures a == b
  {
    var n := if |a| < |b| then |a| else |b|;
    GreedyAgrees(g, h, a, b, n);
    if n < |b| {
      assert PicksLeast(h, b, n) && a == b[..n];
      assert IsReady(g, a, b[n]);
    }
    if n < |a| {
      assert PicksLeast(g, a, n) && b == a[..n];
      assert IsReady(h, b, a[n]);
    }
    assert a == a[..n] && b == b[..n];
  }
}
