/** Counting down open dependencies computes the greedy order. */
module DependencyOrdering {
  import opened Collections
  import opened Names
  import opened ModuleGraph
  import opened DependencyOrder

  function CountOf(counts: map<Name, int>, x: Name): int {
    if x in counts then counts[x] else 0
  }

  function ListOf(lists: map<Name, seq<Name>>, x: Name): seq<Name> {
    if x in lists then lists[x] else []
  }

  /** How many of the dependencies of `x` are not done. */
  ghost function Open(arrows: seq<Arrow>, x: Name, done: set<Name>): nat {
    if arrows == [] then 0
    else
      var last := arrows[|arrows| - 1];
      Open(arrows[..|arrows| - 1], x, done) + if last.from == x && last.to !in done then 1 else 0
  }

  /** Who waits for `x`, once for each of its dependencies on it. */
  ghost function Waiting(arrows: seq<Arrow>, x: Name): seq<Name> {
    if arrows == [] then []
    else
      var last := arrows[|arrows| - 1];
      Waiting(arrows[..|arrows| - 1], x) + if last.to == x then [last.from] else []
  }

  ghost predicate RecordedFor(arrows: seq<Arrow>, pending: map<Name, int>, dependants: map<Name, seq<Name>>, x: Name) {
    && CountOf(pending, x) == Open(arrows, x, {})
    && ListOf(dependants, x) == Waiting(arrows, x)
  }

  ghost predicate Recorded(arrows: seq<Arrow>, pending: map<Name, int>, dependants: map<Name, seq<Name>>) {
    forall x {:trigger RecordedFor(arrows, pending, dependants, x)} :: RecordedFor(arrows, pending, dependants, x)
  }

  lemma RecordOne(arrows: seq<Arrow>, a: Arrow, pending: map<Name, int>, dependants: map<Name, seq<Name>>)
    requires Recorded(arrows, pending, dependants)
    ensures Recorded(arrows + [a], pending[a.from := CountOf(pending, a.from) + 1],
                     dependants[a.to := ListOf(dependants, a.to) + [a.from]])
  {
    var pending' := pending[a.from := CountOf(pending, a.from) + 1];
    var dependants' := dependants[a.to := ListOf(dependants, a.to) + [a.from]];
    assert (arrows + [a])[..|arrows|] == arrows;
    forall x
      ensures RecordedFor(arrows + [a], pending', dependants', x)
    {
      assert RecordedFor(arrows, pending, dependants, x);
      assert Open(arrows + [a], x, {}) == Open(arrows, x, {}) + if a.from == x then 1 else 0;
      assert Waiting(arrows + [a], x) == Waiting(arrows, x) + if a.to == x then [a.from] else [];
    }
  }

  /** Indexes the catalogue and records every dependency between selected directories. */
  method Record(modules: seq<Module>, selected: set<Name>)
    returns (pending: map<Name, int>, dependants: map<Name, seq<Name>>)
    ensures Recorded(Arrows(ByPath(modules), selected, modules), pending, dependants)
  {
    var byPath: map<Name, Module> := map[];
    for i := 0 to |modules|
      invariant byPath == ByPath(modules[..i])
    {
      assert modules[..i + 1][..i] == modules[..i];
      byPath := byPath[modules[i].path := modules[i]];
    }
    assert modules[..|modules|] == modules;

    pending, dependants := map[], map[];
    for i := 0 to |modules|
      invariant Recorded(Arrows(byPath, selected, modules[..i]), pending, dependants)
    {
      assert modules[..i + 1][..i] == modules[..i];
      if modules[i].directory in selected {
        pending, dependants := RecordModule(byPath, selected, modules[i], Arrows(byPath, selected, modules[..i]),
                                            pending, dependants);
      } else {
        assert Arrows(byPath, selected, modules[..i]) + [] == Arrows(byPath, selected, modules[..i]);
      }
    }
  }

  method RecordModule(byPath: map<Name, Module>, selected: set<Name>, m: Module, ghost arrows: seq<Arrow>,
                      pending0: map<Name, int>, dependants0: map<Name, seq<Name>>)
    returns (pending: map<Name, int>, dependants: map<Name, seq<Name>>)
    requires Recorded(arrows, pending0, dependants0)
    ensures Recorded(arrows + OwnArrows(byPath, selected, m.directory, m.dependencies), pending, dependants)
  {
    pending, dependants := pending0, dependants0;
    assert arrows + [] == arrows;
    for j := 0 to |m.dependencies|
      invariant Recorded(arrows + OwnArrows(byPath, selected, m.directory, m.dependencies[..j]), pending, dependants)
    {
      var path := m.dependencies[j];
      assert m.dependencies[..j + 1][..j] == m.dependencies[..j];
      ghost var own := OwnArrows(byPath, selected, m.directory, m.dependencies[..j]);
      if path in byPath && byPath[path].directory in selected {
        var to := byPath[path].directory;
        RecordOne(arrows + own, Arrow(m.directory, to), pending, dependants);
        assert arrows + own + [Arrow(m.directory, to)] == arrows + (own + [Arrow(m.directory, to)]);
        pending := pending[m.directory := CountOf(pending, m.directory) + 1];
        dependants := dependants[to := ListOf(dependants, to) + [m.directory]];
      } else {
        assert own + [] == own;
      }
    }
    assert m.dependencies[..|m.dependencies|] == m.dependencies;
  }

  /** Completing `x` closes one open dependency for each time a module waits for it. */
  lemma {:induction false} CompleteOne(arrows: seq<Arrow>, x: Name, done: set<Name>, d: Name)
    requires x !in done
    ensures Open(arrows, d, done + {x}) == Open(arrows, d, done) - multiset(Waiting(arrows, x))[d]
  {
    if arrows != [] {
      CompleteOne(arrows[..|arrows| - 1], x, done, d);
    }
  }

  lemma {:induction false} NothingOpen(arrows: seq<Arrow>, x: Name, done: set<Name>)
    ensures Open(arrows, x, done) == 0 <==> forall y :: Arrow(x, y) in arrows ==> y in done
  {
    if arrows != [] {
      var front, last := arrows[..|arrows| - 1], arrows[|arrows| - 1];
      NothingOpen(front, x, done);
      assert arrows == front + [last];
    }
  }

  ghost predicate CountedFor(waiting: seq<Name>, pending0: map<Name, int>, ready0: seq<Name>,
                             pending: map<Name, int>, ready: seq<Name>, x: Name) {
    && CountOf(pending, x) == CountOf(pending0, x) - multiset(waiting)[x]
    && multiset(ready)[x] == multiset(ready0)[x] + if x in waiting && CountOf(pending, x) == 0 then 1 else 0
  }

  /** Everyone in `waiting` counted down once for each place in it; those left with nothing open are ready. */
  ghost predicate Counted(waiting: seq<Name>, pending0: map<Name, int>, ready0: seq<Name>,
                          pending: map<Name, int>, ready: seq<Name>) {
    forall x {:trigger CountedFor(waiting, pending0, ready0, pending, ready, x)} ::
      CountedFor(waiting, pending0, ready0, pending, ready, x)
  }

  lemma CountOne(waiting: seq<Name>, d: Name, pending0: map<Name, int>, ready0: seq<Name>,
                 pending: map<Name, int>, ready: seq<Name>, ready': seq<Name>)
    requires Counted(waiting, pending0, ready0, pending, ready) && CountOf(pending0, d) > multiset(waiting)[d]
    requires multiset(ready') == multiset(ready) + if CountOf(pending, d) == 1 then multiset{d} else multiset{}
    ensures Counted(waiting + [d], pending0, ready0, pending[d := CountOf(pending, d) - 1], ready')
  {
    var pending' := pending[d := CountOf(pending, d) - 1];
    forall x
      ensures CountedFor(waiting + [d], pending0, ready0, pending', ready', x)
    {
      assert CountedFor(waiting, pending0, ready0, pending, ready, x);
    }
  }

  /** Counts down everyone waiting for a completed module; those with nothing left open become ready. */
  method CountDown(waiting: seq<Name>, pending0: map<Name, int>, ready0: seq<Name>)
    returns (pending: map<Name, int>, ready: seq<Name>)
    requires Sorted(ready0)
    requires forall x :: CountOf(pending0, x) >= multiset(waiting)[x]
    ensures Sorted(ready) && Counted(waiting, pending0, ready0, pending, ready)
  {
    pending, ready := pending0, ready0;
    for i := 0 to |waiting|
      invariant Sorted(ready) && Counted(waiting[..i], pending0, ready0, pending, ready)
    {
      var d := waiting[i];
      assert CountOf(pending0, d) > multiset(waiting[..i])[d] by {
        assert waiting == waiting[..i] + [d] + waiting[i + 1..];
        assert multiset(waiting) == multiset(waiting[..i]) + multiset{d} + multiset(waiting[i + 1..]);
      }
      ghost var before := ready;
      var left := CountOf(pending, d) - 1;
      if left == 0 {
        ready := Insert(ready, d);
      }
      CountOne(waiting[..i], d, pending0, ready0, pending, before, ready);
      assert waiting[..i + 1] == waiting[..i] + [d];
      pending := pending[d := left];
    }
    assert waiting[..|waiting|] == waiting;
  }

  // ---------------------------------------------------------------- the loop

  ghost predicate GraphOf(g: Graph, arrows: seq<Arrow>) {
    forall x, y :: Depends(g, x, y) <==> Arrow(x, y) in arrows
  }

  ghost predicate CountsOpen(arrows: seq<Arrow>, done: set<Name>, pending: map<Name, int>) {
    forall x {:trigger CountOf(pending, x)} :: CountOf(pending, x) == Open(arrows, x, done)
  }

  ghost predicate ReadyFor(g: Graph, ordered: seq<Name>, ready: seq<Name>, x: Name) {
    multiset(ready)[x] == if IsReady(g, ordered, x) then 1 else 0
  }

  /** `ready` holds exactly the modules that are ready, each once. */
  ghost predicate HoldsReady(g: Graph, ordered: seq<Name>, ready: seq<Name>) {
    forall x {:trigger ReadyFor(g, ordered, ready, x)} :: ReadyFor(g, ordered, ready, x)
  }

  lemma ReadyIsNothingOpen(g: Graph, arrows: seq<Arrow>, ordered: seq<Name>, x: Name)
    requires GraphOf(g, arrows)
    ensures IsReady(g, ordered, x) <==> x in g && x !in ordered && Open(arrows, x, Elements(ordered)) == 0
  {
    NothingOpen(arrows, x, Elements(ordered));
  }

  lemma ListedIsClosed(g: Graph, arrows: seq<Arrow>, ordered: seq<Name>, x: Name)
    requires GraphOf(g, arrows) && IsGreedy(g, ordered) && (x in ordered || x !in g)
    ensures Open(arrows, x, Elements(ordered)) == 0
  {
    NothingOpen(arrows, x, Elements(ordered));
    if x in ordered {
      var i :| 0 <= i < |ordered| && ordered[i] == x;
      assert PicksLeast(g, ordered, i);
    }
  }

  lemma AdvanceOne(g: Graph, arrows: seq<Arrow>, ordered: seq<Name>, next: Name, rest: seq<Name>,
                   pending0: map<Name, int>, pending: map<Name, int>, ready: seq<Name>, x: Name)
    requires GraphOf(g, arrows) && IsGreedy(g, ordered) && IsReady(g, ordered, next)
    requires ReadyFor(g, ordered, [next] + rest, x)
    requires CountOf(pending0, x) == Open(arrows, x, Elements(ordered))
    requires CountedFor(Waiting(arrows, next), pending0, rest, pending, ready, x)
    ensures CountOf(pending, x) == Open(arrows, x, Elements(ordered + [next]))
    ensures ReadyFor(g, ordered + [next], ready, x)
  {
    assert Elements(ordered + [next]) == Elements(ordered) + {next};
    CompleteOne(arrows, next, Elements(ordered), x);
    ReadyIsNothingOpen(g, arrows, ordered, x);
    ReadyIsNothingOpen(g, arrows, ordered + [next], x);
    if x in ordered || x !in g {
      ListedIsClosed(g, arrows, ordered, x);
    }
  }

  lemma ExtendGreedy(g: Graph, ordered: seq<Name>, ready: seq<Name>)
    requires IsGreedy(g, ordered) && HoldsReady(g, ordered, ready) && Sorted(ready) && ready != []
    ensures IsReady(g, ordered, ready[0]) && IsGreedy(g, ordered + [ready[0]])
  {
    var longer := ordered + [ready[0]];
    assert ReadyFor(g, ordered, ready, ready[0]);
    forall i | 0 <= i < |longer|
      ensures PicksLeast(g, longer, i)
    {
      if i < |ordered| {
        assert PicksLeast(g, ordered, i) && longer[..i] == ordered[..i];
      } else {
        assert longer[..i] == ordered;
        forall x | IsReady(g, ordered, x)
          ensures !Less(x, longer[i])
        {
          assert ReadyFor(g, ordered, ready, x) && x in ready;
          LessIsTotal(x, x);
        }
      }
    }
  }

  lemma GraphOfSelection(modules: seq<Module>, selected: set<Name>)
    ensures GraphOf(SelectedGraph(modules, selected), Arrows(ByPath(modules), selected, modules))
  {
    var arrows := Arrows(ByPath(modules), selected, modules);
    forall x, y
      ensures Depends(SelectedGraph(modules, selected), x, y) <==> Arrow(x, y) in arrows
    {
      TargetsAre(arrows, x, y);
      ArrowsAreNeeds(modules, selected, Arrow(x, y));
    }
  }

  /** The directories with nothing open, sorted. */
  method Initial(directories: seq<Name>, pending: map<Name, int>) returns (ready: seq<Name>)
    requires Distinct(directories)
    ensures Sorted(ready)
    ensures forall x {:trigger multiset(ready)[x]} ::
              multiset(ready)[x] == if x in directories && CountOf(pending, x) == 0 then 1 else 0
  {
    var found: seq<Name> := [];
    for i := 0 to |directories|
      invariant forall x {:trigger multiset(found)[x]} ::
                  multiset(found)[x] == if x in directories[..i] && CountOf(pending, x) == 0 then 1 else 0
    {
      assert directories[..i + 1] == directories[..i] + [directories[i]];
      if CountOf(pending, directories[i]) == 0 {
        found := found + [directories[i]];
      }
    }
    assert directories[..|directories|] == directories;
    ready := Sort(found);
  }

  lemma StartsReady(g: Graph, arrows: seq<Arrow>, directories: seq<Name>, pending: map<Name, int>,
                    dependants: map<Name, seq<Name>>, ready: seq<Name>)
    requires GraphOf(g, arrows) && g.Keys == Elements(directories) && Recorded(arrows, pending, dependants)
    requires forall x {:trigger multiset(ready)[x]} ::
               multiset(ready)[x] == if x in directories && CountOf(pending, x) == 0 then 1 else 0
    ensures HoldsReady(g, [], ready) && CountsOpen(arrows, Elements([]), pending)
  {
    assert Elements([]) == {};
    forall x
      ensures CountOf(pending, x) == Open(arrows, x, {}) && ReadyFor(g, [], ready, x)
    {
      assert RecordedFor(arrows, pending, dependants, x);
      ReadyIsNothingOpen(g, arrows, [], x);
    }
  }

  method Complete(ghost g: Graph, ghost arrows: seq<Arrow>, ghost ordered: seq<Name>, next: Name, waiting: seq<Name>,
                  pending0: map<Name, int>, rest: seq<Name>)
    returns (pending: map<Name, int>, ready: seq<Name>)
    requires GraphOf(g, arrows) && IsGreedy(g, ordered) && IsReady(g, ordered, next)
    requires HoldsReady(g, ordered, [next] + rest) && Sorted(rest)
    requires CountsOpen(arrows, Elements(ordered), pending0) && waiting == Waiting(arrows, next)
    ensures HoldsReady(g, ordered + [next], ready) && Sorted(ready)
    ensures CountsOpen(arrows, Elements(ordered + [next]), pending)
  {
    forall x
      ensures CountOf(pending0, x) >= multiset(waiting)[x]
    {
      CompleteOne(arrows, next, Elements(ordered), x);
    }
    pending, ready := CountDown(waiting, pending0, rest);
    forall x
      ensures CountOf(pending, x) == Open(arrows, x, Elements(ordered + [next]))
      ensures ReadyFor(g, ordered + [next], ready, x)
    {
      assert ReadyFor(g, ordered, [next] + rest, x) && CountedFor(waiting, pending0, rest, pending, ready, x);
      AdvanceOne(g, arrows, ordered, next, rest, pending0, pending, ready, x);
    }
  }

  /** Takes the least ready module until none is ready. */
  method Drain(ghost g: Graph, ghost arrows: seq<Arrow>, dependants: map<Name, seq<Name>>,
               pending0: map<Name, int>, ready0: seq<Name>)
    returns (ordered: seq<Name>)
    requires GraphOf(g, arrows) && Recorded(arrows, pending0, dependants)
    requires HoldsReady(g, [], ready0) && Sorted(ready0) && CountsOpen(arrows, Elements([]), pending0)
    ensures IsGreedy(g, ordered) && IsExhausted(g, ordered)
  {
    var pending, ready := pending0, ready0;
    ordered := [];
    while ready != []
      invariant IsGreedy(g, ordered) && HoldsReady(g, ordered, ready) && Sorted(ready)
      invariant CountsOpen(arrows, Elements(ordered), pending)
      decreases |g.Keys - Elements(ordered)|
    {
      var directory := ready[0];
      ExtendGreedy(g, ordered, ready);
      assert ready == [directory] + ready[1..];
      assert RecordedFor(arrows, pending0, dependants, directory);
      pending, ready := Complete(g, arrows, ordered, directory, ListOf(dependants, directory), pending, ready[1..]);
      assert Elements(ordered + [directory]) == Elements(ordered) + {directory};
      Shrinks(g.Keys - Elements(ordered + [directory]), g.Keys - Elements(ordered));
      ordered := ordered + [directory];
    }
    forall x
      ensures !IsReady(g, ordered, x)
    {
      assert ReadyFor(g, ordered, ready, x);
    }
  }

  /**
   * The selected directories in dependency order: the one greedy order of
   * their graph, which lists all of them exactly when they form no cycle.
   */
  method Arrange(modules: seq<Module>, directories: seq<Name>) returns (ordered: seq<Name>)
    requires Distinct(directories)
    ensures var g := SelectedGraph(modules, Elements(directories));
            && IsGreedy(g, ordered) && IsExhausted(g, ordered) && IsOrder(g, ordered)
            && (|ordered| == |directories| <==> !HasCycle(g))
            && (Elements(ordered) == Elements(directories) <==> !HasCycle(g))
  {
    var selected := set x | x in directories;
    ghost var g := SelectedGraph(modules, selected);
    ghost var arrows := Arrows(ByPath(modules), selected, modules);
    GraphOfSelection(modules, selected);
    var pending, dependants := Record(modules, selected);
    var ready := Initial(directories, pending);
    StartsReady(g, arrows, directories, pending, dependants, ready);
    ordered := Drain(g, arrows, dependants, pending, ready);
    GreedyIsOrder(g, ordered);
    CompleteIffAcyclic(g, ordered);
    DistinctHasSize(directories);
  }

  // ---------------------------------------------------------------- the caller

  datatype Selection = Selected(directories: seq<Name>) | CycleFound

  /** A map's keys, in whatever order they come. */
  method Listed(names: set<Name>) returns (r: seq<Name>)
    ensures multiset(r) == multiset(names)
  {
    r := [];
    var rest := names;
    while rest != {}
      invariant rest <= names && multiset(r) == multiset(names - rest)
      decreases rest
    {
      var x :| x in rest;
      assert names - (rest - {x}) == (names - rest) + {x};
      r, rest := r + [x], rest - {x};
    }
    assert names - rest == names;
  }

  lemma OnceEach(names: seq<Name>, s: set<Name>)
    requires multiset(names) == multiset(s)
    ensures Distinct(names) && Elements(names) == s
  {
    forall i, j | 0 <= i < j < |names|
      ensures names[i] != names[j]
    {
      var x := names[j];
      assert names == names[..j] + [x] + names[j + 1..];
      assert multiset(names)[x] == 1 && multiset(names[..j])[x] == 0;
      assert names[i] == names[..j][i] && names[i] in multiset(names[..j]);
    }
    assert forall x :: x in names <==> x in multiset(names);
  }

  /** The selected directories in dependency order, unless they form a cycle. */
  method SelectInOrder(modules: seq<Module>, selected: set<Name>) returns (r: Selection)
    ensures r.CycleFound? <==> HasCycle(SelectedGraph(modules, selected))
    ensures r.Selected? ==>
      var g := SelectedGraph(modules, selected);
      Elements(r.directories) == selected && IsOrder(g, r.directories) && IsGreedy(g, r.directories)
  {
    var result := Listed(selected);
    result := Sort(result);
    OnceEach(result, selected);
    DistinctHasSize(result);
    var ordered := Arrange(modules, result);
    if |ordered| != |selected| {
      return CycleFound;
    }
    return Selected(ordered);
  }

  // ---------------------------------------------------------------- one answer for one catalogue

  ghost predicate DistinctPaths(modules: seq<Module>) {
    forall i, j :: 0 <= i < j < |modules| ==> modules[i].path != modules[j].path
  }

  lemma {:induction false} ByPathFinds(modules: seq<Module>, m: Module)
    requires DistinctPaths(modules)
    ensures m in modules <==> m.path in ByPath(modules) && ByPath(modules)[m.path] == m
  {
    if modules != [] {
      var front, last := modules[..|modules| - 1], modules[|modules| - 1];
      assert modules == front + [last];
      ByPathFinds(front, m);
      if m in front {
        var i :| 0 <= i < |front| && modules[i] == m;
      }
    }
  }

  lemma {:induction false} ByPathKeys(modules: seq<Module>, p: Name)
    requires p in ByPath(modules)
    ensures ByPath(modules)[p] in modules && ByPath(modules)[p].path == p
  {
    var front, last := modules[..|modules| - 1], modules[|modules| - 1];
    assert modules == front + [last];
    if p != last.path {
      ByPathKeys(front, p);
    }
  }

  lemma ByPathIgnoresOrder(modules: seq<Module>, others: seq<Module>)
    requires DistinctPaths(modules) && DistinctPaths(others) && forall m :: m in modules <==> m in others
    ensures ByPath(modules) == ByPath(others)
  {
    forall p
      ensures p in ByPath(modules) ==> p in ByPath(others) && ByPath(modules)[p] == ByPath(others)[p]
      ensures p in ByPath(others) ==> p in ByPath(modules)
    {
      if p in ByPath(modules) {
        ByPathKeys(modules, p);
        ByPathFinds(others, ByPath(modules)[p]);
      }
      if p in ByPath(others) {
        ByPathKeys(others, p);
        ByPathFinds(modules, ByPath(others)[p]);
      }
    }
  }

  /** Neither the order of the catalogue nor the order of the selection shows in the result. */
  lemma ArrangementIsCanonical(modules: seq<Module>, others: seq<Module>, selected: set<Name>,
                               a: seq<Name>, b: seq<Name>)
    requires DistinctPaths(modules) && DistinctPaths(others) && forall m :: m in modules <==> m in others
    requires IsGreedy(SelectedGraph(modules, selected), a) && IsExhausted(SelectedGraph(modules, selected), a)
    requires IsGreedy(SelectedGraph(others, selected), b) && IsExhausted(SelectedGraph(others, selected), b)
    ensures a == b
  {
    var g, h := SelectedGraph(modules, selected), SelectedGraph(others, selected);
    ByPathIgnoresOrder(modules, others);
    SelectedGraphIsNeeds(modules, selected);
    SelectedGraphIsNeeds(others, selected);
    forall x, y
      ensures Depends(g, x, y) <==> Depends(h, x, y)
    {
      assert Needs(modules, x, y) <==> Needs(others, x, y);
    }
    GreedyIsUnique(g, h, a, b);
  }
}
