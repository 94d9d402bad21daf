/** The depth-first search for a dependency cycle. */
module CycleSearch {
  import opened Collections
  import opened Names
  import opened ModuleGraph

  /** What `state` records of a module; one that is not in the map was not visited. */
  datatype Mark = OnStack | Finished

  /** The modules on the stack form a walk; the finished ones are listed after their dependencies. */
  ghost predicate Consistent(g: Graph, state: map<Name, Mark>, stack: seq<Name>, finished: seq<Name>) {
    && IsWalk(g, stack) && Distinct(stack) && IsOrder(g, finished)
    && state.Keys <= g.Keys
    && forall x {:trigger MarkedRight(state, stack, finished, x)} :: MarkedRight(state, stack, finished, x)
  }

  ghost predicate MarkedRight(state: map<Name, Mark>, stack: seq<Name>, finished: seq<Name>, x: Name) {
    && (x in stack <==> x in state && state[x] == OnStack)
    && (x in finished <==> x in state && state[x] == Finished)
  }

  lemma Enter(g: Graph, state: map<Name, Mark>, stack: seq<Name>, finished: seq<Name>, path: Name)
    requires Consistent(g, state, stack, finished) && path in g && path !in state
    requires stack == [] || Depends(g, stack[|stack| - 1], path)
    ensures Consistent(g, state[path := OnStack], stack + [path], finished)
  {
    EnterKeepsWalk(g, stack, path);
    var state', stack' := state[path := OnStack], stack + [path];
    assert MarkedRight(state, stack, finished, path);
    forall x
      ensures MarkedRight(state', stack', finished, x)
    {
      assert MarkedRight(state, stack, finished, x);
    }
  }

  lemma Leave(g: Graph, state: map<Name, Mark>, below: seq<Name>, finished: seq<Name>, path: Name)
    requires Consistent(g, state, below + [path], finished)
    requires forall y :: Depends(g, path, y) ==> y in finished
    ensures Consistent(g, state[path := Finished], below, finished + [path])
  {
    var stack := below + [path];
    assert MarkedRight(state, stack, finished, path) && stack[|below|] == path;
    FinishKeepsOrder(g, finished, path);
    PrefixWalk(g, below, path);
    var state', finished' := state[path := Finished], finished + [path];
    forall x
      ensures MarkedRight(state', below, finished', x)
    {
      assert MarkedRight(state, stack, finished, x);
      assert x in stack <==> x in below || x == path;
      assert path !in below;
    }
  }

  class Search {
    const modules: Graph
    var state: map<Name, Mark>
    var stack: seq<Name>
    /** Finished modules, in the order in which they were finished. */
    ghost var finished: seq<Name>

    constructor (modules: Graph)
      ensures this.modules == modules && Valid() && state == map[] && stack == [] && finished == []
    {
      this.modules := modules;
      state, stack, finished := map[], [], [];
    }

    ghost predicate Valid()
      reads this
    {
      Consistent(modules, state, stack, finished)
    }

    method IndexOnStack(path: Name) returns (index: nat)
      requires path in stack
      ensures index < |stack| && stack[index] == path
    {
      index := 0;
      while stack[index] != path
        invariant index < |stack| && path in stack[index..]
        decreases |stack| - index
      {
        index := index + 1;
      }
    }

    /** Visits an unvisited module that the top of the stack, if there is one, depends on. */
    method Visit(path: Name) returns (cycle: seq<Name>)
      requires Valid() && path in modules && path !in state
      requires stack == [] || Depends(modules, stack[|stack| - 1], path)
      modifies this
      ensures cycle != [] ==> IsClosedWalk(modules, cycle) && Distinct(cycle[1..])
      ensures cycle == [] ==> Valid() && stack == old(stack) && path in finished
      ensures cycle == [] ==> forall x :: x in old(finished) ==> x in finished
      ensures cycle == [] ==> old(state.Keys) <= state.Keys
      decreases modules.Keys - state.Keys, 0
    {
      ghost var below := stack;
      Enter(modules, state, stack, finished, path);
      state := state[path := OnStack];
      stack := stack + [path];
      ghost var entered := state.Keys;
      var dependencies := modules[path];
      for i := 0 to |dependencies|
        invariant Valid() && stack == below + [path] && entered <= state.Keys
        invariant forall x :: x in old(finished) ==> x in finished
        invariant forall k :: 0 <= k < i && dependencies[k] in modules ==> dependencies[k] in finished
      {
        assert path in state.Keys && path !in old(state.Keys);
        assert modules.Keys - state.Keys < old(modules.Keys - state.Keys);
        cycle := Follow(path, dependencies[i]);
        if cycle != [] {
          return;
        }
      }
      Leave(modules, state, below, finished, path);
      stack := stack[..|stack| - 1];
      state := state[path := Finished];
      finished := finished + [path];
      cycle := [];
      assert stack == below;
    }

    /** One turn of the loop over the dependencies of the module on top of the stack. */
    method Follow(path: Name, dependency: Name) returns (cycle: seq<Name>)
      requires Valid() && stack != [] && stack[|stack| - 1] == path && dependency in modules[path] && path in state
      modifies this
      ensures cycle != [] ==> IsClosedWalk(modules, cycle) && Distinct(cycle[1..])
      ensures cycle == [] ==> Valid() && stack == old(stack) && old(state.Keys) <= state.Keys
      ensures cycle == [] ==> forall x :: x in old(finished) ==> x in finished
      ensures cycle == [] && dependency in modules ==> dependency in finished
      decreases modules.Keys - state.Keys, 1
    {
      cycle := [];
      if dependency !in modules {
        return;
      }
      assert MarkedRight(state, stack, finished, dependency);
      if dependency in state && state[dependency] == OnStack {
        var index := IndexOnStack(dependency);
        BackEdgeCloses(modules, stack, index);
        return stack[index..] + [dependency];
      }
      if dependency !in state {
        cycle := Visit(dependency);
      }
    }
  }

  lemma EnterKeepsWalk(g: Graph, stack: seq<Name>, path: Name)
    requires IsWalk(g, stack) && path in g && (stack == [] || Depends(g, stack[|stack| - 1], path))
    ensures IsWalk(g, stack + [path])
  {
    if stack != [] {
      ExtendWalk(g, stack, path);
    }
  }

  lemma PrefixWalk(g: Graph, below: seq<Name>, path: Name)
    requires IsWalk(g, below + [path]) && Distinct(below + [path])
    ensures IsWalk(g, below) && Distinct(below) && path !in below
  {
    var stack := below + [path];
    assert stack[|below|] == path;
    assert forall i :: 0 <= i < |below| ==> stack[i] == below[i];
    forall i | 0 <= i < |below| - 1
      ensures Edge(g, below, i)
    {
      assert Edge(g, stack, i);
    }
  }

  lemma BackEdgeCloses(g: Graph, stack: seq<Name>, index: nat)
    requires IsWalk(g, stack) && Distinct(stack) && index < |stack| && Depends(g, stack[|stack| - 1], stack[index])
    ensures IsClosedWalk(g, stack[index..] + [stack[index]])
    ensures Distinct((stack[index..] + [stack[index]])[1..])
  {
    SubWalk(g, stack, index);
    ExtendWalk(g, stack[index..], stack[index]);
  }

  lemma FinishKeepsOrder(g: Graph, finished: seq<Name>, path: Name)
    requires IsOrder(g, finished) && path !in finished
    requires forall y :: Depends(g, path, y) ==> y in finished
    ensures IsOrder(g, finished + [path])
  {
    var longer := finished + [path];
    forall i, y | 0 <= i < |longer| && Depends(g, longer[i], y)
      ensures y in longer[..i]
    {
      if i < |finished| {
        assert longer[..i] == finished[..i];
      } else {
        assert longer[..i] == finished;
      }
    }
  }

  /** Reports a cycle, without repeated modules, if and only if the graph has one. */
  method DependencyCycle(modules: Graph) returns (cycle: seq<Name>)
    ensures cycle != [] <==> HasCycle(modules)
    ensures cycle != [] ==> IsClosedWalk(modules, cycle) && Distinct(cycle[1..])
  {
    var search := new Search(modules);
    var left := modules.Keys;
    while left != {}
      invariant search.modules == modules && search.Valid() && search.stack == []
      invariant fresh(search)
      invariant forall x :: x in modules ==> x in left || x in search.finished
      decreases left
    {
      var path :| path in left;
      left := left - {path};
      assert MarkedRight(search.state, search.stack, search.finished, path);
      if path !in search.state {
        cycle := search.Visit(path);
        if cycle != [] {
          return;
        }
      }
    }
    OrderMeansAcyclic(modules, search.finished);
    cycle := [];
  }
}
