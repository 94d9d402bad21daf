/**
 Option groups of pkg/cli/compile.go: building groups from their declarations, and the union-find
 check that decides whether the groups can be satisfied at all. A binding is the identity of an
 option's typed destination; compilation rejects an option that reuses one, so each occurs once.
 */
module OptionGroups {
  import opened Collections

  type Binding = nat

  datatype Spec = Spec(binding: Binding, required: bool, hasDefault: bool)
  datatype Kind = Exclusive | Together | UnknownKind
  datatype Group = Group(kind: Kind, bindings: seq<Binding>)

  datatype Declaration = Declaration(kind: Kind, options: seq<Option<Binding>>)
  datatype Result<+T> = Ok(value: T) | Err

  // ---- What satisfying the groups means ----------------------------------------------------

  ghost predicate Forced(options: seq<Spec>, b: Binding) {
    exists i :: 0 <= i < |options| && options[i].binding == b && (options[i].required || options[i].hasDefault)
  }

  ghost predicate AllOrNone(group: Group, chosen: set<Binding>) {
    (forall b :: b in group.bindings ==> b in chosen) || (forall b :: b in group.bindings ==> b !in chosen)
  }

  ghost predicate AtMostOne(group: Group, chosen: set<Binding>) {
    forall i, j :: 0 <= i < j < |group.bindings| ==> !(group.bindings[i] in chosen && group.bindings[j] in chosen)
  }

  ghost predicate Meets(group: Group, chosen: set<Binding>) {
    match group.kind
    case Together => AllOrNone(group, chosen)
    case Exclusive => AtMostOne(group, chosen)
    case UnknownKind => true
  }

  /** `chosen` can be the set of resolved options of a valid invocation. */
  ghost predicate Resolves(groups: seq<Group>, options: seq<Spec>, chosen: set<Binding>) {
    && chosen <= Available(options)
    && (forall b :: Forced(options, b) ==> b in chosen)
    && (forall g :: 0 <= g < |groups| ==> Meets(groups[g], chosen))
  }

  ghost predicate Satisfiable(groups: seq<Group>, options: seq<Spec>) {
    exists chosen :: Resolves(groups, options, chosen)
  }

  function Available(options: seq<Spec>): set<Binding> {
    set i | 0 <= i < |options| :: options[i].binding
  }

  ghost predicate WellFormed(available: set<Binding>, group: Group) {
    && !group.kind.UnknownKind?
    && 2 <= |group.bindings|
    && Distinct(group.bindings)
    && forall b :: b in group.bindings ==> b in available
  }

  ghost predicate AllWellFormed(available: set<Binding>, groups: seq<Group>) {
    forall g :: 0 <= g < |groups| ==> WellFormed(available, groups[g])
  }

  // ---- Compiling declarations --------------------------------------------------------------

  /** A declaration names exactly the bindings of `group`. */
  ghost predicate Declares(d: Declaration, group: Group) {
    && d.kind == group.kind
    && |d.options| == |group.bindings|
    && forall i :: 0 <= i < |d.options| ==> d.options[i] == Some(group.bindings[i])
  }

  ghost predicate Valid(available: set<Binding>, d: Declaration) {
    exists group :: Declares(d, group) && WellFormed(available, group)
  }

  method CompileGroup(d: Declaration, available: set<Binding>) returns (result: Result<Group>)
    ensures result.Ok? ==> Declares(d, result.value) && WellFormed(available, result.value)
    ensures result.Err? ==> !Valid(available, d)
  {
    if |d.options| < 2 {
      return Err;
    }
    var bindings: seq<Binding> := [];
    var seen: set<Binding> := {};
    for i := 0 to |d.options|
      invariant |bindings| == i
      invariant forall k :: 0 <= k < i ==> d.options[k] == Some(bindings[k])
      invariant seen == set b | b in bindings
      invariant Distinct(bindings)
      invariant forall b :: b in bindings ==> b in available
    {
      var declared := d.options[i];
      if declared.None? || declared.value !in available {
        return Err;
      }
      if declared.value in seen {
        return Err;
      }
      seen := seen + {declared.value};
      bindings := bindings + [declared.value];
    }
    if d.kind != Exclusive && d.kind != Together {
      return Err;
    }
    return Ok(Group(d.kind, bindings));
  }

  /** compileGroups: succeeds exactly when every declaration is valid, with one group per declaration. */
  method CompileGroups(declarations: seq<Declaration>, options: seq<Spec>) returns (result: Result<seq<Group>>)
    ensures result.Ok? ==>
              && AllWellFormed(Available(options), result.value)
              && |result.value| == |declarations|
              && forall g :: 0 <= g < |declarations| ==> Declares(declarations[g], result.value[g])
    ensures result.Err? <==> exists g :: 0 <= g < |declarations| && !Valid(Available(options), declarations[g])
  {
    var available := Available(options);
    var groups: seq<Group> := [];
    for g := 0 to |declarations|
      invariant |groups| == g && AllWellFormed(available, groups)
      invariant forall k :: 0 <= k < g ==> Declares(declarations[k], groups[k])
    {
      var group := CompileGroup(declarations[g], available);
      if group.Err? {
        return Err;
      }
      groups := groups + [group.value];
    }
    return Ok(groups);
  }

  // ---- Union-find --------------------------------------------------------------------------

  /** `root` names the node's component, and `rank` strictly grows on the way to it. */
  ghost predicate Node(parents: map<Binding, Binding>, root: map<Binding, Binding>, rank: map<Binding, nat>, x: Binding)
    requires parents.Keys == root.Keys == rank.Keys && x in parents
  {
    var p, r := parents[x], root[x];
    && p in parents && r in parents
    && root[p] == r && root[r] == r && parents[r] == r
    && (p == x ==> r == x)
    && (p != x ==> rank[x] < rank[p])
  }

  ghost predicate Forest(parents: map<Binding, Binding>, root: map<Binding, Binding>, rank: map<Binding, nat>) {
    && parents.Keys == root.Keys == rank.Keys
    && forall x {:trigger Node(parents, root, rank, x)} :: x in parents ==> Node(parents, root, rank, x)
  }

  class UnionFind {
    var parents: map<Binding, Binding>
    ghost var root: map<Binding, Binding>
    ghost var rank: map<Binding, nat>

    ghost predicate Valid()
      reads this
    {
      Forest(parents, root, rank)
    }

    constructor (nodes: set<Binding>)
      ensures Valid() && parents.Keys == nodes
      ensures forall x :: x in nodes ==> root[x] == x
    {
      parents := map x | x in nodes :: x;
      root := map x | x in nodes :: x;
      rank := map x | x in nodes :: 0;
    }

    /** findRoot: as many steps as there are nodes always reach the root; then the path is compressed. */
    method FindRoot(x: Binding) returns (r: Binding)
      requires Valid() && x in parents
      modifies this`parents
      ensures Valid() && parents.Keys == old(parents.Keys)
      ensures r == root[x]
    {
      var path: seq<Binding> := [];
      r := x;
      ghost var visited: set<Binding> := {};
      for i := 0 to |parents|
        invariant r in parents && root[r] == root[x]
        invariant Below(visited, rank, r) && visited <= parents.Keys
        invariant parents[r] == r || |visited| == i
        invariant forall k :: 0 <= k < |path| ==> OnPath(root, rank, path[k], r)
      {
        assert Node(parents, root, rank, r);
        path := path + [r];
        if parents[r] != r {
          visited := visited + {r};
        }
        r := parents[r];
      }
      SubsetSize(visited + {r}, parents.Keys);
      assert |parents.Keys| == |parents|;
      assert Node(parents, root, rank, r);
      for i := 0 to |path|
        invariant Valid() && parents.Keys == old(parents.Keys) && root[x] == r
      {
        Repoint(parents, root, rank, path[i], r);
        parents := parents[path[i] := r];
      }
    }

    /** Hangs the component of the root `other` under the root `r`. */
    method Attach(other: Binding, r: Binding)
      requires Valid() && r in parents && other in parents && r != other
      requires root[r] == r && root[other] == other
      modifies this
      ensures Valid() && parents.Keys == old(parents.Keys)
      ensures root == Merged(old(root), other, r)
    {
      Graft(parents, root, rank, other, r);
      parents := parents[other := r];
      rank := Raised(rank, root, other, r);
      root := Merged(root, other, r);
    }
  }

  ghost predicate Below(visited: set<Binding>, rank: map<Binding, nat>, r: Binding) {
    forall v :: v in visited ==> v in rank && r in rank && rank[v] < rank[r]
  }

  ghost predicate OnPath(root: map<Binding, Binding>, rank: map<Binding, nat>, x: Binding, r: Binding) {
    x in root && r in root && root[x] == root[r] && (x == r || (x in rank && r in rank && rank[x] < rank[r]))
  }

  /** Components after the component of `other` joined the one of `r`. */
  ghost function Merged(root: map<Binding, Binding>, other: Binding, r: Binding): map<Binding, Binding> {
    map x | x in root :: if root[x] == other then r else root[x]
  }

  ghost function Raised(rank: map<Binding, nat>, root: map<Binding, Binding>, other: Binding,
                        r: Binding): map<Binding, nat>
    requires rank.Keys == root.Keys && other in rank
  {
    map x | x in rank :: if root[x] == r then rank[x] + rank[other] + 1 else rank[x]
  }

  lemma Repoint(parents: map<Binding, Binding>, root: map<Binding, Binding>, rank: map<Binding, nat>, x: Binding,
                r: Binding)
    requires Forest(parents, root, rank) && x in parents && root[x] == r
    requires x == r || (r in rank && rank[x] < rank[r])
    ensures Forest(parents[x := r], root, rank)
  {
    assert Node(parents, root, rank, x);
    forall y | y in parents
      ensures Node(parents[x := r], root, rank, y)
    {
      assert Node(parents, root, rank, y);
      assert Node(parents, root, rank, root[y]);
    }
  }

  lemma Graft(parents: map<Binding, Binding>, root: map<Binding, Binding>, rank: map<Binding, nat>, other: Binding,
              r: Binding)
    requires Forest(parents, root, rank) && r in parents && other in parents && r != other
    requires root[r] == r && root[other] == other
    ensures Forest(parents[other := r], Merged(root, other, r), Raised(rank, root, other, r))
  {
    assert Node(parents, root, rank, other) && Node(parents, root, rank, r);
    var parents' := parents[other := r];
    forall y | y in parents'
      ensures Node(parents', Merged(root, other, r), Raised(rank, root, other, r), y)
    {
      assert Node(parents, root, rank, y);
    }
  }

  // ---- The decision ------------------------------------------------------------------------

  ghost predicate SameComponent(root: map<Binding, Binding>, group: Group) {
    forall i :: 0 <= i < |group.bindings| ==>
      group.bindings[i] in root && group.bindings[0] in root && root[group.bindings[i]] == root[group.bindings[0]]
  }

  /** Every together-group among the first `n` lies in one component. */
  ghost predicate Joined(root: map<Binding, Binding>, groups: seq<Group>, n: nat) {
    forall g :: 0 <= g < n && g < |groups| && groups[g].kind.Together? ==> SameComponent(root, groups[g])
  }

  /** `chosen` takes components whole. */
  ghost predicate Respects(root: map<Binding, Binding>, chosen: set<Binding>) {
    forall x :: x in root ==> (x in chosen <==> root[x] in chosen)
  }

  ghost predicate MeetsTogether(groups: seq<Group>, n: nat, chosen: set<Binding>) {
    forall g :: 0 <= g < n && g < |groups| && groups[g].kind.Together? ==> AllOrNone(groups[g], chosen)
  }

  /** Components merge only bindings that the first `n` groups force to be chosen together. */
  ghost predicate Justified(root: map<Binding, Binding>, groups: seq<Group>, n: nat) {
    forall chosen :: MeetsTogether(groups, n, chosen) ==> Respects(root, chosen)
  }

  lemma MergeStaysJoined(root: map<Binding, Binding>, groups: seq<Group>, n: nat, other: Binding, r: Binding)
    requires Joined(root, groups, n)
    ensures Joined(Merged(root, other, r), groups, n)
  {
  }

  lemma MergeRespects(root: map<Binding, Binding>, group: Group, i: nat, chosen: set<Binding>)
    requires Respects(root, chosen) && AllOrNone(group, chosen) && i < |group.bindings|
    requires group.bindings[0] in root && group.bindings[i] in root
    ensures Respects(Merged(root, root[group.bindings[i]], root[group.bindings[0]]), chosen)
  {
    assert group.bindings[0] in group.bindings && group.bindings[i] in group.bindings;
  }

  /** The inner loop over one together-group. */
  method Unite(uf: UnionFind, group: Group, ghost groups: seq<Group>, ghost n: nat)
    requires uf.Valid() && WellFormed(uf.parents.Keys, group)
    requires n < |groups| && groups[n] == group && group.kind.Together?
    requires Joined(uf.root, groups, n) && Justified(uf.root, groups, n)
    modifies uf
    ensures uf.Valid() && uf.parents.Keys == old(uf.parents.Keys)
    ensures Joined(uf.root, groups, n + 1) && Justified(uf.root, groups, n + 1)
  {
    assert group.bindings[0] in group.bindings;
    assert Justified(uf.root, groups, n + 1) by {
      forall chosen | MeetsTogether(groups, n + 1, chosen)
        ensures MeetsTogether(groups, n, chosen)
      {
      }
    }
    var root := uf.FindRoot(group.bindings[0]);
    assert Node(uf.parents, uf.root, uf.rank, group.bindings[0]);
    for i := 1 to |group.bindings|
      invariant uf.Valid() && uf.parents.Keys == old(uf.parents.Keys)
      invariant root in uf.parents && uf.root[group.bindings[0]] == root && uf.root[root] == root
      invariant forall k :: 0 <= k < i ==> group.bindings[k] in uf.parents && uf.root[group.bindings[k]] == root
      invariant Joined(uf.root, groups, n) && Justified(uf.root, groups, n + 1)
    {
      var b := group.bindings[i];
      assert b in group.bindings;
      var other := uf.FindRoot(b);
      assert Node(uf.parents, uf.root, uf.rank, b);
      if root != other {
        MergeStaysJoined(uf.root, groups, n, other, root);
        forall chosen | MeetsTogether(groups, n + 1, chosen)
          ensures Respects(Merged(uf.root, other, root), chosen)
        {
          MergeRespects(uf.root, group, i, chosen);
        }
        uf.Attach(other, root);
      }
    }
  }

  /** The options that must be chosen: everything in a component that holds a forced option. */
  ghost function Required(root: map<Binding, Binding>, forced: set<Binding>): set<Binding> {
    set b | b in root && root[b] in forced
  }

  /** The loop over one exclusive group. */
  method CheckExclusive(uf: UnionFind, group: Group, forced: set<Binding>) returns (ok: bool)
    requires uf.Valid() && forall b :: b in group.bindings ==> b in uf.parents
    modifies uf`parents
    ensures uf.Valid() && uf.parents.Keys == old(uf.parents.Keys)
    ensures ok <==> AtMostOne(group, Required(uf.root, forced))
  {
    var seen: set<Binding> := {};
    var forcedCount := 0;
    ghost var required := Required(uf.root, forced);
    ghost var first, second := 0, 0;
    for i := 0 to |group.bindings|
      invariant uf.Valid() && uf.parents.Keys == old(uf.parents.Keys)
      invariant forall k :: 0 <= k < i ==> group.bindings[k] in uf.root && uf.root[group.bindings[k]] in seen
      invariant forall r :: r in seen ==> exists k :: 0 <= k < i && uf.root[group.bindings[k]] == r
      invariant 0 <= forcedCount
      invariant forcedCount == 0 ==> forall k :: 0 <= k < i ==> group.bindings[k] !in required
      invariant forcedCount >= 1 ==> 0 <= first < i && group.bindings[first] in required
      invariant forcedCount == 1 ==> forall k :: 0 <= k < i && k != first ==> group.bindings[k] !in required
      invariant forcedCount >= 2 ==> first < second < i && group.bindings[second] in required
    {
      var b := group.bindings[i];
      assert b in group.bindings;
      var root := uf.FindRoot(b);
      if root !in seen {
        seen := seen + {root};
        if root in forced {
          if forcedCount == 0 {
            first := i;
          } else if forcedCount == 1 {
            second := i;
          }
          forcedCount := forcedCount + 1;
        }
      } else if root in forced {
        ghost var k :| 0 <= k < i && uf.root[group.bindings[k]] == root;
        assert group.bindings[k] in required && group.bindings[i] in required;
        return false;
      }
    }
    return forcedCount <= 1;
  }

  /** forcedComponents: the roots of all forced options, visited in arbitrary order. */
  method ForcedRoots(uf: UnionFind, options: seq<Spec>) returns (roots: set<Binding>)
    requires uf.Valid() && uf.parents.Keys == Available(options)
    modifies uf`parents
    ensures uf.Valid() && uf.parents.Keys == old(uf.parents.Keys)
    ensures forall b :: Forced(options, b) ==> b in uf.root && uf.root[b] in roots
    ensures forall r :: r in roots ==> exists b :: Forced(options, b) && b in uf.root && uf.root[b] == r
  {
    var todo := set i | 0 <= i < |options| && (options[i].required || options[i].hasDefault) :: options[i].binding;
    roots := {};
    while todo != {}
      invariant uf.Valid() && uf.parents.Keys == old(uf.parents.Keys)
      invariant forall b :: b in todo ==> Forced(options, b)
      invariant forall b :: Forced(options, b) ==> b in uf.root && (b in todo || uf.root[b] in roots)
      invariant forall r :: r in roots ==> exists b :: Forced(options, b) && b in uf.root && uf.root[b] == r
      decreases todo
    {
      var b :| b in todo;
      var root := uf.FindRoot(b);
      todo := todo - {b};
      roots := roots + {root};
    }
  }

  lemma RequiredResolves(root: map<Binding, Binding>, forced: set<Binding>, groups: seq<Group>, options: seq<Spec>)
    requires root.Keys == Available(options) && Joined(root, groups, |groups|)
    requires forall b :: Forced(options, b) ==> b in root && root[b] in forced
    requires forall g :: 0 <= g < |groups| && groups[g].kind.Exclusive? ==> AtMostOne(groups[g], Required(root, forced))
    ensures Satisfiable(groups, options)
  {
    var chosen := Required(root, forced);
    forall g | 0 <= g < |groups|
      ensures Meets(groups[g], chosen)
    {
      if groups[g].kind.Together? {
        assert SameComponent(root, groups[g]);
      }
    }
    assert Resolves(groups, options, chosen);
  }

  lemma RequiredIsLeast(root: map<Binding, Binding>, forced: set<Binding>, groups: seq<Group>, options: seq<Spec>,
                        chosen: set<Binding>)
    requires Justified(root, groups, |groups|) && Resolves(groups, options, chosen)
    requires forall r :: r in forced ==> exists b :: Forced(options, b) && b in root && root[b] == r
    ensures Required(root, forced) <= chosen
  {
    assert MeetsTogether(groups, |groups|, chosen) by {
      assert forall g :: 0 <= g < |groups| ==> Meets(groups[g], chosen);
    }
  }

  lemma RequiredRefutes(root: map<Binding, Binding>, forced: set<Binding>, groups: seq<Group>, options: seq<Spec>,
                        g: nat)
    requires Justified(root, groups, |groups|) && g < |groups| && groups[g].kind.Exclusive?
    requires forall r :: r in forced ==> exists b :: Forced(options, b) && b in root && root[b] == r
    requires !AtMostOne(groups[g], Required(root, forced))
    ensures !Satisfiable(groups, options)
  {
    forall chosen
      ensures !Resolves(groups, options, chosen)
    {
      if Resolves(groups, options, chosen) {
        assert Meets(groups[g], chosen);
        RequiredIsLeast(root, forced, groups, options, chosen);
      }
    }
  }

  /** The first pass: whatever a group wants together ends up in one class. */
  method UniteAll(uf: UnionFind, groups: seq<Group>, options: seq<Spec>)
    requires AllWellFormed(Available(options), groups) && uf.Valid() && uf.parents.Keys == Available(options)
    requires Joined(uf.root, groups, 0) && Justified(uf.root, groups, 0)
    modifies uf
    ensures uf.Valid() && uf.parents.Keys == Available(options)
    ensures Joined(uf.root, groups, |groups|) && Justified(uf.root, groups, |groups|)
  {
    for g := 0 to |groups|
      invariant uf.Valid() && uf.parents.Keys == Available(options)
      invariant Joined(uf.root, groups, g) && Justified(uf.root, groups, g)
    {
      if groups[g].kind == Together {
        Unite(uf, groups[g], groups, g);
      } else {
        assert forall chosen :: MeetsTogether(groups, g + 1, chosen) ==> MeetsTogether(groups, g, chosen);
      }
    }
  }

  /**
   validateGroupSatisfiability accepts exactly the groups for which some set of options contains
   every required or defaulted one, takes each together-group whole or not at all, and meets each
   exclusive group at most once.
   */
  method ValidateGroupSatisfiability(groups: seq<Group>, options: seq<Spec>) returns (ok: bool)
    requires AllWellFormed(Available(options), groups)
    ensures ok <==> Satisfiable(groups, options)
  {
    var uf := new UnionFind(Available(options));
    UniteAll(uf, groups, options);
    var forced := ForcedRoots(uf, options);
    ghost var root := uf.root;
    for g := 0 to |groups|
      invariant uf.Valid() && uf.parents.Keys == Available(options) && uf.root == root
      invariant forall k :: 0 <= k < g && groups[k].kind.Exclusive? ==> AtMostOne(groups[k], Required(root, forced))
    {
      if groups[g].kind != Exclusive {
        continue;
      }
      var fits := CheckExclusive(uf, groups[g], forced);
      if !fits {
        RequiredRefutes(root, forced, groups, options, g);
        return false;
      }
    }
    RequiredResolves(root, forced, groups, options);
    return true;
  }
}
