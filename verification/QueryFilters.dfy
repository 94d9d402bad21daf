/** How acceptance of a filter splits along its children. */
module QueryFilters {
  import opened Collections
  import opened QueryModel

  ghost function KeySet(leaves: seq<Predicate>): set<(string, Operator)> {
    set p | p in leaves :: Key(p)
  }

  /** A filter fits at some depth after `nodes` nodes, `values` values and the predicates `seen` were taken. */
  ghost predicate NodeFits(schema: Schema, authorize: Authorizer, f: Filter, depth: nat,
                           nodes: nat, values: nat, seen: set<(string, Operator)>) {
    && GroupsOk(schema, f)
    && depth + Height(f) <= schema.bounds.maxFilterDepth + 1
    && nodes + Size(f) <= schema.bounds.maxFilterNodes
    && values + ValueCount(Leaves(f)) <= schema.bounds.maxValues
    && LeavesFit(schema, authorize, Leaves(f), seen)
  }

  ghost predicate LeavesFit(schema: Schema, authorize: Authorizer, leaves: seq<Predicate>,
                            seen: set<(string, Operator)>) {
    && LeavesOk(schema, authorize, leaves)
    && Distinct(Keys(leaves))
    && KeySet(leaves) !! seen
  }

  /** The first `n` children of `f` fit, at the given depth of their own. */
  ghost predicate ChildrenFit(schema: Schema, authorize: Authorizer, f: Filter, n: nat, depth: nat,
                              nodes: nat, values: nat, seen: set<(string, Operator)>)
    requires n <= |f.children|
  {
    && GroupsOkUpTo(schema, f, n)
    && depth + HeightUpTo(f, n) <= schema.bounds.maxFilterDepth + 1
    && nodes + SizeUpTo(f, n) <= schema.bounds.maxFilterNodes
    && values + ValueCount(LeavesUpTo(f, n)) <= schema.bounds.maxValues
    && LeavesFit(schema, authorize, LeavesUpTo(f, n), seen)
  }

  lemma {:induction false} ValueCountConcat(a: seq<Predicate>, b: seq<Predicate>)
    ensures ValueCount(a + b) == ValueCount(a) + ValueCount(b)
  {
    if b == [] {
      assert a + b == a;
    } else {
      ValueCountConcat(a, b[..|b| - 1]);
      assert (a + b)[..|a + b| - 1] == a + b[..|b| - 1];
    }
  }

  lemma KeysDistinctConcat(a: seq<Predicate>, b: seq<Predicate>)
    ensures Distinct(Keys(a + b)) <==> Distinct(Keys(a)) && Distinct(Keys(b)) && KeySet(a) !! KeySet(b)
    ensures KeySet(a + b) == KeySet(a) + KeySet(b)
  {
    assert Keys(a + b) == Keys(a) + Keys(b);
    if Distinct(Keys(a + b)) {
      DistinctParts(Keys(a), Keys(b));
      forall k | k in KeySet(a)
        ensures k !in KeySet(b)
      {
        InKeys(a, k);
        InKeys(b, k);
      }
    }
    if Distinct(Keys(a)) && Distinct(Keys(b)) && KeySet(a) !! KeySet(b) {
      forall i, j | 0 <= i < |a| && 0 <= j < |b|
        ensures Keys(a)[i] != Keys(b)[j]
      {
        assert a[i] in a && b[j] in b;
        assert Key(a[i]) in KeySet(a) && Key(b[j]) in KeySet(b);
      }
    }
  }

  lemma InKeys(a: seq<Predicate>, k: (string, Operator))
    ensures k in KeySet(a) <==> k in Keys(a)
  {
    if k in KeySet(a) {
      var p :| p in a && Key(p) == k;
      var i :| 0 <= i < |a| && a[i] == p;
      assert Keys(a)[i] == k;
    }
    if k in Keys(a) {
      var i :| 0 <= i < |a| && Keys(a)[i] == k;
      assert a[i] in a;
    }
  }

  lemma DistinctParts<T>(a: seq<T>, b: seq<T>)
    requires Distinct(a + b)
    ensures Distinct(a) && Distinct(b) && forall x :: x in a ==> x !in b
  {
    var c := a + b;
    forall i, j | 0 <= i < j < |a|
      ensures a[i] != a[j]
    {
      assert c[i] == a[i] && c[j] == a[j];
    }
    forall i, j | 0 <= i < j < |b|
      ensures b[i] != b[j]
    {
      assert c[|a| + i] == b[i] && c[|a| + j] == b[j];
    }
    forall x | x in a
      ensures x !in b
    {
      var i :| 0 <= i < |a| && a[i] == x;
      assert forall j :: 0 <= j < |b| ==> c[|a| + j] == b[j] && c[i] == x;
    }
  }

  lemma LeavesFitConcat(schema: Schema, authorize: Authorizer, a: seq<Predicate>, b: seq<Predicate>,
                        seen: set<(string, Operator)>)
    ensures LeavesFit(schema, authorize, a + b, seen)
      <==> LeavesFit(schema, authorize, a, seen) && LeavesFit(schema, authorize, b, seen + KeySet(a))
  {
    KeysDistinctConcat(a, b);
    assert LeavesOk(schema, authorize, a + b) <==> LeavesOk(schema, authorize, a) && LeavesOk(schema, authorize, b) by {
      assert forall p :: p in a + b <==> p in a || p in b;
    }
  }

  lemma LeavesNext(f: Filter, n: nat)
    requires n < |f.children|
    ensures ValueCount(LeavesUpTo(f, n + 1)) == ValueCount(LeavesUpTo(f, n)) + ValueCount(Leaves(f.children[n]))
    ensures KeySet(LeavesUpTo(f, n + 1)) == KeySet(LeavesUpTo(f, n)) + KeySet(Leaves(f.children[n]))
  {
    var before, child := LeavesUpTo(f, n), Leaves(f.children[n]);
    assert LeavesUpTo(f, n + 1) == before + child;
    ValueCountConcat(before, child);
    KeysDistinctConcat(before, child);
  }

  lemma LeavesFitNext(schema: Schema, authorize: Authorizer, f: Filter, n: nat, seen: set<(string, Operator)>)
    requires n < |f.children|
    ensures LeavesFit(schema, authorize, LeavesUpTo(f, n + 1), seen) <==>
      && LeavesFit(schema, authorize, LeavesUpTo(f, n), seen)
      && LeavesFit(schema, authorize, Leaves(f.children[n]), seen + KeySet(LeavesUpTo(f, n)))
  {
    var before, child := LeavesUpTo(f, n), Leaves(f.children[n]);
    assert LeavesUpTo(f, n + 1) == before + child;
    LeavesFitConcat(schema, authorize, before, child, seen);
  }

  /** Children fit together if and only if each fits after those before it. */
  lemma ChildrenFitNext(schema: Schema, authorize: Authorizer, f: Filter, n: nat, depth: nat,
                        nodes: nat, values: nat, seen: set<(string, Operator)>)
    requires n < |f.children|
    ensures ChildrenFit(schema, authorize, f, n + 1, depth, nodes, values, seen) <==>
      && ChildrenFit(schema, authorize, f, n, depth, nodes, values, seen)
      && NodeFits(schema, authorize, f.children[n], depth, nodes + SizeUpTo(f, n),
                  values + ValueCount(LeavesUpTo(f, n)), seen + KeySet(LeavesUpTo(f, n)))
  {
    ShapeNext(schema, f, n);
    assert ValueCount(LeavesUpTo(f, n + 1)) == ValueCount(LeavesUpTo(f, n)) + ValueCount(Leaves(f.children[n])) by {
      LeavesNext(f, n);
    }
    LeavesFitNext(schema, authorize, f, n, seen);
  }

  lemma ShapeNext(schema: Schema, f: Filter, n: nat)
    requires n < |f.children|
    ensures GroupsOkUpTo(schema, f, n + 1) <==> GroupsOkUpTo(schema, f, n) && GroupsOk(schema, f.children[n])
    ensures HeightUpTo(f, n + 1) == Max(HeightUpTo(f, n), Height(f.children[n]))
    ensures SizeUpTo(f, n + 1) == SizeUpTo(f, n) + Size(f.children[n])
  {
  }

  lemma {:induction false} ChildrenFitFewer(schema: Schema, authorize: Authorizer, f: Filter, m: nat, n: nat,
                                            depth: nat,
                                            nodes: nat, values: nat, seen: set<(string, Operator)>)
    requires m <= n <= |f.children| && ChildrenFit(schema, authorize, f, n, depth, nodes, values, seen)
    ensures ChildrenFit(schema, authorize, f, m, depth, nodes, values, seen)
    decreases n
  {
    if m < n {
      ChildrenFitNext(schema, authorize, f, n - 1, depth, nodes, values, seen);
      ChildrenFitFewer(schema, authorize, f, m, n - 1, depth, nodes, values, seen);
    }
  }

  lemma TooManyNodes(schema: Schema, authorize: Authorizer, f: Filter, n: nat, depth: nat,
                     nodes: nat, values: nat, seen: set<(string, Operator)>)
    requires n < |f.children| && nodes + SizeUpTo(f, n) >= schema.bounds.maxFilterNodes
    ensures !ChildrenFit(schema, authorize, f, |f.children|, depth, nodes, values, seen)
  {
    assert SizeUpTo(f, n + 1) == SizeUpTo(f, n) + Size(f.children[n]);
    if ChildrenFit(schema, authorize, f, |f.children|, depth, nodes, values, seen) {
      ChildrenFitFewer(schema, authorize, f, n + 1, |f.children|, depth, nodes, values, seen);
    }
  }

  lemma NotFewer(schema: Schema, authorize: Authorizer, f: Filter, n: nat, depth: nat,
                 nodes: nat, values: nat, seen: set<(string, Operator)>)
    requires n <= |f.children| && !ChildrenFit(schema, authorize, f, n, depth, nodes, values, seen)
    ensures !ChildrenFit(schema, authorize, f, |f.children|, depth, nodes, values, seen)
  {
    if ChildrenFit(schema, authorize, f, |f.children|, depth, nodes, values, seen) {
      ChildrenFitFewer(schema, authorize, f, n, |f.children|, depth, nodes, values, seen);
    }
  }

  /** A group fits if and only if it is allowed and its children fit one level down. */
  lemma GroupFits(schema: Schema, authorize: Authorizer, f: Filter, depth: nat,
                  nodes: nat, values: nat, seen: set<(string, Operator)>)
    requires f.leaf.None? && f.children != [] && depth <= schema.bounds.maxFilterDepth
    ensures Leaves(f) == LeavesUpTo(f, |f.children|)
    ensures NodeFits(schema, authorize, f, depth, nodes, values, seen) <==>
      && f.logic in schema.allowedLogic && (f.logic == Not ==> |f.children| == 1)
      && ChildrenFit(schema, authorize, f, |f.children|, depth + 1, nodes + 1, values, seen)
  {
    assert Leaves(f) == LeavesUpTo(f, |f.children|);
  }

  lemma LeafMeasures(f: Filter)
    requires f.children == []
    ensures Height(f) == 1 && Size(f) == 1
  {
  }

  lemma LeafFits(schema: Schema, authorize: Authorizer, f: Filter, depth: nat,
                 nodes: nat, values: nat, seen: set<(string, Operator)>)
    requires f.leaf.Some? && f.children == [] && depth <= schema.bounds.maxFilterDepth
    requires nodes < schema.bounds.maxFilterNodes
    ensures Leaves(f) == [f.leaf.value] && ValueCount(Leaves(f)) == |f.leaf.value.values|
    ensures KeySet(Leaves(f)) == {Key(f.leaf.value)} && Size(f) == 1
    ensures NodeFits(schema, authorize, f, depth, nodes, values, seen) <==>
      && values + |f.leaf.value.values| <= schema.bounds.maxValues
      && LeafOk(schema, authorize, f.leaf.value)
      && Key(f.leaf.value) !in seen
  {
    var p := f.leaf.value;
    assert Leaves(f) == [p];
    assert [p][..0] == [];
    assert p in [p];
    assert KeySet([p]) == {Key(p)};
    assert LeavesOk(schema, authorize, [p]) <==> LeafOk(schema, authorize, p);
    assert |Keys([p])| == 1;
    LeafMeasures(f);
    assert {Key(p)} !! seen <==> Key(p) !in seen;
    assert LeavesFit(schema, authorize, [p], seen) <==> LeafOk(schema, authorize, p) && Key(p) !in seen;
    assert GroupsOk(schema, f);
  }

  // ---------------------------------------------------------------- cost of a filter

  function CostOf(schema: Schema, f: Filter): int
    decreases f
  {
    if f.leaf.Some? then LeafCost(schema, f.leaf.value) else CostUpTo(schema, f, |f.children|)
  }

  function CostUpTo(schema: Schema, f: Filter, n: nat): int
    requires n <= |f.children|
    decreases f, n
  {
    if n == 0 then 0 else CostUpTo(schema, f, n - 1) + CostOf(schema, f.children[n - 1])
  }

  lemma {:induction false} LeafCostsConcat(schema: Schema, a: seq<Predicate>, b: seq<Predicate>)
    ensures LeafCosts(schema, a + b) == LeafCosts(schema, a) + LeafCosts(schema, b)
  {
    if b == [] {
      assert a + b == a;
    } else {
      LeafCostsConcat(schema, a, b[..|b| - 1]);
      assert (a + b)[..|a + b| - 1] == a + b[..|b| - 1];
    }
  }

  /** On an accepted filter the recursive cost is the sum over its predicates. */
  lemma {:induction false} CostIsLeafCosts(schema: Schema, f: Filter)
    requires GroupsOk(schema, f)
    ensures CostOf(schema, f) == LeafCosts(schema, Leaves(f))
    decreases f
  {
    if f.leaf.Some? {
      assert Leaves(f) == [f.leaf.value] && [f.leaf.value][..0] == [];
    } else {
      assert Leaves(f) == LeavesUpTo(f, |f.children|);
      CostUpToIsLeafCosts(schema, f, |f.children|);
    }
  }

  lemma {:induction false} CostUpToIsLeafCosts(schema: Schema, f: Filter, n: nat)
    requires n <= |f.children| && GroupsOkUpTo(schema, f, n)
    ensures CostUpTo(schema, f, n) == LeafCosts(schema, LeavesUpTo(f, n))
    decreases f, n
  {
    if n > 0 {
      CostUpToIsLeafCosts(schema, f, n - 1);
      CostIsLeafCosts(schema, f.children[n - 1]);
      LeafCostsConcat(schema, LeavesUpTo(f, n - 1), Leaves(f.children[n - 1]));
    }
  }

  lemma {:induction false} CostNonNegative(schema: Schema, f: Filter)
    requires ValidSchema(schema)
    ensures CostOf(schema, f) >= 0
    decreases f
  {
    if f.leaf.None? {
      CostUpToNonNegative(schema, f, |f.children|);
    }
  }

  lemma {:induction false} CostUpToNonNegative(schema: Schema, f: Filter, n: nat)
    requires ValidSchema(schema) && n <= |f.children|
    ensures CostUpTo(schema, f, n) >= 0
    ensures forall m :: 0 <= m <= n ==> CostUpTo(schema, f, m) <= CostUpTo(schema, f, n)
    decreases f, n
  {
    if n > 0 {
      CostUpToNonNegative(schema, f, n - 1);
      CostNonNegative(schema, f.children[n - 1]);
    }
  }

  function Clip(cost: int): int {
    if cost > MAX_INT then MAX_INT else cost
  }

  /** The recursive cost, which gives up at the largest integer instead of overflowing. */
  method FilterCost(schema: Schema, f: Filter) returns (cost: int)
    requires ValidSchema(schema)
    ensures 0 <= cost && cost == Clip(CostOf(schema, f))
    decreases f
  {
    if f.leaf.Some? {
      return LeafCost(schema, f.leaf.value);
    }
    CostUpToNonNegative(schema, f, |f.children|);
    cost := 0;
    for i := 0 to |f.children|
      invariant 0 <= cost && cost == Clip(CostUpTo(schema, f, i))
    {
      var child := FilterCost(schema, f.children[i]);
      CostNonNegative(schema, f.children[i]);
      if child > MAX_INT - cost {
        assert CostUpTo(schema, f, i + 1) >= MAX_INT;
        return MAX_INT;
      }
      cost := cost + child;
    }
  }
}
