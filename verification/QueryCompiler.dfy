/** Compiling a request into a plan: violations, cost and the parts of the plan. */
module QueryCompiler {
  import opened Collections
  import opened QueryModel
  import opened QueryFilters
  import opened QueryParts

  datatype Code = LimitExceeded | InvalidElement | Conflict | Unsupported | Authorization | CostLimit | Other

  datatype Violation = Violation(code: Code, path: string)

  datatype Outcome = Compiled(plan: Plan) | Refused(violations: seq<Violation>)

  /** How far a compilation had come when it entered a group. */
  datatype Mark = Mark(raised: nat, nodes: int, values: int, seen: set<(string, Operator)>)

  /** From `start` the first `n` children of `f` led to `m`. */
  ghost predicate Reached(f: Filter, n: nat, start: Mark, m: Mark)
    requires n <= |f.children|
  {
    && m.nodes == start.nodes + SizeUpTo(f, n) && m.values == start.values + ValueCount(LeavesUpTo(f, n))
    && m.seen == start.seen + KeySet(LeavesUpTo(f, n))
  }

  lemma ReachedNext(f: Filter, n: nat, start: Mark, m: Mark, after: Mark)
    requires n < |f.children| && Reached(f, n, start, m)
    requires after.nodes == m.nodes + Size(f.children[n])
    requires after.values == m.values + ValueCount(Leaves(f.children[n]))
    requires after.seen == m.seen + KeySet(Leaves(f.children[n]))
    ensures Reached(f, n + 1, start, after)
  {
    LeavesNext(f, n);
  }

  /** The violation collector and the plan under construction. */
  class Compilation {
    const schema: Schema
    const authorize: Authorizer
    var items: seq<Violation>
    /** Every violation that was added, including those the full collector dropped, and their number. */
    ghost var log: seq<Violation>
    ghost var raised: nat
    var cost: int
    var costExceeded: bool
    /** The cost so far without any limit. */
    ghost var spent: int
    var responseFields: seq<string>
    var executionFields: seq<string>
    var includes: seq<string>
    var nodes: int
    var values: int
    var seen: set<(string, Operator)>

    /** The collector keeps the first violations up to its limit; the bounded cost is exact until it gives up. */
    ghost predicate Right()
      reads this
    {
      && schema.bounds.maxErrors > 0
      && |items| == (if raised > schema.bounds.maxErrors then schema.bounds.maxErrors else raised)
      && raised == |log| && items <= log
      && (if costExceeded then spent > schema.bounds.maxCost else 1 <= cost == spent <= schema.bounds.maxCost)
    }

    constructor (schema: Schema, authorize: Authorizer)
      requires ValidSchema(schema)
      ensures this.schema == schema && this.authorize == authorize
      ensures Right() && raised == 0 && spent == 1 && responseFields == [] && executionFields == [] && includes == []
    {
      this.schema, this.authorize := schema, authorize;
      items, log, raised, cost, costExceeded, spent := [], [], 0, 1, false, 1;
      responseFields, executionFields, includes := [], [], [];
      nodes, values, seen := 0, 0, {};
    }

    /** Adding a violation: once the collector is full the rest are dropped. */
    method Raise(code: Code, path: string)
      requires Right()
      modifies `items, `raised, `log
      ensures Right() && raised == old(raised) + 1 && log == old(log) + [Violation(code, path)]
    {
      raised, log := raised + 1, log + [Violation(code, path)];
      if schema.bounds.maxErrors > 0 && |items| >= schema.bounds.maxErrors {
        return;
      }
      items := items + [Violation(code, path)];
    }

    /** addPlanCost: never computes a sum above the limit; `amount` may stand for an `exact` cost out of range. */
    method AddCost(amount: int, ghost exact: int := amount)
      requires Right() && schema.bounds.maxCost <= MAX_INT && amount >= 0
      requires amount == exact || amount == MAX_INT < exact
      modifies `cost, `costExceeded, `spent
      ensures Right() && spent == old(spent) + exact
    {
      spent := spent + exact;
      if costExceeded || amount > schema.bounds.maxCost - cost {
        costExceeded := true;
        return;
      }
      cost := cost + amount;
    }

    // -------------------------------------------------------------- filters

    method ValidateValue(d: FilterDefinition, v: Value, known: set<Value>, path: string)
      requires Right()
      modifies `items, `raised, `log
      ensures Right() && raised >= old(raised)
      ensures raised == old(raised) <==> v !in known && ValueOk(schema, d, v)
    {
      if v in known {
        Raise(Conflict, path);
      }
      if v.kind != d.kind {
        Raise(InvalidElement, path);
      }
      if |v.text| > schema.bounds.maxStringBytes {
        Raise(LimitExceeded, path);
      }
      if v.kind == TypeString && v.text == "" && !d.allowEmpty {
        Raise(InvalidElement, path);
      }
    }

    method ValidateValues(d: FilterDefinition, p: Predicate, path: string)
      requires Right()
      modifies `items, `raised, `log
      ensures Right() && raised >= old(raised)
      ensures raised == old(raised) <==> ValuesOk(schema, d, p)
    {
      if !CountOk(schema, p) {
        Raise(if p.operator == In || p.operator == NotIn then LimitExceeded else Conflict, path);
      }
      var known: set<Value> := {};
      for i := 0 to |p.values|
        invariant Right() && raised >= old(raised)
        invariant known == set v | v in p.values[..i]
        invariant raised == old(raised) <==>
                    && CountOk(schema, p) && Distinct(p.values[..i])
                    && forall v :: v in p.values[..i] ==> ValueOk(schema, d, v)
      {
        assert p.values[..i + 1] == p.values[..i] + [p.values[i]];
        DistinctNext(p.values, i);
        ValidateValue(d, p.values[i], known, path);
        known := known + {p.values[i]};
      }
      assert p.values[..|p.values|] == p.values;
    }

    method CompileFilter(filter: Option<Filter>) returns (r: Option<Filter>)
      requires Right() && ValidSchema(schema)
      modifies `items, `raised, `log, `nodes, `values, `seen
      ensures Right() && raised >= old(raised)
      ensures raised == old(raised) <==> (filter.Some? ==> FilterOk(schema, authorize, filter.value))
      ensures raised == old(raised) ==> r == filter
    {
      if filter.None? {
        return None;
      }
      nodes, values, seen := 0, 0, {};
      WholeFilterFits(schema, authorize, filter.value);
      r := CompileFilterNode(filter.value, 1, "filter");
    }

    /** The predicate branch of compileFilterNode. */
    method CheckLeaf(p: Predicate, path: string) returns (ok: bool)
      requires Right() && 0 <= values <= schema.bounds.maxValues
      modifies `items, `raised, `log, `values, `seen
      ensures Right() && raised >= old(raised) && 0 <= values <= schema.bounds.maxValues
      ensures raised == old(raised) <==>
        && LeafOk(schema, authorize, p) && Key(p) !in old(seen)
        && old(values) + |p.values| <= schema.bounds.maxValues
      ensures raised == old(raised) ==> ok && values == old(values) + |p.values| && seen == old(seen) + {Key(p)}
    {
      if p.name !in schema.filters {
        Raise(InvalidElement, path);
        return false;
      }
      if !authorize(FilterCapability(p.name)) {
        Raise(Authorization, path);
        return false;
      }
      var d := schema.filters[p.name];
      if d.deprecated {
        Raise(Unsupported, path);
        return false;
      }
      if Key(p) in seen {
        Raise(Conflict, path);
        return false;
      }
      seen := seen + {Key(p)};
      if p.operator !in d.operators {
        Raise(Unsupported, path);
      }
      if |p.values| > schema.bounds.maxValues - values {
        Raise(LimitExceeded, path);
        return false;
      }
      values := values + |p.values|;
      ValidateValues(d, p, path);
      ok := true;
    }

    /** Raises nothing if and only if the filter fits, and then returns exactly the filter. */
    method CompileFilterNode(f: Filter, depth: nat, path: string) returns (r: Option<Filter>)
      requires Right() && 0 <= nodes < schema.bounds.maxFilterNodes && 0 <= values <= schema.bounds.maxValues
      modifies `items, `raised, `log, `nodes, `values, `seen
      ensures Right() && raised >= old(raised) && 0 <= values <= schema.bounds.maxValues && old(nodes) < nodes
      ensures raised == old(raised) <==> NodeFits(schema, authorize, f, depth, old(nodes), old(values), old(seen))
      ensures raised == old(raised) ==>
        && r == Some(f) && nodes == old(nodes) + Size(f) && values == old(values) + ValueCount(Leaves(f))
        && seen == old(seen) + KeySet(Leaves(f))
      decreases f
    {
      nodes := nodes + 1;
      if depth > schema.bounds.maxFilterDepth {
        Raise(LimitExceeded, path);
        return None;
      }
      if f.leaf.None? == (f.children == []) {
        Raise(Conflict, path);
        return None;
      }
      if f.leaf.Some? {
        LeafFits(schema, authorize, f, depth, nodes - 1, values, seen);
        var ok := CheckLeaf(f.leaf.value, path);
        return if ok then Some(f) else None;
      }
      GroupFits(schema, authorize, f, depth, nodes - 1, values, seen);
      r := CompileGroup(f, depth, path);
    }

    /** The logical branch: the children in order, until the node limit is reached. */
    method CompileGroup(f: Filter, depth: nat, path: string) returns (r: Option<Filter>)
      requires Right() && 0 <= nodes <= schema.bounds.maxFilterNodes && 0 <= values <= schema.bounds.maxValues
      requires f.leaf.None? && f.children != []  && depth <= schema.bounds.maxFilterDepth
      modifies `items, `raised, `log, `nodes, `values, `seen
      ensures Right() && raised >= old(raised) && 0 <= values <= schema.bounds.maxValues && old(nodes) <= nodes
      ensures raised == old(raised) <==>
        && f.logic in schema.allowedLogic && (f.logic == Not ==> |f.children| == 1)
        && ChildrenFit(schema, authorize, f, |f.children|, depth + 1, old(nodes), old(values), old(seen))
      ensures raised == old(raised) ==>
        && r == Some(f) && nodes == old(nodes) + SizeUpTo(f, |f.children|)
        && values == old(values) + ValueCount(LeavesUpTo(f, |f.children|))
        && seen == old(seen) + KeySet(LeavesUpTo(f, |f.children|))
      decreases f, 1
    {
      if f.logic !in schema.allowedLogic {
        Raise(Unsupported, path);
      }
      if f.logic == Not && |f.children| != 1 {
        Raise(Conflict, path);
      }
      ghost var allowed := f.logic in schema.allowedLogic && (f.logic == Not ==> |f.children| == 1);
      ghost var start := Mark(old(raised), old(nodes), old(values), old(seen));
      var children: seq<Filter> := [];
      for i := 0 to |f.children|
        invariant Right() && Along(f, i, depth, start, allowed, children)
      {
        if nodes >= schema.bounds.maxFilterNodes {
          LimitReached(f, i, depth, start, allowed, children);
          Raise(LimitExceeded, path);
          return Some(Filter(None, f.logic, children));
        }
        children := CompileChild(f, i, depth, path, start, allowed, children);
      }
      assert f.children[..|f.children|] == f.children;
      r := Some(Filter(None, f.logic, children));
    }

    /** The first `n` children of a group are compiled: nothing was raised if and only if all is well so far. */
    ghost predicate Along(f: Filter, n: nat, depth: nat, start: Mark, allowed: bool, children: seq<Filter>)
      requires n <= |f.children|
      reads this
    {
      && 0 <= start.nodes <= nodes && 0 <= start.values && 0 <= values <= schema.bounds.maxValues
      && start.raised <= raised
      && (raised == start.raised <==>
            allowed && ChildrenFit(schema, authorize, f, n, depth + 1, start.nodes, start.values, start.seen))
      && (raised == start.raised ==>
            children == f.children[..n] && Reached(f, n, start, Mark(raised, nodes, values, seen)))
    }

    lemma LimitReached(f: Filter, n: nat, depth: nat, start: Mark, allowed: bool, children: seq<Filter>)
      requires n < |f.children| && Along(f, n, depth, start, allowed, children) && nodes >= schema.bounds.maxFilterNodes
      ensures !(allowed && ChildrenFit(schema, authorize, f, |f.children|, depth + 1, start.nodes, start.values,
                                       start.seen))
    {
      if raised == start.raised {
        TooManyNodes(schema, authorize, f, n, depth + 1, start.nodes, start.values, start.seen);
      } else if allowed {
        NotFewer(schema, authorize, f, n, depth + 1, start.nodes, start.values, start.seen);
      }
    }

    method CompileChild(f: Filter, i: nat, depth: nat, path: string, ghost start: Mark, ghost allowed: bool,
                        before: seq<Filter>)
      returns (children: seq<Filter>)
      requires Right() && i < |f.children| && nodes < schema.bounds.maxFilterNodes
      requires Along(f, i, depth, start, allowed, before)
      modifies `items, `raised, `log, `nodes, `values, `seen
      ensures Right() && Along(f, i + 1, depth, start, allowed, children)
      decreases f, 0
    {
      ChildrenFitNext(schema, authorize, f, i, depth + 1, start.nodes, start.values, start.seen);
      ghost var m := Mark(raised, nodes, values, seen);
      var child := CompileFilterNode(f.children[i], depth + 1, path);
      children := if child.Some? then before + [child.value] else before;
      if raised == start.raised {
        assert m.raised == start.raised && child == Some(f.children[i]);
        assert f.children[..i + 1] == f.children[..i] + [f.children[i]];
        ReachedNext(f, i, start, m, Mark(raised, nodes, values, seen));
      }
    }

    // -------------------------------------------------------------- fields

    method DefaultFields() returns (names: seq<string>)
      ensures names == DefaultNames(schema.fields)
    {
      names := [];
      for i := 0 to |schema.fields|
        invariant names == DefaultNames(schema.fields[..i])
      {
        assert schema.fields[..i + 1][..i] == schema.fields[..i];
        if schema.fields[i].byDefault {
          names := names + [schema.fields[i].name];
        }
      }
      assert schema.fields[..|schema.fields|] == schema.fields;
    }

    /** The requested fields: each declared, current, allowed and named once. */
    method SelectFields(requested: seq<string>)
      requires Right() && ValidSchema(schema) && responseFields == []
      modifies `items, `raised, `log, `cost, `costExceeded, `spent, `responseFields
      ensures Right() && raised >= old(raised) && spent >= old(spent)
      ensures raised == old(raised) <==> FieldsOk(schema, authorize, requested)
      ensures raised == old(raised) ==>
                responseFields == requested && spent == old(spent) + FieldCosts(schema, requested)
    {
      var fields := requested;
      if |fields| > schema.bounds.maxFields {
        Raise(LimitExceeded, "fields");
        fields := fields[..schema.bounds.maxFields];
      }
      var known: set<string> := {};
      for i := 0 to |fields|
        invariant Right() && raised >= old(raised) && spent >= old(spent)
        invariant |requested| > schema.bounds.maxFields ==> raised > old(raised)
        invariant |requested| <= schema.bounds.maxFields ==>
                    fields == requested && (raised == old(raised) <==> FieldsOkUpTo(schema, authorize, requested, i))
        invariant raised == old(raised) ==>
                    && known == (set n | n in requested[..i]) && responseFields == requested[..i]
                    && spent == old(spent) + FieldCosts(schema, requested[..i])
      {
        ghost var before := raised;
        if |requested| <= schema.bounds.maxFields {
          FieldsOkNext(schema, authorize, requested, i);
          assert requested[..i + 1] == requested[..i] + [requested[i]];
          FieldCostsNext(schema, requested[..i], requested[i]);
        }
        known := SelectField(fields[i], known);
      }
      FieldsOkAll(schema, authorize, requested);
      assert |fields| == |requested| ==> requested[..|fields|] == requested;
    }

    method SelectField(name: string, known0: set<string>) returns (known: set<string>)
      requires Right() && ValidSchema(schema)
      modifies `items, `raised, `log, `cost, `costExceeded, `spent, `responseFields
      ensures Right() && raised >= old(raised) && spent >= old(spent)
      ensures raised == old(raised) <==> FieldOk(schema, authorize, name) && name !in known0
      ensures raised == old(raised) ==>
        && known == known0 + {name} && responseFields == old(responseFields) + [name]
        && spent == old(spent) + FieldCost(schema, name)
    {
      known := known0;
      var index := FieldIndex(schema.fields, name);
      if index < 0 {
        Raise(InvalidElement, "fields");
        return;
      }
      if name in known {
        Raise(Conflict, "fields");
        return;
      }
      known := known + {name};
      if schema.fields[index].deprecated {
        Raise(Unsupported, "fields");
        return;
      }
      if !authorize(FieldCapability(name)) {
        Raise(Authorization, "fields");
        return;
      }
      responseFields := responseFields + [name];
      FieldCostIs(schema, index);
      AddCost(schema.fields[index].cost);
    }

    /** One turn of the loop over the declared fields. */
    method Require(field: Field, known0: set<string>) returns (known: set<string>)
      requires Right() && schema.bounds.maxCost <= MAX_INT && field.cost >= 0
      requires forall n :: n in known0 <==> n in responseFields || n in executionFields
      requires field.name !in executionFields
      modifies `cost, `costExceeded, `spent, `executionFields
      ensures Right() && forall n :: n in known <==> n in responseFields || n in executionFields
      ensures if field.required && field.name !in responseFields
              then executionFields == old(executionFields) + [field.name] && spent == old(spent) + field.cost
              else executionFields == old(executionFields) && spent == old(spent)
    {
      known := known0;
      if field.required && field.name !in known {
        executionFields := executionFields + [field.name];
        AddCost(field.cost);
        known := known + {field.name};
      }
    }

    /** Adds the required fields that were not selected, then lists what is executed. */
    method AddRequired()
      requires Right() && ValidSchema(schema) && executionFields == []
      modifies `cost, `costExceeded, `spent, `executionFields
      ensures Right()
      ensures executionFields == Missing(schema.fields, responseFields) + responseFields
      ensures spent == old(spent) + FieldCosts(schema, Missing(schema.fields, responseFields)) >= old(spent)
    {
      var known := set n | n in responseFields;
      for i := 0 to |schema.fields|
        invariant Right() && executionFields == Missing(schema.fields[..i], responseFields)
        invariant spent == old(spent) + FieldCosts(schema, executionFields) >= old(spent)
        invariant forall n :: n in known <==> n in responseFields || n in executionFields
      {
        MissingNext(schema, responseFields, i);
        known := Require(schema.fields[i], known);
      }
      assert schema.fields[..|schema.fields|] == schema.fields;
      executionFields := executionFields + responseFields;
    }

    // -------------------------------------------------------------- includes

    method RelationshipPrefixes(path: string) returns (prefixes: seq<string>)
      ensures prefixes == Prefixes(path)
    {
      prefixes := [];
      for i := 0 to |path|
        invariant prefixes == PrefixesUpTo(path, i)
      {
        if path[i] == '.' {
          prefixes := prefixes + [path[..i]];
        }
      }
      prefixes := prefixes + [path];
    }

    /** Authorizes and pays for one edge, unless an earlier include passed through it. */
    method TakeEdge(edge: string, seenEdges0: set<string>) returns (allowed: bool, seenEdges: set<string>)
      requires Right() && ValidSchema(schema)
      modifies `items, `raised, `log, `cost, `costExceeded, `spent
      ensures Right() && raised == old(raised) + (if allowed then 0 else 1)
      ensures allowed <==> edge in seenEdges0 || authorize(RelationshipCapability(edge))
      ensures seenEdges == if allowed then seenEdges0 + {edge} else seenEdges0
      ensures spent == old(spent) + (if allowed && edge !in seenEdges0 then EdgeCost(schema, edge) else 0) >= old(spent)
    {
      seenEdges := seenEdges0;
      if edge in seenEdges {
        return true, seenEdges;
      }
      if !authorize(RelationshipCapability(edge)) {
        Raise(Authorization, "includes");
        return false, seenEdges;
      }
      AddCost(EdgeCost(schema, edge));
      return true, seenEdges + {edge};
    }

    /** The same, with the list of the edges taken so far. */
    method TakeListed(edge: string, seenEdges0: set<string>, ghost edges: seq<string>)
      returns (allowed: bool, seenEdges: set<string>, ghost taken: seq<string>)
      requires Right() && ValidSchema(schema) && seenEdges0 == NameSet(edges)
      modifies `items, `raised, `log, `cost, `costExceeded, `spent
      ensures Right() && raised == old(raised) + (if allowed then 0 else 1) && spent >= old(spent)
      ensures allowed <==> edge in edges || authorize(RelationshipCapability(edge))
      ensures taken == (if allowed && edge !in edges then edges + [edge] else edges) && seenEdges == NameSet(taken)
      ensures spent == old(spent) - EdgeCosts(schema, edges) + EdgeCosts(schema, taken)
    {
      NameSetNext(edges, edge);
      EdgeCostsNext(schema, edges, edge);
      allowed, seenEdges := TakeEdge(edge, seenEdges0);
      taken := if allowed && edge !in edges then edges + [edge] else edges;
    }

    /** Authorizes and pays for the edges of one include that no earlier include passed through. */
    method TakeEdges(name: string, seenEdges0: set<string>, ghost edges: seq<string>)
      returns (allowed: bool, seenEdges: set<string>, ghost taken: seq<string>)
      requires Right() && ValidSchema(schema) && seenEdges0 == NameSet(edges)
      modifies `items, `raised, `log, `cost, `costExceeded, `spent
      ensures Right() && raised >= old(raised) && spent >= old(spent)
      ensures allowed <==> raised == old(raised)
      ensures AllAuthorized(authorize, edges) ==> (allowed <==> AllAuthorized(authorize, Prefixes(name)))
      ensures seenEdges == NameSet(taken)
      ensures allowed ==> taken == AddNew(edges, Prefixes(name))
      ensures allowed ==>
                spent == old(spent) - EdgeCosts(schema, edges) + EdgeCosts(schema, AddNew(edges, Prefixes(name)))
    {
      var prefixes := RelationshipPrefixes(name);
      seenEdges, taken := seenEdges0, edges;
      for j := 0 to |prefixes|
        invariant Right() && raised == old(raised) && spent >= old(spent)
        invariant taken == AddNew(edges, prefixes[..j]) && seenEdges == NameSet(taken)
        invariant AllAuthorized(authorize, edges) ==> AllAuthorized(authorize, prefixes[..j])
        invariant spent == old(spent) - EdgeCosts(schema, edges) + EdgeCosts(schema, taken)
      {
        TakenNext(schema, authorize, edges, prefixes, j);
        allowed, seenEdges, taken := TakeListed(prefixes[j], seenEdges, taken);
        if !allowed {
          assert prefixes[j] in prefixes;
          return;
        }
      }
      assert prefixes[..|prefixes|] == prefixes;
      allowed := true;
    }

    method TakeInclude(name: string, known0: set<string>, seenEdges0: set<string>, ghost edges: seq<string>)
      returns (known: set<string>, seenEdges: set<string>, ghost taken: seq<string>)
      requires Right() && ValidSchema(schema) && seenEdges0 == NameSet(edges)
      modifies `items, `raised, `log, `cost, `costExceeded, `spent, `includes
      ensures Right() && raised >= old(raised) && spent >= old(spent)
      ensures AllAuthorized(authorize, edges) ==>
        (raised == old(raised) <==>
           IncludeOk(schema, name) && name !in known0 && AllAuthorized(authorize, Prefixes(name)))
      ensures seenEdges == NameSet(taken)
      ensures raised == old(raised) ==>
        && known == known0 + {name} && includes == old(includes) + [name] && taken == AddNew(edges, Prefixes(name))
        && spent == old(spent) - EdgeCosts(schema, edges) + EdgeCosts(schema, AddNew(edges, Prefixes(name)))
    {
      known, seenEdges, taken := known0, seenEdges0, edges;
      if name !in schema.relationships {
        Raise(InvalidElement, "includes");
        return;
      }
      if schema.relationships[name].depth > schema.bounds.maxIncludeDepth {
        Raise(LimitExceeded, "includes");
        return;
      }
      if name in known {
        Raise(Conflict, "includes");
        return;
      }
      known := known + {name};
      var allowed: bool;
      allowed, seenEdges, taken := TakeEdges(name, seenEdges, edges);
      if !allowed {
        return;
      }
      includes := includes + [name];
    }

    /** The first `i` includes are taken: nothing was raised since `start` if and only if all is well so far. */
    ghost predicate Included(names: seq<string>, i: nat, known: set<string>, edges: seq<string>, start: nat, paid: int)
      requires i <= |names|
      reads this
    {
      && raised >= start && spent >= paid
      && (raised == start <==> IncludesOkUpTo(schema, authorize, names, i))
      && (raised == start ==>
            && known == (set n | n in names[..i]) && includes == names[..i]
            && edges == Edges(names[..i]) && spent == paid + EdgeCosts(schema, edges))
    }

    method TakeNext(names: seq<string>, i: nat, known0: set<string>, seenEdges0: set<string>, ghost edges0: seq<string>,
                    ghost start: nat, ghost paid: int)
      returns (known: set<string>, seenEdges: set<string>, ghost edges: seq<string>)
      requires Right() && ValidSchema(schema) && i < |names| && seenEdges0 == NameSet(edges0)
      requires Included(names, i, known0, edges0, start, paid)
      modifies `items, `raised, `log, `cost, `costExceeded, `spent, `includes
      ensures Right() && seenEdges == NameSet(edges) && Included(names, i + 1, known, edges, start, paid)
    {
      IncludesOkNext(schema, authorize, names, i);
      assert names[..i + 1] == names[..i] + [names[i]];
      known, seenEdges, edges := TakeInclude(names[i], known0, seenEdges0, edges0);
    }

    /** The loop over the includes. */
    method TakeIncludes(names: seq<string>)
      requires Right() && ValidSchema(schema) && includes == [] && |names| <= schema.bounds.maxIncludes
      modifies `items, `raised, `log, `cost, `costExceeded, `spent, `includes
      ensures Right() && raised >= old(raised) && spent >= old(spent)
      ensures raised == old(raised) <==> IncludesOk(schema, authorize, names)
      ensures raised == old(raised) ==> includes == names && spent == old(spent) + EdgeCosts(schema, Edges(names))
    {
      var known: set<string>, seenEdges: set<string> := {}, {};
      ghost var edges: seq<string> := [];
      for i := 0 to |names|
        invariant Right() && seenEdges == NameSet(edges)
        invariant Included(names, i, known, edges, old(raised), old(spent))
      {
        known, seenEdges, edges := TakeNext(names, i, known, seenEdges, edges, old(raised), old(spent));
      }
      IncludesOkAll(schema, authorize, names);
      assert names[..|names|] == names;
    }

    method CompileIncludes(requested: seq<string>)
      requires Right() && ValidSchema(schema) && includes == []
      modifies `items, `raised, `log, `cost, `costExceeded, `spent, `includes
      ensures Right() && raised >= old(raised) && spent >= old(spent)
      ensures raised == old(raised) <==> IncludesOk(schema, authorize, requested)
      ensures raised == old(raised) ==>
                includes == requested && spent == old(spent) + EdgeCosts(schema, Edges(requested))
    {
      var names := requested;
      if |names| > schema.bounds.maxIncludes {
        Raise(LimitExceeded, "includes");
        names := names[..schema.bounds.maxIncludes];
      }
      TakeIncludes(names);
    }

    // -------------------------------------------------------------- sorts

    method CompileSort(s: SortTerm, known0: set<string>) returns (known: set<string>, r: Option<SortTerm>)
      requires Right()
      modifies `items, `raised, `log
      ensures Right() && raised >= old(raised)
      ensures raised == old(raised) <==> SortOk(schema, authorize, s) && s.name !in known0
      ensures raised == old(raised) ==> known == known0 + {s.name} && r == Some(WithNulls(schema, s))
    {
      known, r := known0, None;
      var index := SortIndex(schema.sorts, s.name);
      if index < 0 {
        Raise(InvalidElement, "sorts");
        return;
      }
      if s.name in known {
        Raise(Conflict, "sorts");
        return;
      }
      known := known + {s.name};
      if s.direction != Ascending && s.direction != Descending {
        Raise(InvalidElement, "sorts");
        return;
      }
      if !authorize(SortCapability(s.name)) {
        Raise(Authorization, "sorts");
        return;
      }
      if s.nulls != Unspecified && s.nulls != First && s.nulls != Last {
        Raise(InvalidElement, "sorts");
        return;
      }
      var declared := schema.sorts[index].nulls;
      if s.nulls != Unspecified && s.nulls != declared {
        Raise(Unsupported, "sorts");
        return;
      }
      r := Some(if s.nulls == Unspecified then s.(nulls := declared) else s);
    }

    method CompileSorts(requested: seq<SortTerm>) returns (result: seq<SortTerm>)
      requires Right() && schema.bounds.maxSorts > 0
      modifies `items, `raised, `log
      ensures Right() && raised >= old(raised)
      ensures raised == old(raised) <==> SortsOk(schema, authorize, requested)
      ensures raised == old(raised) ==> result == AllWithNulls(schema, requested)
    {
      var sorts := requested;
      if |sorts| > schema.bounds.maxSorts {
        Raise(LimitExceeded, "sorts");
        sorts := sorts[..schema.bounds.maxSorts];
      }
      result := [];
      var known: set<string> := {};
      for i := 0 to |sorts|
        invariant Right() && raised >= old(raised)
        invariant |requested| > schema.bounds.maxSorts ==> raised > old(raised)
        invariant |requested| <= schema.bounds.maxSorts ==>
                    sorts == requested && (raised == old(raised) <==> SortsOkUpTo(schema, authorize, requested, i))
        invariant raised == old(raised) ==>
                    && known == (set n | n in SortNames(requested)[..i])
                    && result == AllWithNulls(schema, requested)[..i]
      {
        if |requested| <= schema.bounds.maxSorts {
          SortsOkNext(schema, authorize, requested, i);
          var names, all := SortNames(requested), AllWithNulls(schema, requested);
          assert names[..i + 1] == names[..i] + [names[i]] && all[..i + 1] == all[..i] + [all[i]];
        }
        var r: Option<SortTerm>;
        known, r := CompileSort(sorts[i], known);
        if r.Some? {
          result := result + [r.value];
        }
      }
      SortsOkAll(schema, authorize, requested);
    }

    /** The part of compilePage that completes the order of a cursor page. */
    method AddTieBreaker(cursorMode: bool, sorts: seq<SortTerm>) returns (result: seq<SortTerm>)
      requires Right()
      modifies `items, `raised, `log
      ensures Right() && raised >= old(raised)
      ensures raised == old(raised) <==> TieBreakerOk(schema, authorize, cursorMode, sorts)
      ensures raised == old(raised) ==> result == WithTieBreaker(schema, cursorMode, sorts)
    {
      result := sorts;
      if !cursorMode {
        return;
      }
      var known := set s | s in sorts :: s.name;
      SortNamesAre(sorts);
      for i := 0 to |schema.sorts|
        invariant Right() && raised == old(raised) && result == sorts
        invariant TieBreaker(schema.sorts, 0) == TieBreaker(schema.sorts, i)
      {
        var d := schema.sorts[i];
        if d.tieBreaker {
          if d.name !in known {
            if |sorts| >= schema.bounds.maxSorts {
              Raise(LimitExceeded, "sorts");
              return;
            }
            if !authorize(SortCapability(d.name)) {
              Raise(Authorization, "sorts");
              return;
            }
            result := sorts + [SortTerm(d.name, Ascending, d.nulls)];
          }
          return;
        }
      }
    }

    // -------------------------------------------------------------- the whole

    method RaiseAll(others: seq<Violation>)
      requires Right()
      modifies `items, `raised, `log
      ensures Right() && raised == old(raised) + |others|
    {
      for i := 0 to |others|
        invariant Right() && raised == old(raised) + i
      {
        Raise(others[i].code, others[i].path);
      }
    }

    /** Fields and includes. */
    method CompileSelection(request: Request)
      requires Right() && ValidSchema(schema) && responseFields == [] && executionFields == [] && includes == []
      modifies `items, `raised, `log, `cost, `costExceeded, `spent, `responseFields, `executionFields, `includes
      ensures Right() && raised >= old(raised) && spent >= old(spent)
      ensures raised == old(raised) <==> SelectionOk(schema, authorize, request)
      ensures raised == old(raised) ==>
        && SelectionIs(schema, request, responseFields, executionFields, includes)
        && spent == old(spent) + SelectionCost(schema, request)
    {
      var fields: seq<string>;
      if request.fields.Some? {
        fields := request.fields.value;
      } else {
        fields := DefaultFields();
      }
      SelectFields(fields);
      AddRequired();
      CompileIncludes(Includes(request));
    }

    /** Filter and sorts. */
    method CompileQuestions(request: Request) returns (filter: Option<Filter>, sorts: seq<SortTerm>)
      requires Right() && ValidSchema(schema)
      modifies `items, `raised, `log, `nodes, `values, `seen
      ensures Right() && raised >= old(raised)
      ensures raised == old(raised) <==> QuestionsOk(schema, authorize, request)
      ensures raised == old(raised) ==> filter == request.filter && sorts == PlannedSorts(schema, request)
    {
      filter := CompileFilter(request.filter);
      sorts := CompileSorts(RequestedSorts(schema, request));
      sorts := AddTieBreaker(request.cursorMode, sorts);
    }

    /** The cost of the filter and the sorts, and the final check of the cost. */
    method Pay(filter: Option<Filter>, sorts: seq<SortTerm>)
      requires Right() && ValidSchema(schema)
      modifies `items, `raised, `log, `cost, `costExceeded, `spent
      ensures Right() && raised >= old(raised)
      ensures raised == old(raised) <==> spent <= schema.bounds.maxCost
      ensures filter.None? || GroupsOk(schema, filter.value) ==>
        spent == old(spent) + FilterCosts(schema, filter) + SortCosts(schema, sorts)
      ensures raised == old(raised) ==> cost == spent
    {
      PayForFilter(filter);
      PayForSorts(sorts);
      if costExceeded || cost > schema.bounds.maxCost {
        Raise(CostLimit, "query");
      }
    }

    method PayForFilter(filter: Option<Filter>)
      requires Right() && ValidSchema(schema)
      modifies `cost, `costExceeded, `spent
      ensures Right() && spent >= old(spent)
      ensures filter.None? || GroupsOk(schema, filter.value) ==> spent == old(spent) + FilterCosts(schema, filter)
    {
      if filter.Some? {
        var amount := FilterCost(schema, filter.value);
        if GroupsOk(schema, filter.value) {
          CostIsLeafCosts(schema, filter.value);
        }
        AddCost(amount, CostOf(schema, filter.value));
      }
    }

    method PayForSorts(sorts: seq<SortTerm>)
      requires Right() && ValidSchema(schema)
      modifies `cost, `costExceeded, `spent
      ensures Right() && spent == old(spent) + SortCosts(schema, sorts) >= old(spent)
    {
      for i := 0 to |sorts|
        invariant Right() && spent == old(spent) + SortCosts(schema, sorts[..i]) >= old(spent)
      {
        assert sorts[..i + 1][..i] == sorts[..i];
        SortCostIs(schema, sorts[i].name);
        AddCost(SortCost(schema, sorts[i].name));
      }
      assert sorts[..|sorts|] == sorts;
    }
  }

  lemma WholeFilterFits(schema: Schema, authorize: Authorizer, f: Filter)
    ensures NodeFits(schema, authorize, f, 1, 0, 0, {}) <==> FilterOk(schema, authorize, f)
  {
  }

  /**
   * Compiles a request. `others` are the violations of the checks that are not modelled here: the schema revision,
   * the mandatory constraints, the page and the cursor. The request compiles if and only if there are none of these
   * and it is acceptable, and then the plan is exactly what was asked for, at its exact cost.
   */
  method Compile(schema: Schema, authorize: Authorizer, request: Request, others: seq<Violation>) returns (r: Outcome)
    requires ValidSchema(schema)
    ensures r.Compiled? <==> others == [] && Acceptable(schema, authorize, request)
    ensures r.Compiled? ==> r.plan == PlanOf(schema, request)
    ensures r.Refused? ==> 0 < |r.violations| <= schema.bounds.maxErrors
  {
    var c := new Compilation(schema, authorize);
    c.RaiseAll(others);
    c.CompileSelection(request);
    var filter, sorts := c.CompileQuestions(request);
    c.Pay(filter, sorts);
    if c.items != [] {
      return Refused(c.items);
    }
    return Compiled(Plan(c.responseFields, c.executionFields, c.includes, filter, sorts, c.cost));
  }

  lemma SortNamesAre(sorts: seq<SortTerm>)
    ensures forall n :: n in SortNames(sorts) <==> n in set s | s in sorts :: s.name
  {
    forall n
      ensures n in SortNames(sorts) <==> n in set s | s in sorts :: s.name
    {
      if n in SortNames(sorts) {
        var i :| 0 <= i < |sorts| && SortNames(sorts)[i] == n;
        assert sorts[i] in sorts;
      }
      if s :| s in sorts && s.name == n {
        var i :| 0 <= i < |sorts| && sorts[i] == s;
        assert SortNames(sorts)[i] == n;
      }
    }
  }
}
