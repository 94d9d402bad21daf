/** What an accepted request amounts to: operands that fit its operators, a complete order, and the cost of its plan. */
module QueryPlans {
  import opened Collections
  import opened QueryModel

  // ---------------------------------------------------------------- operands

  /** The fewest and the most operands of an operator. */
  function Arity(bounds: Bounds, operator: Operator): (int, int) {
    if operator == IsNull then (0, 0)
    else if operator == Between then (2, 2)
    else if operator == In || operator == NotIn then (1, bounds.maxMembership)
    else (1, 1)
  }

  /** Operands are accepted if and only if the operator takes that many, no two are equal, and each is of the type. */
  lemma OperandsFit(schema: Schema, d: FilterDefinition, p: Predicate)
    ensures var (least, most) := Arity(schema.bounds, p.operator);
            ValuesOk(schema, d, p) <==>
              && least <= |p.values| <= most
              && (forall i, j :: 0 <= i < j < |p.values| ==> p.values[i] != p.values[j])
              && (forall i :: 0 <= i < |p.values| ==>
                    && p.values[i].kind == d.kind && |p.values[i].text| <= schema.bounds.maxStringBytes
                    && (p.values[i] == Value(TypeString, "") ==> d.allowEmpty))
  {
    var (least, most) := Arity(schema.bounds, p.operator);
    assert CountOk(schema, p) <==> least <= |p.values| <= most;
    assert (forall v :: v in p.values ==> ValueOk(schema, d, v)) <==>
           (forall i :: 0 <= i < |p.values| ==> ValueOk(schema, d, p.values[i]));
  }

  // ---------------------------------------------------------------- order

  /** `t` is the first tie-breaker that the schema declares. */
  ghost predicate IsFirstTieBreaker(schema: Schema, t: nat) {
    t < |schema.sorts| && schema.sorts[t].tieBreaker && forall i :: 0 <= i < t ==> !schema.sorts[i].tieBreaker
  }

  lemma {:induction false} TieBreakerFound(sorts: seq<SortDefinition>, i: nat, t: nat)
    requires i <= t < |sorts| && sorts[t].tieBreaker && forall k :: i <= k < t ==> !sorts[k].tieBreaker
    ensures TieBreaker(sorts, i) == t
    decreases t - i
  {
    if i < t {
      TieBreakerFound(sorts, i + 1, t);
    }
  }

  lemma {:induction false} NoTieBreaker(sorts: seq<SortDefinition>, i: nat)
    requires forall k :: i <= k < |sorts| ==> !sorts[k].tieBreaker
    ensures TieBreaker(sorts, i) == -1
    decreases |sorts| - i
  {
    if i < |sorts| {
      NoTieBreaker(sorts, i + 1);
    }
  }

  lemma NamesKept(schema: Schema, sorts: seq<SortTerm>)
    ensures SortNames(AllWithNulls(schema, sorts)) == SortNames(sorts)
  {
  }

  /**
   * The order of a cursor page: the sorts asked for come first, in order and with their direction; the schema's first
   * tie-breaker is among them or is added as the last one, ascending; and no name is sorted by twice.
   */
  lemma CursorOrderIsComplete(schema: Schema, authorize: Authorizer, request: Request, t: nat)
    requires request.cursorMode && IsFirstTieBreaker(schema, t)
    requires SortsOk(schema, authorize, RequestedSorts(schema, request))
    ensures var asked, planned := RequestedSorts(schema, request), PlannedSorts(schema, request);
            && |asked| <= |planned| <= |asked| + 1
            && (forall i :: 0 <= i < |asked| ==>
                  planned[i].name == asked[i].name && planned[i].direction == asked[i].direction)
            && schema.sorts[t].name in SortNames(planned) && Distinct(SortNames(planned))
            && (|planned| > |asked| ==>
                  planned[|asked|] == SortTerm(schema.sorts[t].name, Ascending, schema.sorts[t].nulls))
  {
    var asked, planned := RequestedSorts(schema, request), PlannedSorts(schema, request);
    var filled := AllWithNulls(schema, asked);
    TieBreakerFound(schema.sorts, 0, t);
    NamesKept(schema, asked);
    if schema.sorts[t].name !in SortNames(filled) {
      assert SortNames(planned) == SortNames(filled) + [schema.sorts[t].name];
      assert SortNames(planned)[|asked|] == schema.sorts[t].name;
    }
  }

  /** Without a cursor, or without a declared tie-breaker, the order is the one asked for. */
  lemma PlainOrderIsKept(schema: Schema, request: Request)
    requires !request.cursorMode || forall i :: 0 <= i < |schema.sorts| ==> !schema.sorts[i].tieBreaker
    ensures SortNames(PlannedSorts(schema, request)) == SortNames(RequestedSorts(schema, request))
  {
    NamesKept(schema, RequestedSorts(schema, request));
    if request.cursorMode {
      NoTieBreaker(schema.sorts, 0);
    }
  }

  lemma {:induction false} SortFound(sorts: seq<SortDefinition>, k: nat)
    requires k < |sorts| && forall i, j :: 0 <= i < j < |sorts| ==> sorts[i].name != sorts[j].name
    ensures SortIndex(sorts, sorts[k].name) == k
  {
  }

  /** A sort that says nothing about nulls gets the declared order of nulls, and one that says something keeps it. */
  lemma NullsAreFilled(schema: Schema, request: Request, i: nat, k: nat)
    requires ValidSchema(schema) && i < |RequestedSorts(schema, request)| && k < |schema.sorts|
    requires schema.sorts[k].name == RequestedSorts(schema, request)[i].name
    ensures var s := RequestedSorts(schema, request)[i];
            PlannedSorts(schema, request)[i].nulls == if s.nulls == Unspecified then schema.sorts[k].nulls else s.nulls
  {
    SortFound(schema.sorts, k);
  }

  // ---------------------------------------------------------------- cost

  /** The cost of what a plan executes: one, its fields, the edges it follows, its predicates and its sorts. */
  function CostOf(schema: Schema, p: Plan): int {
    1 + FieldCosts(schema, p.executionFields) + EdgeCosts(schema, Edges(p.includes))
    + FilterCosts(schema, p.filter) + SortCosts(schema, p.sorts)
  }

  lemma {:induction false} FieldCostsConcat(schema: Schema, a: seq<string>, b: seq<string>)
    ensures FieldCosts(schema, a + b) == FieldCosts(schema, a) + FieldCosts(schema, b)
    decreases |b|
  {
    if b == [] {
      assert a + b == a;
    } else {
      var n := |b| - 1;
      assert (a + b)[..|a + b| - 1] == a + b[..n] && (a + b)[|a + b| - 1] == b[n];
      FieldCostsConcat(schema, a, b[..n]);
    }
  }

  /** The cost charged for a request is that of everything its plan executes, the required and added parts included. */
  lemma CostIsOfPlan(schema: Schema, request: Request)
    ensures PlanOf(schema, request).cost == CostOf(schema, PlanOf(schema, request))
  {
    var fields := SelectedFields(schema, request);
    FieldCostsConcat(schema, Missing(schema.fields, fields), fields);
  }

  /** Fields are asked for by name or, when none are, those that the schema selects by default. */
  lemma {:induction false} DefaultsAre(fields: seq<Field>, n: string)
    ensures n in DefaultNames(fields) <==> exists f :: f in fields && f.byDefault && f.name == n
  {
    if fields != [] {
      DefaultsAre(fields[..|fields| - 1], n);
      assert forall f :: f in fields <==> f in fields[..|fields| - 1] || f == fields[|fields| - 1];
    }
  }
}
