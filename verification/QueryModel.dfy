/** Query requests, schemas, and which requests a schema accepts at which cost. */
module QueryModel {
  import opened Collections

  datatype ValueType = TypeString | TypeInt | TypeUint | TypeFloat | TypeBool | TypeTime | TypeBytes | TypeNull

  datatype Value = Value(kind: ValueType, text: string)

  datatype Operator =
    | Equal | NotEqual | Less | LessOrEqual | Greater | GreaterOrEqual
    | Contains | StartsWith | EndsWith | IsNull | Between | In | NotIn
    | OtherOperator(name: string)

  datatype Logic = And | Or | Not | OtherLogic(name: string)

  datatype Predicate = Predicate(name: string, operator: Operator, values: seq<Value>)

  /** A filter node: one predicate or one logical group, though a request may say both or neither. */
  datatype Filter = Filter(leaf: Option<Predicate>, logic: Logic, children: seq<Filter>)

  datatype Direction = Ascending | Descending | OtherDirection(name: string)

  datatype Nulls = Unspecified | First | Last | OtherNulls(name: string)

  datatype SortTerm = SortTerm(name: string, direction: Direction, nulls: Nulls)

  datatype Field = Field(name: string, byDefault: bool, required: bool, deprecated: bool, cost: int)

  datatype FilterDefinition =
    FilterDefinition(kind: ValueType, operators: seq<Operator>, deprecated: bool, allowEmpty: bool, cost: int)

  datatype SortDefinition = SortDefinition(name: string, tieBreaker: bool, nulls: Nulls, cost: int)

  datatype Relationship = Relationship(cost: int, depth: int)

  datatype Bounds = Bounds(maxFields: int, maxIncludes: int, maxIncludeDepth: int, maxFilterDepth: int,
                           maxFilterNodes: int, maxValues: int, maxMembership: int, maxStringBytes: int, maxSorts: int,
                           maxErrors: int, maxCost: int)

  datatype Schema = Schema(fields: seq<Field>, filters: map<string, FilterDefinition>, sorts: seq<SortDefinition>,
                           relationships: map<string, Relationship>, defaultSort: seq<SortTerm>,
                           allowedLogic: set<Logic>, bounds: Bounds)

  datatype Capability = FieldCapability(name: string) | FilterCapability(name: string)
                      | SortCapability(name: string) | RelationshipCapability(name: string)

  type Authorizer = Capability -> bool

  datatype Request = Request(fields: Option<seq<string>>, includes: Option<seq<string>>, filter: Option<Filter>,
                             sorts: Option<seq<SortTerm>>, cursorMode: bool)

  const MAX_INT := 0x7FFF_FFFF_FFFF_FFFF

  // ---------------------------------------------------------------- schemas

  /** Every dotted prefix of a relationship path, and the path itself. */
  function PrefixesUpTo(path: string, n: nat): seq<string>
    requires n <= |path|
  {
    if n == 0 then [] else PrefixesUpTo(path, n - 1) + if path[n - 1] == '.' then [path[..n - 1]] else []
  }

  function Prefixes(path: string): seq<string> {
    PrefixesUpTo(path, |path|) + [path]
  }

  predicate CostInBounds(schema: Schema, cost: int) {
    0 <= cost <= schema.bounds.maxCost
  }

  /** Every step on the way to a relationship is declared itself. */
  ghost predicate HasAncestors(schema: Schema, name: string) {
    forall p :: p in Prefixes(name) ==> p in schema.relationships
  }

  /** What schema construction guarantees: unique declarations, costs and bounds in range, ancestors declared. */
  ghost predicate ValidSchema(schema: Schema) {
    && schema.bounds.maxFields > 0 && schema.bounds.maxIncludes > 0 && schema.bounds.maxIncludeDepth > 0
    && schema.bounds.maxFilterDepth > 0 && schema.bounds.maxFilterNodes > 0 && schema.bounds.maxValues > 0
    && schema.bounds.maxSorts > 0 && schema.bounds.maxErrors > 0 && 0 < schema.bounds.maxCost <= MAX_INT
    && (forall i, j :: 0 <= i < j < |schema.fields| ==> schema.fields[i].name != schema.fields[j].name)
    && (forall i, j :: 0 <= i < j < |schema.sorts| ==> schema.sorts[i].name != schema.sorts[j].name)
    && (forall f :: f in schema.fields ==> CostInBounds(schema, f.cost))
    && (forall s :: s in schema.sorts ==> CostInBounds(schema, s.cost))
    && (forall n :: n in schema.filters ==> CostInBounds(schema, schema.filters[n].cost))
    && (forall n :: n in schema.relationships ==> CostInBounds(schema, schema.relationships[n].cost))
    && (forall n {:trigger HasAncestors(schema, n)} :: n in schema.relationships ==> HasAncestors(schema, n))
  }

  // ---------------------------------------------------------------- fields

  /** The place of a declared field, or -1. */
  function FieldIndex(fields: seq<Field>, name: string): (r: int)
    ensures -1 <= r < |fields|
    ensures r >= 0 ==> fields[r].name == name
    ensures r == -1 ==> forall i :: 0 <= i < |fields| ==> fields[i].name != name
  {
    if fields == [] then -1
    else if fields[|fields| - 1].name == name then |fields| - 1
    else FieldIndex(fields[..|fields| - 1], name)
  }

  function FieldCost(schema: Schema, name: string): int {
    var i := FieldIndex(schema.fields, name);
    if i >= 0 then schema.fields[i].cost else 0
  }

  predicate FieldOk(schema: Schema, authorize: Authorizer, name: string) {
    var i := FieldIndex(schema.fields, name);
    i >= 0 && !schema.fields[i].deprecated && authorize(FieldCapability(name))
  }

  function DefaultNames(fields: seq<Field>): seq<string> {
    if fields == [] then []
    else
      var last := fields[|fields| - 1];
      DefaultNames(fields[..|fields| - 1]) + if last.byDefault then [last.name] else []
  }

  function SelectedFields(schema: Schema, request: Request): seq<string> {
    if request.fields.Some? then request.fields.value else DefaultNames(schema.fields)
  }

  ghost predicate FieldsOk(schema: Schema, authorize: Authorizer, names: seq<string>) {
    && |names| <= schema.bounds.maxFields && Distinct(names)
    && forall n :: n in names ==> FieldOk(schema, authorize, n)
  }

  function FieldCosts(schema: Schema, names: seq<string>): int {
    if names == [] then 0
    else FieldCosts(schema, names[..|names| - 1]) + FieldCost(schema, names[|names| - 1])
  }

  /** The required fields that were not selected, in the order of declaration. */
  function Missing(fields: seq<Field>, selected: seq<string>): seq<string> {
    if fields == [] then []
    else
      var last := fields[|fields| - 1];
      Missing(fields[..|fields| - 1], selected) + if last.required && last.name !in selected then [last.name] else []
  }

  // ---------------------------------------------------------------- includes

  predicate IncludeOk(schema: Schema, name: string) {
    name in schema.relationships && schema.relationships[name].depth <= schema.bounds.maxIncludeDepth
  }

  function AddNew(known: seq<string>, more: seq<string>): seq<string> {
    if more == [] then known
    else
      var before := AddNew(known, more[..|more| - 1]);
      var last := more[|more| - 1];
      if last in before then before else before + [last]
  }

  /** Every relationship edge that the includes pass through, once each. */
  function Edges(includes: seq<string>): seq<string> {
    if includes == [] then []
    else AddNew(Edges(includes[..|includes| - 1]), Prefixes(includes[|includes| - 1]))
  }

  ghost predicate IncludesOk(schema: Schema, authorize: Authorizer, includes: seq<string>) {
    && |includes| <= schema.bounds.maxIncludes && Distinct(includes)
    && (forall n :: n in includes ==> IncludeOk(schema, n))
    && (forall e :: e in Edges(includes) ==> authorize(RelationshipCapability(e)))
  }

  function EdgeCost(schema: Schema, edge: string): int {
    if edge in schema.relationships then schema.relationships[edge].cost else 0
  }

  function EdgeCosts(schema: Schema, edges: seq<string>): int {
    if edges == [] then 0
    else EdgeCosts(schema, edges[..|edges| - 1]) + EdgeCost(schema, edges[|edges| - 1])
  }

  // ---------------------------------------------------------------- filters

  function Size(f: Filter): nat {
    1 + SizeUpTo(f, |f.children|)
  }

  function SizeUpTo(f: Filter, n: nat): nat
    requires n <= |f.children|
    decreases f, n
  {
    if n == 0 then 0 else SizeUpTo(f, n - 1) + Size(f.children[n - 1])
  }

  function Max(a: nat, b: nat): nat {
    if a > b then a else b
  }

  function Height(f: Filter): nat {
    1 + HeightUpTo(f, |f.children|)
  }

  function HeightUpTo(f: Filter, n: nat): nat
    requires n <= |f.children|
    decreases f, n
  {
    if n == 0 then 0 else Max(HeightUpTo(f, n - 1), Height(f.children[n - 1]))
  }

  /** The predicates of a filter from left to right. */
  function Leaves(f: Filter): seq<Predicate> {
    (if f.leaf.Some? then [f.leaf.value] else []) + LeavesUpTo(f, |f.children|)
  }

  function LeavesUpTo(f: Filter, n: nat): seq<Predicate>
    requires n <= |f.children|
    decreases f, n
  {
    if n == 0 then [] else LeavesUpTo(f, n - 1) + Leaves(f.children[n - 1])
  }

  function ValueCount(leaves: seq<Predicate>): nat {
    if leaves == [] then 0 else ValueCount(leaves[..|leaves| - 1]) + |leaves[|leaves| - 1].values|
  }

  function Key(p: Predicate): (string, Operator) {
    (p.name, p.operator)
  }

  function Keys(leaves: seq<Predicate>): seq<(string, Operator)> {
    seq(|leaves|, i requires 0 <= i < |leaves| => Key(leaves[i]))
  }

  predicate ValueOk(schema: Schema, d: FilterDefinition, v: Value) {
    && v.kind == d.kind && |v.text| <= schema.bounds.maxStringBytes
    && (v.kind == TypeString && v.text == "" ==> d.allowEmpty)
  }

  predicate CountOk(schema: Schema, p: Predicate) {
    match p.operator
    case IsNull => |p.values| == 0
    case Between => |p.values| == 2
    case In => 0 < |p.values| <= schema.bounds.maxMembership
    case NotIn => 0 < |p.values| <= schema.bounds.maxMembership
    case _ => |p.values| == 1
  }

  ghost predicate ValuesOk(schema: Schema, d: FilterDefinition, p: Predicate) {
    && CountOk(schema, p) && Distinct(p.values)
    && forall v :: v in p.values ==> ValueOk(schema, d, v)
  }

  ghost predicate LeafOk(schema: Schema, authorize: Authorizer, p: Predicate) {
    && p.name in schema.filters && authorize(FilterCapability(p.name))
    && !schema.filters[p.name].deprecated && p.operator in schema.filters[p.name].operators
    && ValuesOk(schema, schema.filters[p.name], p)
  }

  /** Every node is one predicate or one allowed group, and negates one child only. */
  predicate GroupsOk(schema: Schema, f: Filter)
    decreases f
  {
    && (f.leaf.None? <==> f.children != [])
    && (f.children != [] ==> f.logic in schema.allowedLogic && (f.logic == Not ==> |f.children| == 1))
    && GroupsOkUpTo(schema, f, |f.children|)
  }

  predicate GroupsOkUpTo(schema: Schema, f: Filter, n: nat)
    requires n <= |f.children|
    decreases f, n
  {
    n == 0 || (GroupsOkUpTo(schema, f, n - 1) && GroupsOk(schema, f.children[n - 1]))
  }

  ghost predicate LeavesOk(schema: Schema, authorize: Authorizer, leaves: seq<Predicate>) {
    forall p :: p in leaves ==> LeafOk(schema, authorize, p)
  }

  /** A filter within all bounds that asks each question at most once. */
  ghost predicate FilterOk(schema: Schema, authorize: Authorizer, f: Filter) {
    && GroupsOk(schema, f) && Height(f) <= schema.bounds.maxFilterDepth && Size(f) <= schema.bounds.maxFilterNodes
    && ValueCount(Leaves(f)) <= schema.bounds.maxValues
    && LeavesOk(schema, authorize, Leaves(f)) && Distinct(Keys(Leaves(f)))
  }

  function LeafCost(schema: Schema, p: Predicate): int {
    if p.name in schema.filters then schema.filters[p.name].cost else 0
  }

  function LeafCosts(schema: Schema, leaves: seq<Predicate>): int {
    if leaves == [] then 0
    else LeafCosts(schema, leaves[..|leaves| - 1]) + LeafCost(schema, leaves[|leaves| - 1])
  }

  // ---------------------------------------------------------------- sorts

  function SortIndex(sorts: seq<SortDefinition>, name: string): (r: int)
    ensures -1 <= r < |sorts|
    ensures r >= 0 ==> sorts[r].name == name
    ensures r == -1 ==> forall i :: 0 <= i < |sorts| ==> sorts[i].name != name
  {
    if sorts == [] then -1
    else if sorts[|sorts| - 1].name == name then |sorts| - 1
    else SortIndex(sorts[..|sorts| - 1], name)
  }

  function SortCost(schema: Schema, name: string): int {
    var i := SortIndex(schema.sorts, name);
    if i >= 0 then schema.sorts[i].cost else 0
  }

  function SortCosts(schema: Schema, sorts: seq<SortTerm>): int {
    if sorts == [] then 0
    else SortCosts(schema, sorts[..|sorts| - 1]) + SortCost(schema, sorts[|sorts| - 1].name)
  }

  function RequestedSorts(schema: Schema, request: Request): seq<SortTerm> {
    if request.sorts.Some? then request.sorts.value else schema.defaultSort
  }

  predicate SortOk(schema: Schema, authorize: Authorizer, s: SortTerm) {
    var i := SortIndex(schema.sorts, s.name);
    && i >= 0 && (s.direction == Ascending || s.direction == Descending) && authorize(SortCapability(s.name))
    && (s.nulls == Unspecified || ((s.nulls == First || s.nulls == Last) && s.nulls == schema.sorts[i].nulls))
  }

  function SortNames(sorts: seq<SortTerm>): seq<string> {
    seq(|sorts|, i requires 0 <= i < |sorts| => sorts[i].name)
  }

  ghost predicate SortsOk(schema: Schema, authorize: Authorizer, sorts: seq<SortTerm>) {
    && |sorts| <= schema.bounds.maxSorts && Distinct(SortNames(sorts))
    && forall s :: s in sorts ==> SortOk(schema, authorize, s)
  }

  function WithNulls(schema: Schema, s: SortTerm): SortTerm {
    var i := SortIndex(schema.sorts, s.name);
    if i >= 0 && s.nulls == Unspecified then s.(nulls := schema.sorts[i].nulls) else s
  }

  function AllWithNulls(schema: Schema, sorts: seq<SortTerm>): seq<SortTerm> {
    seq(|sorts|, i requires 0 <= i < |sorts| => WithNulls(schema, sorts[i]))
  }

  /** The first declared tie-breaker at or after place `i`, or -1. */
  function TieBreaker(sorts: seq<SortDefinition>, i: nat): (r: int)
    ensures -1 <= r < |sorts|
    decreases |sorts| - i
  {
    if i >= |sorts| then -1 else if sorts[i].tieBreaker then i else TieBreaker(sorts, i + 1)
  }

  /** Cursor pages need a total order: whether the tie-breaker has to be added. */
  predicate NeedsTieBreaker(schema: Schema, cursorMode: bool, sorts: seq<SortTerm>) {
    var t := TieBreaker(schema.sorts, 0);
    cursorMode && t >= 0 && schema.sorts[t].name !in SortNames(sorts)
  }

  predicate TieBreakerOk(schema: Schema, authorize: Authorizer, cursorMode: bool, sorts: seq<SortTerm>) {
    NeedsTieBreaker(schema, cursorMode, sorts) ==>
      |sorts| < schema.bounds.maxSorts && authorize(SortCapability(schema.sorts[TieBreaker(schema.sorts, 0)].name))
  }

  function WithTieBreaker(schema: Schema, cursorMode: bool, sorts: seq<SortTerm>): seq<SortTerm> {
    if NeedsTieBreaker(schema, cursorMode, sorts) then
      var d := schema.sorts[TieBreaker(schema.sorts, 0)];
      sorts + [SortTerm(d.name, Ascending, d.nulls)]
    else sorts
  }

  // ---------------------------------------------------------------- requests and plans

  datatype Plan = Plan(responseFields: seq<string>, executionFields: seq<string>, includes: seq<string>,
                       filter: Option<Filter>, sorts: seq<SortTerm>, cost: int)

  function Includes(request: Request): seq<string> {
    if request.includes.Some? then request.includes.value else []
  }

  function PlannedSorts(schema: Schema, request: Request): seq<SortTerm> {
    WithTieBreaker(schema, request.cursorMode, AllWithNulls(schema, RequestedSorts(schema, request)))
  }

  function FilterCosts(schema: Schema, filter: Option<Filter>): int {
    if filter.Some? then LeafCosts(schema, Leaves(filter.value)) else 0
  }

  function SelectionCost(schema: Schema, request: Request): int {
    var fields := SelectedFields(schema, request);
    FieldCosts(schema, fields) + FieldCosts(schema, Missing(schema.fields, fields))
    + EdgeCosts(schema, Edges(Includes(request)))
  }

  /** One, each selected or required field, each edge once, each predicate and each sort. */
  function ExactCost(schema: Schema, request: Request): int {
    1 + SelectionCost(schema, request) + FilterCosts(schema, request.filter)
    + SortCosts(schema, PlannedSorts(schema, request))
  }

  ghost predicate SelectionOk(schema: Schema, authorize: Authorizer, request: Request) {
    && FieldsOk(schema, authorize, SelectedFields(schema, request))
    && IncludesOk(schema, authorize, Includes(request))
  }

  ghost predicate SelectionIs(schema: Schema, request: Request, responseFields: seq<string>,
                              executionFields: seq<string>,
                              includes: seq<string>) {
    && responseFields == SelectedFields(schema, request)
    && executionFields == Missing(schema.fields, responseFields) + responseFields
    && includes == Includes(request)
  }

  ghost predicate QuestionsOk(schema: Schema, authorize: Authorizer, request: Request) {
    && (request.filter.Some? ==> FilterOk(schema, authorize, request.filter.value))
    && SortsOk(schema, authorize, RequestedSorts(schema, request))
    && TieBreakerOk(schema, authorize, request.cursorMode, AllWithNulls(schema, RequestedSorts(schema, request)))
  }

  ghost predicate Acceptable(schema: Schema, authorize: Authorizer, request: Request) {
    && SelectionOk(schema, authorize, request)
    && QuestionsOk(schema, authorize, request)
    && ExactCost(schema, request) <= schema.bounds.maxCost
  }

  function PlanOf(schema: Schema, request: Request): Plan {
    var fields := SelectedFields(schema, request);
    Plan(fields, Missing(schema.fields, fields) + fields, Includes(request), request.filter,
         PlannedSorts(schema, request), ExactCost(schema, request))
  }
}
