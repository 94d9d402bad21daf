/** Fields, includes and sorts: how the acceptance of a list splits off its last element. */
module QueryParts {
  import opened Collections
  import opened QueryModel
  import opened QueryFilters

  lemma DistinctNext<T>(s: seq<T>, i: nat)
    requires i < |s|
    ensures Distinct(s[..i + 1]) <==> Distinct(s[..i]) && s[i] !in s[..i]
  {
    var front, longer := s[..i], s[..i + 1];
    assert longer == front + [s[i]] && longer[i] == s[i];
    if Distinct(longer) {
      DistinctParts(front, [s[i]]);
      assert s[i] in [s[i]];
    }
  }

  // ---------------------------------------------------------------- fields

  lemma {:induction false} FieldIndexFinds(fields: seq<Field>, i: nat)
    requires i < |fields| && forall j, k :: 0 <= j < k < |fields| ==> fields[j].name != fields[k].name
    ensures FieldIndex(fields, fields[i].name) == i
  {
  }

  lemma FieldCostIs(schema: Schema, i: nat)
    requires ValidSchema(schema) && i < |schema.fields|
    ensures FieldCost(schema, schema.fields[i].name) == schema.fields[i].cost >= 0
  {
    FieldIndexFinds(schema.fields, i);
    assert schema.fields[i] in schema.fields;
  }

  lemma FieldCostsNext(schema: Schema, names: seq<string>, n: string)
    ensures FieldCosts(schema, names + [n]) == FieldCosts(schema, names) + FieldCost(schema, n)
  {
    assert (names + [n])[..|names|] == names;
  }

  ghost predicate FieldsOkUpTo(schema: Schema, authorize: Authorizer, names: seq<string>, n: nat)
    requires n <= |names|
  {
    && |names| <= schema.bounds.maxFields && Distinct(names[..n])
    && forall k :: 0 <= k < n ==> FieldOk(schema, authorize, names[k])
  }

  lemma FieldsOkNext(schema: Schema, authorize: Authorizer, names: seq<string>, n: nat)
    requires n < |names|
    ensures FieldsOkUpTo(schema, authorize, names, n + 1) <==>
      FieldsOkUpTo(schema, authorize, names, n) && FieldOk(schema, authorize, names[n]) && names[n] !in names[..n]
  {
    DistinctNext(names, n);
  }

  lemma FieldsOkAll(schema: Schema, authorize: Authorizer, names: seq<string>)
    ensures FieldsOkUpTo(schema, authorize, names, |names|) <==> FieldsOk(schema, authorize, names)
  {
    assert names[..|names|] == names;
  }

  lemma {:induction false} MissingAre(fields: seq<Field>, selected: seq<string>, n: string)
    ensures n in Missing(fields, selected) <==> n !in selected && exists f :: f in fields && f.required && f.name == n
  {
    if fields != [] {
      var front, last := fields[..|fields| - 1], fields[|fields| - 1];
      assert fields == front + [last];
      MissingAre(front, selected, n);
    }
  }

  /** One turn of the loop over declared fields. */
  lemma MissingNext(schema: Schema, selected: seq<string>, i: nat)
    requires ValidSchema(schema) && i < |schema.fields|
    ensures var field, before := schema.fields[i], Missing(schema.fields[..i], selected);
            var after := Missing(schema.fields[..i + 1], selected);
            && field.name !in before && field.cost >= 0
            && after == (if field.required && field.name !in selected then before + [field.name] else before)
            && FieldCosts(schema, before + [field.name]) == FieldCosts(schema, before) + field.cost
  {
    var front, field := schema.fields[..i], schema.fields[i];
    assert schema.fields[..i + 1][..i] == front;
    MissingAre(front, selected, field.name);
    FieldCostIs(schema, i);
    FieldCostsNext(schema, Missing(front, selected), field.name);
  }

  /** Every required field is executed, whether it was selected or not, and nothing else is added. */
  lemma RequiredAreExecuted(schema: Schema, request: Request, n: string)
    ensures n in PlanOf(schema, request).executionFields <==>
      || n in SelectedFields(schema, request)
      || exists f :: f in schema.fields && f.required && f.name == n
  {
    MissingAre(schema.fields, SelectedFields(schema, request), n);
  }

  // ---------------------------------------------------------------- includes

  lemma {:induction false} AddNewAre(known: seq<string>, more: seq<string>)
    ensures forall e :: e in AddNew(known, more) <==> e in known || e in more
    ensures Distinct(known) ==> Distinct(AddNew(known, more))
  {
    if more != [] {
      AddNewAre(known, more[..|more| - 1]);
      assert more == more[..|more| - 1] + [more[|more| - 1]];
    }
  }

  /** The edges are counted once each, and are exactly the steps on the way to some include. */
  lemma {:induction false} EdgesAre(includes: seq<string>)
    ensures Distinct(Edges(includes))
    ensures forall e :: e in Edges(includes) <==> exists n :: n in includes && e in Prefixes(n)
  {
    if includes != [] {
      var front, last := includes[..|includes| - 1], includes[|includes| - 1];
      assert includes == front + [last];
      EdgesAre(front);
      AddNewAre(Edges(front), Prefixes(last));
    }
  }

  lemma {:induction false} PrefixesUpToAre(path: string, n: nat, e: string)
    requires n <= |path|
    ensures e in PrefixesUpTo(path, n) <==> exists k :: 0 <= k < n && path[k] == '.' && e == path[..k]
  {
    if n > 0 {
      PrefixesUpToAre(path, n - 1, e);
    }
  }

  lemma PrefixesAre(path: string, e: string)
    ensures e in Prefixes(path) <==> e == path || exists k :: 0 <= k < |path| && path[k] == '.' && e == path[..k]
  {
    PrefixesUpToAre(path, |path|, e);
  }

  lemma EdgeCostsNext(schema: Schema, edges: seq<string>, e: string)
    ensures EdgeCosts(schema, edges + [e]) == EdgeCosts(schema, edges) + EdgeCost(schema, e)
  {
    assert (edges + [e])[..|edges|] == edges;
  }

  ghost function NameSet(names: seq<string>): set<string> {
    set n | n in names
  }

  lemma NameSetNext(names: seq<string>, n: string)
    ensures NameSet(names + [n]) == NameSet(names) + {n} && (n in NameSet(names) <==> n in names)
    ensures n in names ==> NameSet(names) + {n} == NameSet(names)
  {
  }

  /** One more edge on the way to an include. */
  lemma TakenNext(schema: Schema, authorize: Authorizer, edges: seq<string>, prefixes: seq<string>, j: nat)
    requires j < |prefixes|
    ensures var before, after := AddNew(edges, prefixes[..j]), AddNew(edges, prefixes[..j + 1]);
            && after == (if prefixes[j] in before then before else before + [prefixes[j]])
            && EdgeCosts(schema, after) ==
               EdgeCosts(schema, before) + (if prefixes[j] in before then 0 else EdgeCost(schema, prefixes[j]))
            && (prefixes[j] in before <==> prefixes[j] in edges || prefixes[j] in prefixes[..j])
    ensures AllAuthorized(authorize, prefixes[..j + 1]) <==>
              AllAuthorized(authorize, prefixes[..j]) && authorize(RelationshipCapability(prefixes[j]))
  {
    var before := AddNew(edges, prefixes[..j]);
    assert prefixes[..j + 1] == prefixes[..j] + [prefixes[j]] && prefixes[..j + 1][..j] == prefixes[..j];
    AddNewAre(edges, prefixes[..j]);
    EdgeCostsNext(schema, before, prefixes[j]);
  }

  ghost predicate IncludesOkUpTo(schema: Schema, authorize: Authorizer, includes: seq<string>, n: nat)
    requires n <= |includes|
  {
    && |includes| <= schema.bounds.maxIncludes && Distinct(includes[..n])
    && (forall k :: 0 <= k < n ==> IncludeOk(schema, includes[k]))
    && (forall e :: e in Edges(includes[..n]) ==> authorize(RelationshipCapability(e)))
  }

  ghost predicate AllAuthorized(authorize: Authorizer, edges: seq<string>) {
    forall e :: e in edges ==> authorize(RelationshipCapability(e))
  }

  lemma IncludesOkNext(schema: Schema, authorize: Authorizer, includes: seq<string>, n: nat)
    requires n < |includes|
    ensures Edges(includes[..n + 1]) == AddNew(Edges(includes[..n]), Prefixes(includes[n]))
    ensures IncludesOkUpTo(schema, authorize, includes, n + 1) <==>
      && IncludesOkUpTo(schema, authorize, includes, n) && IncludeOk(schema, includes[n])
      && includes[n] !in includes[..n] && AllAuthorized(authorize, Prefixes(includes[n]))
  {
    DistinctNext(includes, n);
    assert includes[..n + 1][..n] == includes[..n];
    AddNewAre(Edges(includes[..n]), Prefixes(includes[n]));
  }

  lemma IncludesOkAll(schema: Schema, authorize: Authorizer, includes: seq<string>)
    ensures IncludesOkUpTo(schema, authorize, includes, |includes|) <==> IncludesOk(schema, authorize, includes)
  {
    assert includes[..|includes|] == includes;
  }

  // ---------------------------------------------------------------- sorts

  ghost predicate SortsOkUpTo(schema: Schema, authorize: Authorizer, sorts: seq<SortTerm>, n: nat)
    requires n <= |sorts|
  {
    && |sorts| <= schema.bounds.maxSorts && Distinct(SortNames(sorts)[..n])
    && forall k :: 0 <= k < n ==> SortOk(schema, authorize, sorts[k])
  }

  lemma SortsOkNext(schema: Schema, authorize: Authorizer, sorts: seq<SortTerm>, n: nat)
    requires n < |sorts|
    ensures SortsOkUpTo(schema, authorize, sorts, n + 1) <==>
      && SortsOkUpTo(schema, authorize, sorts, n) && SortOk(schema, authorize, sorts[n])
      && sorts[n].name !in SortNames(sorts)[..n]
  {
    DistinctNext(SortNames(sorts), n);
  }

  lemma SortsOkAll(schema: Schema, authorize: Authorizer, sorts: seq<SortTerm>)
    ensures SortsOkUpTo(schema, authorize, sorts, |sorts|) <==> SortsOk(schema, authorize, sorts)
  {
    assert SortNames(sorts)[..|sorts|] == SortNames(sorts);
    if SortsOk(schema, authorize, sorts) {
      assert forall k :: 0 <= k < |sorts| ==> sorts[k] in sorts;
    }
  }

  lemma SortCostIs(schema: Schema, name: string)
    requires ValidSchema(schema)
    ensures SortCost(schema, name) >= 0
  {
    var i := SortIndex(schema.sorts, name);
    if i >= 0 {
      assert schema.sorts[i] in schema.sorts;
    }
  }
}
