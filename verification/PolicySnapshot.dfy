/** Snapshots: validated policies, in priority order where the algorithm asks for it. */
module PolicySnapshot {
  import opened Collections
  import opened Names
  import opened PolicyDecisions

  datatype Evaluator = Evaluator(name: string)

  datatype Definition = Definition(id: Name, priority: int, activeFrom: Option<int>, activeUntil: Option<int>,
                                   evaluator: Option<Evaluator>)

  datatype Policy = Policy(id: Name, priority: int, activeFrom: Option<int>, activeUntil: Option<int>,
                           evaluator: Evaluator)

  datatype Snapshot = Snapshot(revision: nat, algorithm: Algorithm, policies: seq<Policy>)

  datatype SnapshotError = InvalidRevision | UnknownAlgorithm | InvalidPolicy | DuplicatePolicy
    | InvalidActivationWindow

  datatype SnapshotResult = Created(snapshot: Snapshot) | Rejected(error: SnapshotError)

  predicate ActiveAt(p: Policy, at: int) {
    (p.activeFrom.Some? ==> p.activeFrom.value <= at) && (p.activeUntil.Some? ==> at < p.activeUntil.value)
  }

  predicate WindowOk(d: Definition) {
    d.activeFrom.Some? && d.activeUntil.Some? ==> d.activeFrom.value < d.activeUntil.value
  }

  predicate DefinitionOk(d: Definition) {
    d.id != "" && d.evaluator.Some? && WindowOk(d)
  }

  ghost predicate UniqueIds(definitions: seq<Definition>) {
    forall i, j :: 0 <= i < j < |definitions| ==> definitions[i].id != definitions[j].id
  }

  ghost predicate DefinitionsOk(definitions: seq<Definition>) {
    UniqueIds(definitions) && forall i :: 0 <= i < |definitions| ==> DefinitionOk(definitions[i])
  }

  function Entry(d: Definition): Policy
    requires d.evaluator.Some?
  {
    Policy(d.id, d.priority, d.activeFrom, d.activeUntil, d.evaluator.value)
  }

  function Entries(definitions: seq<Definition>): (policies: seq<Policy>)
    requires forall i :: 0 <= i < |definitions| ==> definitions[i].evaluator.Some?
    ensures |policies| == |definitions|
    ensures forall i :: 0 <= i < |definitions| ==> policies[i] == Entry(definitions[i])
  {
    if definitions == [] then []
    else Entries(definitions[..|definitions| - 1]) + [Entry(definitions[|definitions| - 1])]
  }

  // ---------------------------------------------------------------- priority order

  /** Higher priority first, then by identifier. */
  predicate Ahead(a: Policy, b: Policy) {
    a.priority > b.priority || (a.priority == b.priority && Less(a.id, b.id))
  }

  lemma AheadIsTotal(a: Policy, b: Policy)
    ensures a.id == b.id || Ahead(a, b) || Ahead(b, a)
    ensures !(Ahead(a, b) && Ahead(b, a)) && !Ahead(a, a)
  {
    LessIsTotal(a.id, b.id);
    LessIsTotal(a.id, a.id);
  }

  lemma AheadIsTransitive(a: Policy, b: Policy, c: Policy)
    requires Ahead(a, b) && Ahead(b, c)
    ensures Ahead(a, c)
  {
    if a.priority == b.priority == c.priority {
      LessIsTransitive(a.id, b.id, c.id);
    }
  }

  ghost predicate InPriorityOrder(policies: seq<Policy>) {
    forall i, j :: 0 <= i < j < |policies| ==> Ahead(policies[i], policies[j])
  }

  /** Puts a policy with a new identifier in its place. */
  method Place(policies: seq<Policy>, p: Policy) returns (r: seq<Policy>)
    requires InPriorityOrder(policies) && forall q :: q in policies ==> q.id != p.id
    ensures InPriorityOrder(r) && multiset(r) == multiset(policies) + multiset{p}
  {
    var i := 0;
    while i < |policies| && Ahead(policies[i], p)
      invariant 0 <= i <= |policies|
      invariant forall k :: 0 <= k < i ==> Ahead(policies[k], p)
    {
      i := i + 1;
    }
    r := policies[..i] + [p] + policies[i..];
    assert policies == policies[..i] + policies[i..];
    if i < |policies| {
      assert policies[i] in policies;
      AheadIsTotal(p, policies[i]);
    }
    PlaceKeepsOrder(policies, i, p, r);
  }

  lemma PlaceKeepsOrder(policies: seq<Policy>, i: nat, p: Policy, r: seq<Policy>)
    requires InPriorityOrder(policies) && i <= |policies| && r == policies[..i] + [p] + policies[i..]
    requires (forall k :: 0 <= k < i ==> Ahead(policies[k], p)) && (i < |policies| ==> Ahead(p, policies[i]))
    ensures InPriorityOrder(r)
  {
    forall k | i <= k < |policies|
      ensures Ahead(p, policies[k])
    {
      if k > i {
        AheadIsTransitive(p, policies[i], policies[k]);
      }
    }
    forall a, b | 0 <= a < b < |r|
      ensures Ahead(r[a], r[b])
    {
      assert r[a] == (if a < i then policies[a] else if a == i then p else policies[a - 1]);
      assert r[b] == (if b < i then policies[b] else if b == i then p else policies[b - 1]);
    }
  }

  ghost predicate UniquePolicies(policies: seq<Policy>) {
    forall i, j :: 0 <= i < j < |policies| ==> policies[i].id != policies[j].id
  }

  method SortByPriority(policies: seq<Policy>) returns (r: seq<Policy>)
    requires UniquePolicies(policies)
    ensures InPriorityOrder(r) && multiset(r) == multiset(policies)
  {
    r := [];
    for i := 0 to |policies|
      invariant InPriorityOrder(r) && multiset(r) == multiset(policies[..i])
    {
      assert policies[..i + 1] == policies[..i] + [policies[i]];
      forall q | q in r
        ensures q.id != policies[i].id
      {
        assert q in multiset(r) && q in policies[..i];
      }
      r := Place(r, policies[i]);
    }
    assert policies[..|policies|] == policies;
  }

  ghost predicate SamePolicies(a: seq<Policy>, b: seq<Policy>) {
    forall p :: p in a <==> p in b
  }

  /** There is only one way to put policies in priority order. */
  lemma {:induction false} PriorityOrderIsUnique(a: seq<Policy>, b: seq<Policy>)
    requires InPriorityOrder(a) && InPriorityOrder(b) && SamePolicies(a, b)
    ensures a == b
    decreases |a|
  {
    if b != [] {
      assert b[0] in b;
    }
    if a != [] {
      assert a[0] in b;
      SameFirst(a, b);
      TailWithout(a);
      TailWithout(b);
      PriorityOrderIsUnique(a[1..], b[1..]);
      assert a == [a[0]] + a[1..] && b == [b[0]] + b[1..];
    }
  }

  lemma TailWithout(a: seq<Policy>)
    requires InPriorityOrder(a) && a != []
    ensures forall p :: p in a[1..] <==> p in a && p != a[0]
  {
    AheadIsTotal(a[0], a[0]);
    assert forall i :: 0 < i < |a| ==> a[1..][i - 1] == a[i];
  }

  lemma SameFirst(a: seq<Policy>, b: seq<Policy>)
    requires InPriorityOrder(a) && InPriorityOrder(b) && SamePolicies(a, b) && a != [] && b != []
    ensures a[0] == b[0]
  {
    assert a[0] in b && b[0] in a;
    AheadIsTotal(a[0], b[0]);
  }

  // ---------------------------------------------------------------- snapshots

  lemma OneMoreDefinition(definitions: seq<Definition>, i: nat)
    requires i < |definitions| && DefinitionsOk(definitions[..i])
    ensures DefinitionsOk(definitions[..i + 1]) <==>
              DefinitionOk(definitions[i]) && forall k :: 0 <= k < i ==> definitions[k].id != definitions[i].id
    ensures DefinitionsOk(definitions[..i + 1]) ==>
              Entries(definitions[..i + 1]) == Entries(definitions[..i]) + [Entry(definitions[i])]
  {
    var before, after := definitions[..i], definitions[..i + 1];
    assert after[..i] == before && after[i] == definitions[i];
    assert forall k :: 0 <= k < i ==> after[k] == before[k] == definitions[k];
  }

  lemma FewerDefinitions(definitions: seq<Definition>, i: nat)
    requires i <= |definitions| && DefinitionsOk(definitions)
    ensures DefinitionsOk(definitions[..i])
  {
  }

  /** An earlier definition has the identifier of definition `i`. */
  ghost predicate Repeats(definitions: seq<Definition>, i: nat)
    requires i < |definitions|
  {
    exists k :: 0 <= k < i && definitions[k].id == definitions[i].id
  }

  /** What is wrong with definition `i`: a missing part, else a repeated identifier, else the window. */
  ghost predicate IsFault(definitions: seq<Definition>, i: nat, error: SnapshotError)
    requires i < |definitions|
  {
    var d := definitions[i];
    if d.id == "" || d.evaluator.None? then error == InvalidPolicy
    else if Repeats(definitions, i) then error == DuplicatePolicy
    else !WindowOk(d) && error == InvalidActivationWindow
  }

  /** The error is that of the first definition at which the list stops being valid. */
  ghost predicate IsFirstFault(definitions: seq<Definition>, error: SnapshotError) {
    exists i :: 0 <= i < |definitions| && DefinitionsOk(definitions[..i]) && IsFault(definitions, i, error)
  }

  /** There is at most one such error, so a rejection says exactly what was wrong first. */
  lemma FirstFaultIsUnique(definitions: seq<Definition>, a: SnapshotError, b: SnapshotError)
    requires IsFirstFault(definitions, a) && IsFirstFault(definitions, b)
    ensures a == b && !DefinitionsOk(definitions)
  {
    var i :| 0 <= i < |definitions| && DefinitionsOk(definitions[..i]) && IsFault(definitions, i, a);
    var j :| 0 <= j < |definitions| && DefinitionsOk(definitions[..j]) && IsFault(definitions, j, b);
    FaultEndsValidity(definitions, i, a, j);
    FaultEndsValidity(definitions, j, b, i);
    FaultEndsValidity(definitions, i, a, |definitions|);
    assert definitions[..|definitions|] == definitions;
  }

  lemma FaultEndsValidity(definitions: seq<Definition>, i: nat, error: SnapshotError, n: nat)
    requires i < |definitions| && IsFault(definitions, i, error) && n <= |definitions|
    ensures i < n ==> !DefinitionsOk(definitions[..n])
  {
    if i < n {
      var front := definitions[..n];
      assert front[i] == definitions[i];
      if Repeats(definitions, i) {
        var k :| 0 <= k < i && definitions[k].id == definitions[i].id;
        assert front[k].id == front[i].id;
      }
    }
  }

  /** The loop over the definitions. */
  method CheckDefinitions(definitions: seq<Definition>) returns (r: SnapshotError, ok: bool, policies: seq<Policy>)
    ensures ok <==> DefinitionsOk(definitions)
    ensures ok ==> policies == Entries(definitions)
    ensures !ok ==> IsFirstFault(definitions, r)
  {
    policies, ok, r := [], false, InvalidPolicy;
    var ids: set<Name> := {};
    for i := 0 to |definitions|
      invariant DefinitionsOk(definitions[..i]) && policies == Entries(definitions[..i])
      invariant forall id :: id in ids <==> exists k :: 0 <= k < i && definitions[k].id == id
    {
      var d := definitions[i];
      OneMoreDefinition(definitions, i);
      if DefinitionsOk(definitions) {
        FewerDefinitions(definitions, i + 1);
      }
      if d.id == "" || d.evaluator.None? {
        assert IsFault(definitions, i, InvalidPolicy);
        return InvalidPolicy, false, policies;
      }
      if d.id in ids {
        assert IsFault(definitions, i, DuplicatePolicy);
        return DuplicatePolicy, false, policies;
      }
      if !WindowOk(d) {
        assert IsFault(definitions, i, InvalidActivationWindow);
        return InvalidActivationWindow, false, policies;
      }
      ids := ids + {d.id};
      policies := policies + [Entry(d)];
    }
    assert definitions[..|definitions|] == definitions;
    ok := true;
  }

  /** Created if and only if everything is valid; under PriorityOrder the policies come in priority order. */
  method NewSnapshot(revision: nat, algorithm: Algorithm, definitions: seq<Definition>) returns (r: SnapshotResult)
    ensures r.Created? <==> revision != 0 && !algorithm.OtherAlgorithm? && DefinitionsOk(definitions)
    ensures r.Rejected? ==>
      if revision == 0 then r.error == InvalidRevision
      else if algorithm.OtherAlgorithm? then r.error == UnknownAlgorithm
      else IsFirstFault(definitions, r.error)
    ensures r.Created? ==> r.snapshot.revision == revision && r.snapshot.algorithm == algorithm
    ensures r.Created? && algorithm != PriorityOrder ==> r.snapshot.policies == Entries(definitions)
    ensures r.Created? && algorithm == PriorityOrder ==>
      InPriorityOrder(r.snapshot.policies) && multiset(r.snapshot.policies) == multiset(Entries(definitions))
  {
    if revision == 0 {
      return Rejected(InvalidRevision);
    }
    if algorithm.OtherAlgorithm? {
      return Rejected(UnknownAlgorithm);
    }
    var error, ok, policies := CheckDefinitions(definitions);
    if !ok {
      return Rejected(error);
    }
    if algorithm == PriorityOrder {
      policies := SortByPriority(policies);
    }
    return Created(Snapshot(revision, algorithm, policies));
  }

  lemma {:induction false} EntriesAre(definitions: seq<Definition>, p: Policy)
    requires forall i :: 0 <= i < |definitions| ==> definitions[i].evaluator.Some?
    ensures p in Entries(definitions) <==> exists d :: d in definitions && d.evaluator.Some? && Entry(d) == p
  {
    var entries := Entries(definitions);
    if p in entries {
      var i :| 0 <= i < |entries| && entries[i] == p;
      assert definitions[i] in definitions;
    }
    if d :| d in definitions && d.evaluator.Some? && Entry(d) == p {
      var i :| 0 <= i < |definitions| && definitions[i] == d;
      assert entries[i] == p;
    }
  }

  /** Under PriorityOrder two declarations of the same policies, in any order, give the same snapshot. */
  lemma {:induction false} PriorityIgnoresDeclaration(definitions: seq<Definition>, others: seq<Definition>,
                                                      a: seq<Policy>, b: seq<Policy>)
    requires DefinitionsOk(definitions) && DefinitionsOk(others) && multiset(definitions) == multiset(others)
    requires InPriorityOrder(a) && multiset(a) == multiset(Entries(definitions))
    requires InPriorityOrder(b) && multiset(b) == multiset(Entries(others))
    ensures a == b
  {
    forall d
      ensures d in definitions <==> d in others
    {
      assert d in multiset(definitions) <==> d in multiset(others);
    }
    forall p
      ensures p in a <==> p in b
    {
      assert p in multiset(a) <==> p in multiset(Entries(definitions));
      assert p in multiset(b) <==> p in multiset(Entries(others));
      EntriesAre(definitions, p);
      EntriesAre(others, p);
    }
    PriorityOrderIsUnique(a, b);
  }
}
