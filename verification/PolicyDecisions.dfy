/** Combining the decisions of several policies. */
module PolicyDecisions {

  datatype Outcome = NotApplicable | Allow | Deny | OtherOutcome(code: nat)

  datatype Algorithm = DenyOverrides | AllowOverrides | FirstApplicable | PriorityOrder | OtherAlgorithm(code: nat)

  datatype Decision = Decision(outcome: Outcome, reason: string, matched: seq<string>, matchedTruncated: bool)

  datatype CombineError = InvalidAlgorithm | InvalidOutcome

  datatype Combination = Combined(decision: Decision) | Refused(error: CombineError)

  /** What remains when nothing applies. */
  const NOTHING := Decision(NotApplicable, "", [], false)

  predicate Known(outcome: Outcome) {
    !outcome.OtherOutcome?
  }

  predicate IsDecisive(algorithm: Algorithm, outcome: Outcome) {
    || (algorithm == DenyOverrides && outcome == Deny)
    || (algorithm == AllowOverrides && outcome == Allow)
    || ((algorithm == FirstApplicable || algorithm == PriorityOrder) && outcome != NotApplicable)
  }

  /** The place of the first decisive decision, or the length. */
  function FirstDecisive(algorithm: Algorithm, decisions: seq<Decision>): (k: nat)
    ensures k <= |decisions|
    ensures k < |decisions| ==> IsDecisive(algorithm, decisions[k].outcome)
    ensures forall i :: 0 <= i < k ==> !IsDecisive(algorithm, decisions[i].outcome)
  {
    if decisions == [] then 0
    else if IsDecisive(algorithm, decisions[0].outcome) then 0
    else 1 + FirstDecisive(algorithm, decisions[1..])
  }

  /** The last applicable of the first `n` decisions, or nothing. */
  function LastApplicable(decisions: seq<Decision>, n: nat): Decision
    requires n <= |decisions|
  {
    if n == 0 then NOTHING
    else if decisions[n - 1].outcome != NotApplicable then decisions[n - 1]
    else LastApplicable(decisions, n - 1)
  }

  /** The first decisive decision; without one, the last applicable. */
  function Resolve(algorithm: Algorithm, decisions: seq<Decision>): Decision {
    var k := FirstDecisive(algorithm, decisions);
    if k < |decisions| then decisions[k] else LastApplicable(decisions, |decisions|)
  }

  ghost predicate AllKnown(decisions: seq<Decision>) {
    forall i :: 0 <= i < |decisions| ==> Known(decisions[i].outcome)
  }

  lemma FirstDecisiveIs(algorithm: Algorithm, decisions: seq<Decision>, k: nat)
    requires k < |decisions| && IsDecisive(algorithm, decisions[k].outcome)
    requires forall i :: 0 <= i < k ==> !IsDecisive(algorithm, decisions[i].outcome)
    ensures FirstDecisive(algorithm, decisions) == k
  {
  }

  // ---------------------------------------------------------------- who wins

  ghost predicate Some(decisions: seq<Decision>, outcome: Outcome) {
    exists i :: 0 <= i < |decisions| && decisions[i].outcome == outcome
  }

  /** `d` is the first decision that applies, or there is none and `d` is nothing. */
  ghost predicate IsFirstApplicable(decisions: seq<Decision>, d: Decision) {
    || (d == NOTHING && forall i :: 0 <= i < |decisions| ==> decisions[i].outcome == NotApplicable)
    || (exists k :: && 0 <= k < |decisions| && decisions[k] == d && d.outcome != NotApplicable
                    && forall i :: 0 <= i < k ==> decisions[i].outcome == NotApplicable)
  }

  ghost predicate IsLastApplicable(decisions: seq<Decision>, d: Decision) {
    || (d == NOTHING && forall i :: 0 <= i < |decisions| ==> decisions[i].outcome == NotApplicable)
    || (exists k :: && 0 <= k < |decisions| && decisions[k] == d && d.outcome != NotApplicable
                    && forall i :: k < i < |decisions| ==> decisions[i].outcome == NotApplicable)
  }

  ghost predicate IsFirstWith(decisions: seq<Decision>, outcome: Outcome, d: Decision) {
    exists k :: && 0 <= k < |decisions| && decisions[k] == d && d.outcome == outcome
                && forall i :: 0 <= i < k ==> decisions[i].outcome != outcome
  }

  /**
   * What each algorithm promises: the first that applies; or the first with the overriding outcome and, without one,
   * the last that applies.
   */
  ghost predicate Wins(algorithm: Algorithm, decisions: seq<Decision>, d: Decision) {
    match algorithm
    case DenyOverrides =>
      if Some(decisions, Deny) then IsFirstWith(decisions, Deny, d) else IsLastApplicable(decisions, d)
    case AllowOverrides =>
      if Some(decisions, Allow) then IsFirstWith(decisions, Allow, d) else IsLastApplicable(decisions, d)
    case FirstApplicable => IsFirstApplicable(decisions, d)
    case PriorityOrder => IsFirstApplicable(decisions, d)
    case OtherAlgorithm(_) => false
  }

  lemma {:induction false} LastIsLast(decisions: seq<Decision>, n: nat)
    requires n <= |decisions|
    ensures var d := LastApplicable(decisions, n);
            || (d == NOTHING && forall i :: 0 <= i < n ==> decisions[i].outcome == NotApplicable)
            || (exists k :: && 0 <= k < n && decisions[k] == d && d.outcome != NotApplicable
                            && forall i :: k < i < n ==> decisions[i].outcome == NotApplicable)
  {
    if n > 0 && decisions[n - 1].outcome == NotApplicable {
      LastIsLast(decisions, n - 1);
    }
  }

  lemma ResolveWins(algorithm: Algorithm, decisions: seq<Decision>)
    requires !algorithm.OtherAlgorithm?
    ensures Wins(algorithm, decisions, Resolve(algorithm, decisions))
  {
    var k := FirstDecisive(algorithm, decisions);
    if k == |decisions| {
      LastIsLast(decisions, |decisions|);
    } else {
      assert decisions[k] == Resolve(algorithm, decisions);
    }
  }

  method Combine(algorithm: Algorithm, decisions: seq<Decision>) returns (r: Combination)
    ensures r == Refused(InvalidAlgorithm) <==> algorithm.OtherAlgorithm?
    ensures r == Refused(InvalidOutcome) <==> !algorithm.OtherAlgorithm? && !AllKnown(decisions)
    ensures r.Combined? <==> !algorithm.OtherAlgorithm? && AllKnown(decisions)
    ensures r.Combined? ==> r.decision == Resolve(algorithm, decisions) && Wins(algorithm, decisions, r.decision)
  {
    if algorithm.OtherAlgorithm? {
      return Refused(InvalidAlgorithm);
    }
    ResolveWins(algorithm, decisions);
    for i := 0 to |decisions|
      invariant forall k :: 0 <= k < i ==> Known(decisions[k].outcome)
    {
      if !Known(decisions[i].outcome) {
        return Refused(InvalidOutcome);
      }
    }
    var result := NOTHING;
    for i := 0 to |decisions|
      invariant forall k :: 0 <= k < i ==> !IsDecisive(algorithm, decisions[k].outcome)
      invariant result == LastApplicable(decisions, i)
    {
      var decision := decisions[i];
      if (algorithm == FirstApplicable || algorithm == PriorityOrder) && decision.outcome != NotApplicable {
        FirstDecisiveIs(algorithm, decisions, i);
        return Combined(decision);
      }
      if algorithm == DenyOverrides && decision.outcome == Deny {
        FirstDecisiveIs(algorithm, decisions, i);
        return Combined(decision);
      }
      if algorithm == AllowOverrides && decision.outcome == Allow {
        FirstDecisiveIs(algorithm, decisions, i);
        return Combined(decision);
      }
      if decision.outcome != NotApplicable {
        result := decision;
      }
    }
    return Combined(result);
  }

  // ---------------------------------------------------------------- what the combination means

  /** Nothing after the first decisive decision matters. */
  lemma EarlyExitAgrees(algorithm: Algorithm, decisions: seq<Decision>, k: nat)
    requires k == FirstDecisive(algorithm, decisions) && k < |decisions|
    ensures Resolve(algorithm, decisions[..k + 1]) == Resolve(algorithm, decisions)
  {
    FirstDecisiveIs(algorithm, decisions[..k + 1], k);
  }

  lemma {:induction false} LastApplicableIs(decisions: seq<Decision>, n: nat)
    requires n <= |decisions|
    ensures LastApplicable(decisions, n).outcome == NotApplicable ==>
              forall i :: 0 <= i < n ==> decisions[i].outcome == NotApplicable
    ensures LastApplicable(decisions, n).outcome != NotApplicable ==>
              exists i :: 0 <= i < n && decisions[i] == LastApplicable(decisions, n)
  {
    if n > 0 {
      LastApplicableIs(decisions, n - 1);
    }
  }

  /** Overrides look only at which outcomes occur: a denial wins under one, an allowance under the other. */
  lemma OverridesOutcome(algorithm: Algorithm, decisions: seq<Decision>)
    requires AllKnown(decisions) && (algorithm == DenyOverrides || algorithm == AllowOverrides)
    ensures var winner := if algorithm == DenyOverrides then Deny else Allow;
            var loser := if algorithm == DenyOverrides then Allow else Deny;
            Resolve(algorithm, decisions).outcome ==
              if Some(decisions, winner) then winner else if Some(decisions, loser) then loser else NotApplicable
  {
    LastApplicableIs(decisions, |decisions|);
    var k := FirstDecisive(algorithm, decisions);
    if k < |decisions| {
      assert decisions[k].outcome == if algorithm == DenyOverrides then Deny else Allow;
    }
  }

  lemma SomeIgnoresOrder(a: seq<Decision>, b: seq<Decision>, outcome: Outcome)
    requires multiset(a) == multiset(b) && Some(a, outcome)
    ensures Some(b, outcome)
  {
    var i :| 0 <= i < |a| && a[i].outcome == outcome;
    assert a[i] in multiset(a) && a[i] in multiset(b);
    var j :| 0 <= j < |b| && b[j] == a[i];
  }

  /** Under either override the outcome does not depend on the order of the decisions. */
  lemma OverridesIgnoreOrder(algorithm: Algorithm, a: seq<Decision>, b: seq<Decision>)
    requires algorithm == DenyOverrides || algorithm == AllowOverrides
    requires multiset(a) == multiset(b) && AllKnown(a)
    ensures Resolve(algorithm, a).outcome == Resolve(algorithm, b).outcome
  {
    forall i | 0 <= i < |b|
      ensures Known(b[i].outcome)
    {
      assert b[i] in multiset(b) && b[i] in multiset(a);
    }
    forall outcome: Outcome
      ensures Some(a, outcome) <==> Some(b, outcome)
    {
      if Some(a, outcome) {
        SomeIgnoresOrder(a, b, outcome);
      }
      if Some(b, outcome) {
        SomeIgnoresOrder(b, a, outcome);
      }
    }
    OverridesOutcome(algorithm, a);
    OverridesOutcome(algorithm, b);
  }
}
