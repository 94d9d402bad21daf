/** Deciding a request against a snapshot: policies are evaluated in order until one settles the decision. */
module PolicyEngine {
  import opened Collections
  import opened PolicyDecisions
  import opened PolicySnapshot

  /** What an evaluator answers to the request at hand. */
  datatype Evaluation = Verdict(decision: Decision) | Failure

  type Answers = Evaluator -> Evaluation

  datatype TraceEntry = TraceEntry(id: string, outcome: Outcome, reason: string)

  datatype Limits = Limits(maxTrace: nat, maxMatched: nat)

  datatype Field = SubjectKind | SubjectId | Action | ResourceType | Group(index: nat)

  datatype Cause = Evaluating(id: string) | BadOutcome

  /** How a decision was reached; whatever is not settled is a denial. */
  datatype Ruling =
    | Settled(decision: Decision, trace: seq<TraceEntry>, traceTruncated: bool)
    | Invalid(field: Field)
    | Failed(cause: Cause)
    | Cancelled

  function OutcomeOf(r: Ruling): Outcome {
    if r.Settled? then r.decision.outcome else Deny
  }

  // ---------------------------------------------------------------- the request

  /** What is checked of a request, and the time that it asks about, if it names one. */
  datatype Request = Request(subjectKind: string, subjectId: string, action: string, resourceType: string,
                             groups: seq<string>, time: Option<int>)

  /** The field is there and must not be empty, but is. */
  predicate IsMissing(q: Request, f: Field) {
    match f
    case SubjectKind => q.subjectKind == ""
    case SubjectId => q.subjectId == ""
    case Action => q.action == ""
    case ResourceType => q.resourceType == ""
    case Group(i) => i < |q.groups| && q.groups[i] == ""
  }

  /** The order in which the fields are checked. */
  function Place(f: Field): nat {
    match f
    case SubjectKind => 0
    case SubjectId => 1
    case Action => 2
    case ResourceType => 3
    case Group(i) => 4 + i
  }

  ghost predicate IsValid(q: Request) {
    forall f :: !IsMissing(q, f)
  }

  ghost predicate IsFirstMissing(q: Request, f: Field) {
    IsMissing(q, f) && forall g :: IsMissing(q, g) ==> Place(f) <= Place(g)
  }

  /** Validate: the first missing field, if any. */
  method ValidateRequest(q: Request) returns (missing: Option<Field>)
    ensures missing.None? <==> IsValid(q)
    ensures missing.Some? ==> IsFirstMissing(q, missing.value)
  {
    var fields := [SubjectKind, SubjectId, Action, ResourceType];
    var values := [q.subjectKind, q.subjectId, q.action, q.resourceType];
    for i := 0 to |fields|
      invariant forall f :: IsMissing(q, f) ==> Place(f) >= i
    {
      assert Place(fields[i]) == i && (IsMissing(q, fields[i]) <==> values[i] == "");
      if values[i] == "" {
        return Option.Some(fields[i]);
      }
      assert forall f :: Place(f) == i ==> f == fields[i];
    }
    for i := 0 to |q.groups|
      invariant forall f :: IsMissing(q, f) ==> Place(f) >= 4 + i
    {
      if q.groups[i] == "" {
        assert IsMissing(q, Group(i));
        return Option.Some(Group(i));
      }
      assert forall f :: Place(f) == 4 + i ==> f == Group(i);
    }
    return None;
  }

  // ---------------------------------------------------------------- one policy

  /** One policy's contribution: an inactive policy does not apply. */
  function Evaluate(p: Policy, at: int, answers: Answers): Evaluation {
    if ActiveAt(p, at) then answers(p.evaluator) else Verdict(Decision(NotApplicable, "policy-inactive", [], false))
  }

  /** The policy fails, or answers with an outcome that is none. */
  predicate Fails(p: Policy, at: int, answers: Answers) {
    var e := Evaluate(p, at, answers);
    e.Failure? || !Known(e.decision.outcome)
  }

  function DecisionOf(p: Policy, at: int, answers: Answers): Decision {
    var e := Evaluate(p, at, answers);
    if e.Verdict? then e.decision else NOTHING
  }

  function Decisions(policies: seq<Policy>, at: int, answers: Answers): (r: seq<Decision>)
    ensures |r| == |policies| && forall i :: 0 <= i < |r| ==> r[i] == DecisionOf(policies[i], at, answers)
  {
    if policies == [] then []
    else Decisions(policies[..|policies| - 1], at, answers) + [DecisionOf(policies[|policies| - 1], at, answers)]
  }

  /** The policies up to the first that settles the decision, itself included. */
  function Consulted(algorithm: Algorithm, policies: seq<Policy>, at: int, answers: Answers): (n: nat)
    ensures n <= |policies|
  {
    var k := FirstDecisive(algorithm, Decisions(policies, at, answers));
    if k < |policies| then k + 1 else k
  }

  /** Nothing applicable means denial. */
  function Closed(d: Decision): Decision {
    if d.outcome == NotApplicable then d.(outcome := Deny, reason := "default-deny") else d
  }

  // ---------------------------------------------------------------- trace and matches

  function Trace(policies: seq<Policy>, at: int, answers: Answers): (r: seq<TraceEntry>)
    ensures |r| == |policies|
  {
    if policies == [] then []
    else
      var p := policies[|policies| - 1];
      var d := DecisionOf(p, at, answers);
      Trace(policies[..|policies| - 1], at, answers) + [TraceEntry(p.id, d.outcome, d.reason)]
  }

  function MatchesOf(p: Policy, d: Decision): seq<string> {
    if d.outcome == NotApplicable then [] else if d.matched == [] then [p.id] else d.matched
  }

  function Matches(policies: seq<Policy>, at: int, answers: Answers): seq<string> {
    if policies == [] then []
    else
      var p := policies[|policies| - 1];
      Matches(policies[..|policies| - 1], at, answers) + MatchesOf(p, DecisionOf(p, at, answers))
  }

  function Cut<T>(s: seq<T>, limit: nat): seq<T> {
    if |s| <= limit then s else s[..limit]
  }

  lemma CutAppend<T>(s: seq<T>, more: seq<T>, limit: nat)
    ensures var kept := Cut(s, limit);
            Cut(s + more, limit) == kept + if |more| > limit - |kept| then more[..limit - |kept|] else more
  {
  }

  /** Some consulted decision that applied was itself cut. */
  predicate AnyCut(policies: seq<Policy>, at: int, answers: Answers) {
    if policies == [] then false
    else
      var d := DecisionOf(policies[|policies| - 1], at, answers);
      AnyCut(policies[..|policies| - 1], at, answers) || (d.outcome != NotApplicable && d.matchedTruncated)
  }

  /** What is kept about the policies consulted so far. */
  datatype Account = Account(trace: seq<TraceEntry>, traceTruncated: bool, matched: seq<string>, matchedTruncated: bool)

  ghost predicate Accounts(a: Account, policies: seq<Policy>, at: int, answers: Answers, limits: Limits) {
    && a.trace == Cut(Trace(policies, at, answers), limits.maxTrace)
    && (a.traceTruncated <==> |policies| > limits.maxTrace)
    && a.matched == Cut(Matches(policies, at, answers), limits.maxMatched)
    && (a.matchedTruncated <==> |Matches(policies, at, answers)| > limits.maxMatched || AnyCut(policies, at, answers))
  }

  /** Adds one policy to the account, within the limits. */
  method Note(a: Account, ghost before: seq<Policy>, p: Policy, d: Decision, ghost at: int, ghost answers: Answers,
              limits: Limits)
    returns (r: Account)
    requires Accounts(a, before, at, answers, limits) && d == DecisionOf(p, at, answers)
    ensures Accounts(r, before + [p], at, answers, limits)
  {
    assert (before + [p])[..|before|] == before;
    var entry := TraceEntry(p.id, d.outcome, d.reason);
    ghost var allMatches := Matches(before, at, answers);
    CutAppend(Trace(before, at, answers), [entry], limits.maxTrace);
    r := a;
    if |r.trace| < limits.maxTrace {
      r := r.(trace := r.trace + [entry]);
    } else {
      r := r.(traceTruncated := true);
    }
    if d.outcome != NotApplicable {
      var matched := if d.matched == [] then [p.id] else d.matched;
      CutAppend(allMatches, matched, limits.maxMatched);
      var remaining := limits.maxMatched - |r.matched|;
      if |matched| > remaining {
        r := r.(matched := r.matched + matched[..remaining], matchedTruncated := true);
      } else {
        r := r.(matched := r.matched + matched);
      }
      r := r.(matchedTruncated := r.matchedTruncated || d.matchedTruncated);
    } else {
      assert allMatches + [] == allMatches;
    }
  }

  // ---------------------------------------------------------------- the loop

  /** Every policy that had to be consulted answered, and the context was still good each time it was checked. */
  ghost predicate CanSettle(s: Snapshot, at: int, answers: Answers, cancelledAt: nat) {
    var n := Consulted(s.algorithm, s.policies, at, answers);
    n < cancelledAt && forall i :: 0 <= i < n ==> !Fails(s.policies[i], at, answers)
  }

  ghost predicate NoneSettles(s: Snapshot, n: nat, at: int, answers: Answers)
    requires n <= |s.policies|
  {
    forall i :: 0 <= i < n ==> !IsDecisive(s.algorithm, DecisionOf(s.policies[i], at, answers).outcome)
  }

  lemma ConsultedAtLeast(s: Snapshot, n: nat, at: int, answers: Answers)
    requires n < |s.policies| && NoneSettles(s, n, at, answers)
    ensures Consulted(s.algorithm, s.policies, at, answers) > n
  {
    var all := Decisions(s.policies, at, answers);
    var k := FirstDecisive(s.algorithm, all);
    assert k < |all| ==> IsDecisive(s.algorithm, DecisionOf(s.policies[k], at, answers).outcome);
  }

  /** The loop may stop after `n` policies: the last of them settles the decision, or there are no more. */
  ghost predicate Stops(s: Snapshot, n: nat, at: int, answers: Answers)
    requires n <= |s.policies|
  {
    || (n == |s.policies| && NoneSettles(s, n, at, answers))
    || (&& n > 0 && NoneSettles(s, n - 1, at, answers)
        && IsDecisive(s.algorithm, DecisionOf(s.policies[n - 1], at, answers).outcome))
  }

  lemma ConsultedIs(s: Snapshot, n: nat, at: int, answers: Answers)
    requires n <= |s.policies| && Stops(s, n, at, answers)
    ensures Consulted(s.algorithm, s.policies, at, answers) == n
    ensures Resolve(s.algorithm, Decisions(s.policies[..n], at, answers))
         == Resolve(s.algorithm, Decisions(s.policies, at, answers))
  {
    var all := Decisions(s.policies, at, answers);
    assert Decisions(s.policies[..n], at, answers) == all[..n];
    if n == |s.policies| && NoneSettles(s, n, at, answers) {
      assert all[..n] == all;
    } else {
      FirstDecisiveIs(s.algorithm, all, n - 1);
      EarlyExitAgrees(s.algorithm, all, n - 1);
    }
  }

  ghost predicate Answered(s: Snapshot, n: nat, at: int, answers: Answers)
    requires n <= |s.policies|
  {
    forall k :: 0 <= k < n ==> !Fails(s.policies[k], at, answers)
  }

  /** One turn of the loop. */
  lemma Turn(s: Snapshot, i: nat, at: int, answers: Answers)
    requires i < |s.policies| && Answered(s, i, at, answers) && NoneSettles(s, i, at, answers)
    requires !Fails(s.policies[i], at, answers)
    ensures Answered(s, i + 1, at, answers)
    ensures s.policies[..i + 1] == s.policies[..i] + [s.policies[i]]
    ensures Decisions(s.policies[..i + 1], at, answers)
         == Decisions(s.policies[..i], at, answers) + [DecisionOf(s.policies[i], at, answers)]
    ensures if IsDecisive(s.algorithm, DecisionOf(s.policies[i], at, answers).outcome)
            then Stops(s, i + 1, at, answers)
            else NoneSettles(s, i + 1, at, answers)
  {
    assert s.policies[..i + 1][..i] == s.policies[..i];
  }

  /** Policy `f` is the first to fail, and was consulted in time. */
  ghost predicate FailsAt(s: Snapshot, f: nat, at: int, answers: Answers, cancelledAt: nat) {
    && f < Consulted(s.algorithm, s.policies, at, answers) && f + 1 < cancelledAt
    && Answered(s, f, at, answers) && Fails(s.policies[f], at, answers)
  }

  /** The first check that finds the context cancelled comes before a failure and before the decision is settled. */
  ghost predicate CancelledFirst(s: Snapshot, at: int, answers: Answers, cancelledAt: nat) {
    || cancelledAt == 0
    || (cancelledAt <= Consulted(s.algorithm, s.policies, at, answers) && Answered(s, cancelledAt - 1, at, answers))
  }

  function CauseOf(p: Policy, at: int, answers: Answers): Cause {
    if Evaluate(p, at, answers).Failure? then Evaluating(p.id) else BadOutcome
  }

  /** The three ways to end exclude one another. */
  lemma EndsOneWay(s: Snapshot, at: int, answers: Answers, cancelledAt: nat)
    ensures !(CanSettle(s, at, answers, cancelledAt) && CancelledFirst(s, at, answers, cancelledAt))
    ensures forall f: nat :: FailsAt(s, f, at, answers, cancelledAt) ==>
              !CanSettle(s, at, answers, cancelledAt) && !CancelledFirst(s, at, answers, cancelledAt)
  {
  }

  datatype Stop = Done | PolicyFailed(index: nat) | ContextCancelled

  /** The loop: policies in order, until one fails or settles the decision or the context is cancelled. */
  method Consult(s: Snapshot, at: int, answers: Answers, limits: Limits, cancelledAt: nat)
    returns (stop: Stop, decisions: seq<Decision>, account: Account)
    requires cancelledAt > 0
    ensures stop.Done? <==> CanSettle(s, at, answers, cancelledAt)
    ensures stop.PolicyFailed? ==> FailsAt(s, stop.index, at, answers, cancelledAt)
    ensures stop.ContextCancelled? ==> CancelledFirst(s, at, answers, cancelledAt)
    ensures stop.Done? ==>
      var n := Consulted(s.algorithm, s.policies, at, answers);
      && Stops(s, n, at, answers) && Answered(s, n, at, answers)
      && decisions == Decisions(s.policies[..n], at, answers)
      && Accounts(account, s.policies[..n], at, answers, limits)
  {
    decisions, account := [], Account([], false, [], false);
    var i, settled := 0, false;
    while i < |s.policies| && !settled
      invariant 0 <= i <= |s.policies| && i < cancelledAt
      invariant decisions == Decisions(s.policies[..i], at, answers)
      invariant Answered(s, i, at, answers)
      invariant if settled then Stops(s, i, at, answers) else NoneSettles(s, i, at, answers)
      invariant Accounts(account, s.policies[..i], at, answers, limits)
    {
      ConsultedAtLeast(s, i, at, answers);
      if cancelledAt == i + 1 {
        return ContextCancelled, decisions, account;
      }
      var p := s.policies[i];
      var e := Evaluate(p, at, answers);
      if e.Failure? || !Known(e.decision.outcome) {
        assert Fails(p, at, answers);
        return PolicyFailed(i), decisions, account;
      }
      Turn(s, i, at, answers);
      decisions := decisions + [e.decision];
      account := Note(account, s.policies[..i], p, e.decision, at, answers, limits);
      settled := IsDecisive(s.algorithm, e.decision.outcome);
      i := i + 1;
    }
    ConsultedIs(s, i, at, answers);
    stop := Done;
  }

  /** The time that the policies are judged at: the request's own, or that of the clock. */
  function TimeOf(q: Request, clock: int): int {
    if q.time.Some? then q.time.value else clock
  }

  /**
   * decide. The context is checked once at the start and then before each policy, and `cancelledAt` is the number of
   * the first check that finds it cancelled. The ruling is settled exactly when nothing was in the way, and is then
   * what evaluating every policy and combining would have given.
   */
  method Decide(s: Snapshot, q: Request, clock: int, answers: Answers, limits: Limits, cancelledAt: nat)
    returns (r: Ruling)
    requires !s.algorithm.OtherAlgorithm?
    ensures r.Invalid? <==> !IsValid(q)
    ensures r.Invalid? ==> IsFirstMissing(q, r.field)
    ensures IsValid(q) ==> RulesOn(s, TimeOf(q, clock), answers, limits, cancelledAt, r)
    ensures r.Settled? ==> Prevails(s, TimeOf(q, clock), answers, r.decision)
  {
    var missing := ValidateRequest(q);
    if missing.Some? {
      return Invalid(missing.value);
    }
    var at := if q.time.Some? then q.time.value else clock;
    if cancelledAt == 0 {
      EndsOneWay(s, at, answers, cancelledAt);
      return Cancelled;
    }
    r := RuleOn(s, at, answers, limits, cancelledAt);
    if r.Settled? {
      RulingPrevails(s, at, answers, limits, r);
    }
  }

  /** The loop and what follows it. */
  method RuleOn(s: Snapshot, at: int, answers: Answers, limits: Limits, cancelledAt: nat) returns (r: Ruling)
    requires !s.algorithm.OtherAlgorithm? && cancelledAt > 0
    ensures RulesOn(s, at, answers, limits, cancelledAt, r)
  {
    EndsOneWay(s, at, answers, cancelledAt);
    var stop, decisions, account := Consult(s, at, answers, limits, cancelledAt);
    if stop.PolicyFailed? {
      FirstFailureIsUnique(s, stop.index, at, answers, cancelledAt);
      var p := s.policies[stop.index];
      return Failed(if Evaluate(p, at, answers).Failure? then Evaluating(p.id) else BadOutcome);
    }
    if stop.ContextCancelled? {
      return Cancelled;
    }
    r := Settle(s, at, answers, limits, decisions, account);
  }

  /** When each ruling on a valid request is given, and what it says. */
  ghost predicate RulesOn(s: Snapshot, at: int, answers: Answers, limits: Limits, cancelledAt: nat, r: Ruling) {
    && !r.Invalid? && (r.Settled? <==> CanSettle(s, at, answers, cancelledAt))
    && (r.Settled? ==> Agrees(s, at, answers, limits, r))
    && (r.Cancelled? <==> CancelledFirst(s, at, answers, cancelledAt))
    && (r.Failed? <==> exists f: nat :: FailsAt(s, f, at, answers, cancelledAt))
    && (r.Failed? ==>
          forall f: nat :: FailsAt(s, f, at, answers, cancelledAt) ==> r.cause == CauseOf(s.policies[f], at, answers))
  }

  lemma FirstFailureIsUnique(s: Snapshot, f: nat, at: int, answers: Answers, cancelledAt: nat)
    requires FailsAt(s, f, at, answers, cancelledAt)
    ensures forall g: nat :: FailsAt(s, g, at, answers, cancelledAt) ==> g == f
  {
  }

  /** What follows the loop. */
  method Settle(s: Snapshot, ghost at: int, ghost answers: Answers, ghost limits: Limits, decisions: seq<Decision>,
                account: Account)
    returns (r: Ruling)
    requires !s.algorithm.OtherAlgorithm?
    requires var n := Consulted(s.algorithm, s.policies, at, answers);
             && Stops(s, n, at, answers) && Answered(s, n, at, answers)
             && decisions == Decisions(s.policies[..n], at, answers)
             && Accounts(account, s.policies[..n], at, answers, limits)
    ensures r.Settled? && Agrees(s, at, answers, limits, r)
  {
    ghost var n := Consulted(s.algorithm, s.policies, at, answers);
    ConsultedIs(s, n, at, answers);
    AnsweredAreKnown(s, n, at, answers);
    ResolveIsKnown(s.algorithm, decisions);
    var combined := Combine(s.algorithm, decisions);
    var d := Closed(combined.decision);
    return Settled(d.(matched := account.matched, matchedTruncated := account.matchedTruncated),
                   account.trace, account.traceTruncated);
  }

  lemma AnsweredAreKnown(s: Snapshot, n: nat, at: int, answers: Answers)
    requires n <= |s.policies| && Answered(s, n, at, answers)
    ensures AllKnown(Decisions(s.policies[..n], at, answers))
  {
    forall i | 0 <= i < n
      ensures Known(Decisions(s.policies[..n], at, answers)[i].outcome)
    {
      assert !Fails(s.policies[i], at, answers);
    }
  }

  lemma ResolveIsKnown(algorithm: Algorithm, decisions: seq<Decision>)
    requires AllKnown(decisions)
    ensures Known(Resolve(algorithm, decisions).outcome)
  {
    LastApplicableIs(decisions, |decisions|);
  }

  /** The ruling is the full evaluation's, never undecided, with an account of exactly the consulted policies. */
  ghost predicate Agrees(s: Snapshot, at: int, answers: Answers, limits: Limits, r: Ruling)
    requires r.Settled?
  {
    var n := Consulted(s.algorithm, s.policies, at, answers);
    var full := Closed(Resolve(s.algorithm, Decisions(s.policies, at, answers)));
    && r.decision.outcome == full.outcome && r.decision.reason == full.reason
    && (r.decision.outcome == Allow || r.decision.outcome == Deny)
    && Accounts(Account(r.trace, r.traceTruncated, r.decision.matched, r.decision.matchedTruncated),
                s.policies[..n], at, answers, limits)
  }

  /** An allowance needs an allowance: no failure, cancellation or silence ever grants anything. */
  lemma AllowIsEarned(s: Snapshot, at: int, answers: Answers, limits: Limits, r: Ruling)
    requires r.Settled? ==> Agrees(s, at, answers, limits, r)
    requires OutcomeOf(r) == Allow
    ensures exists p :: p in s.policies && ActiveAt(p, at) && DecisionOf(p, at, answers).outcome == Allow
  {
    var all := Decisions(s.policies, at, answers);
    LastApplicableIs(all, |all|);
    var k :| 0 <= k < |all| && all[k].outcome == Allow;
    assert s.policies[k] in s.policies;
  }

  lemma {:induction false} SomeDecision(policies: seq<Policy>, at: int, answers: Answers, outcome: Outcome)
    ensures PolicyDecisions.Some(Decisions(policies, at, answers), outcome) <==>
              SomePolicy(policies, at, answers, outcome)
  {
    var all := Decisions(policies, at, answers);
    if p :| p in policies && DecisionOf(p, at, answers).outcome == outcome {
      var i :| 0 <= i < |policies| && policies[i] == p;
      assert all[i].outcome == outcome;
    }
  }

  ghost predicate SomePolicy(policies: seq<Policy>, at: int, answers: Answers, outcome: Outcome) {
    exists p :: p in policies && DecisionOf(p, at, answers).outcome == outcome
  }

  /**
   * Under either override a ruling's outcome depends only on which outcomes its policies have. A policy after the one
   * that settled it may fail: it was not consulted.
   */
  lemma OverrideRuling(s: Snapshot, at: int, answers: Answers, limits: Limits, r: Ruling)
    requires s.algorithm == DenyOverrides || s.algorithm == AllowOverrides
    requires r.Settled? && Agrees(s, at, answers, limits, r)
    ensures r.decision.outcome ==
            var allow, deny := SomePolicy(s.policies, at, answers, Allow), SomePolicy(s.policies, at, answers, Deny);
            if s.algorithm == DenyOverrides then (if allow && !deny then Allow else Deny)
            else (if allow then Allow else Deny)
  {
    var all := Decisions(s.policies, at, answers);
    SomeDecision(s.policies, at, answers, Allow);
    SomeDecision(s.policies, at, answers, Deny);
    LastApplicableIs(all, |all|);
    var k := FirstDecisive(s.algorithm, all);
    if k < |all| {
      assert PolicyDecisions.Some(all, all[k].outcome);
    }
  }

  /** Under either override two rulings on the same policies, declared in any order, have the same outcome. */
  lemma OverrideRulingIgnoresOrder(s: Snapshot, t: Snapshot, at: int, answers: Answers, limits: Limits,
                                   r: Ruling, q: Ruling)
    requires s.algorithm == t.algorithm && (s.algorithm == DenyOverrides || s.algorithm == AllowOverrides)
    requires forall p :: p in s.policies <==> p in t.policies
    requires r.Settled? && q.Settled? && Agrees(s, at, answers, limits, r) && Agrees(t, at, answers, limits, q)
    ensures r.decision.outcome == q.decision.outcome
  {
    OverrideRuling(s, at, answers, limits, r);
    OverrideRuling(t, at, answers, limits, q);
  }

  // ---------------------------------------------------------------- the first that applies

  /** The policy is active, answers, and its answer is not that it does not apply. */
  predicate Applies(p: Policy, at: int, answers: Answers) {
    ActiveAt(p, at) && answers(p.evaluator).Verdict? && answers(p.evaluator).decision.outcome != NotApplicable
  }

  ghost predicate AppliesFirst(policies: seq<Policy>, at: int, answers: Answers, k: nat) {
    k < |policies| && Applies(policies[k], at, answers) && forall i :: 0 <= i < k ==> !Applies(policies[i], at, answers)
  }

  ghost predicate NoneApplies(policies: seq<Policy>, at: int, answers: Answers) {
    forall i :: 0 <= i < |policies| ==> !Applies(policies[i], at, answers)
  }

  lemma AppliesIs(p: Policy, at: int, answers: Answers)
    ensures Applies(p, at, answers) <==> DecisionOf(p, at, answers).outcome != NotApplicable
    ensures Applies(p, at, answers) ==> DecisionOf(p, at, answers) == answers(p.evaluator).decision
  {
  }

  /** The outcome and the reason are what the policy answered. */
  predicate Speaks(p: Policy, at: int, answers: Answers, d: Decision)
    requires Applies(p, at, answers)
  {
    d.outcome == answers(p.evaluator).decision.outcome && d.reason == answers(p.evaluator).decision.reason
  }

  /**
   * Under FirstApplicable and PriorityOrder the first policy that applies rules, whatever the ones after it answer;
   * when none applies the request is denied by default.
   */
  lemma FirstApplicableRules(s: Snapshot, at: int, answers: Answers, limits: Limits, r: Ruling)
    requires s.algorithm == FirstApplicable || s.algorithm == PriorityOrder
    requires r.Settled? && Agrees(s, at, answers, limits, r)
    ensures forall k: nat :: AppliesFirst(s.policies, at, answers, k) ==> Speaks(s.policies[k], at, answers, r.decision)
    ensures NoneApplies(s.policies, at, answers) ==>
              r.decision.outcome == Deny && r.decision.reason == "default-deny"
  {
    var all := Decisions(s.policies, at, answers);
    ResolveWins(s.algorithm, all);
    forall i | 0 <= i < |all|
      ensures all[i].outcome != NotApplicable <==> Applies(s.policies[i], at, answers)
      ensures Applies(s.policies[i], at, answers) ==> all[i] == answers(s.policies[i].evaluator).decision
    {
      AppliesIs(s.policies[i], at, answers);
    }
    forall k: nat | AppliesFirst(s.policies, at, answers, k)
      ensures Speaks(s.policies[k], at, answers, r.decision)
    {
      OnlyFirst(all, Resolve(s.algorithm, all), k);
    }
  }

  lemma OnlyFirst(decisions: seq<Decision>, d: Decision, k: nat)
    requires IsFirstApplicable(decisions, d) && k < |decisions| && decisions[k].outcome != NotApplicable
    requires forall i :: 0 <= i < k ==> decisions[i].outcome == NotApplicable
    ensures d == decisions[k]
  {
  }

  /** Who rules, read off the policies and their answers alone. */
  ghost predicate Prevails(s: Snapshot, at: int, answers: Answers, d: Decision) {
    var allow, deny := SomePolicy(s.policies, at, answers, Allow), SomePolicy(s.policies, at, answers, Deny);
    if s.algorithm == DenyOverrides then d.outcome == if allow && !deny then Allow else Deny
    else if s.algorithm == AllowOverrides then d.outcome == if allow then Allow else Deny
    else
      && (forall k: nat :: AppliesFirst(s.policies, at, answers, k) ==> Speaks(s.policies[k], at, answers, d))
      && (NoneApplies(s.policies, at, answers) ==> d.outcome == Deny && d.reason == "default-deny")
  }

  lemma RulingPrevails(s: Snapshot, at: int, answers: Answers, limits: Limits, r: Ruling)
    requires !s.algorithm.OtherAlgorithm? && r.Settled? && Agrees(s, at, answers, limits, r)
    ensures Prevails(s, at, answers, r.decision)
  {
    if s.algorithm == DenyOverrides || s.algorithm == AllowOverrides {
      OverrideRuling(s, at, answers, limits, r);
    } else {
      FirstApplicableRules(s, at, answers, limits, r);
    }
  }

  /** Under PriorityOrder the applicable policy ahead of every other applicable one rules. */
  lemma PriorityRules(s: Snapshot, at: int, answers: Answers, limits: Limits, r: Ruling, p: Policy)
    requires s.algorithm == PriorityOrder && InPriorityOrder(s.policies)
    requires r.Settled? && Agrees(s, at, answers, limits, r)
    requires p in s.policies && Applies(p, at, answers)
    requires forall q :: q in s.policies && Applies(q, at, answers) && q != p ==> Ahead(p, q)
    ensures Speaks(p, at, answers, r.decision)
  {
    var k :| 0 <= k < |s.policies| && s.policies[k] == p;
    forall i | 0 <= i < k
      ensures !Applies(s.policies[i], at, answers)
    {
      AheadIsTotal(s.policies[i], p);
    }
    FirstApplicableRules(s, at, answers, limits, r);
    assert AppliesFirst(s.policies, at, answers, k);
  }

  /** A policy whose answer leaves nothing to the ones after it. */
  predicate EndsSearch(algorithm: Algorithm, p: Policy, at: int, answers: Answers) {
    && Applies(p, at, answers)
    && (algorithm == DenyOverrides ==> answers(p.evaluator).decision.outcome == Deny)
    && (algorithm == AllowOverrides ==> answers(p.evaluator).decision.outcome == Allow)
  }

  /** Policies are consulted up to the first whose answer ends the search, and all of them if there is none. */
  lemma ConsultsExactly(s: Snapshot, at: int, answers: Answers, k: nat)
    requires !s.algorithm.OtherAlgorithm? && k <= |s.policies|
    requires k < |s.policies| ==> EndsSearch(s.algorithm, s.policies[k], at, answers)
    requires forall i :: 0 <= i < k ==> !EndsSearch(s.algorithm, s.policies[i], at, answers)
    ensures Consulted(s.algorithm, s.policies, at, answers) == if k < |s.policies| then k + 1 else k
  {
    var all := Decisions(s.policies, at, answers);
    forall i | 0 <= i < |all|
      ensures IsDecisive(s.algorithm, all[i].outcome) <==> EndsSearch(s.algorithm, s.policies[i], at, answers)
    {
      AppliesIs(s.policies[i], at, answers);
    }
  }

  /** Under PriorityOrder the same definitions, declared in any order, settle every request alike. */
  lemma DeclarationsSettleAlike(definitions: seq<Definition>, others: seq<Definition>, s: Snapshot, t: Snapshot,
                                at: int, answers: Answers, limits: Limits, r: Ruling, q: Ruling)
    requires DefinitionsOk(definitions) && DefinitionsOk(others) && multiset(definitions) == multiset(others)
    requires s.algorithm == PriorityOrder == t.algorithm
    requires InPriorityOrder(s.policies) && multiset(s.policies) == multiset(Entries(definitions))
    requires InPriorityOrder(t.policies) && multiset(t.policies) == multiset(Entries(others))
    requires r.Settled? && q.Settled? && Agrees(s, at, answers, limits, r) && Agrees(t, at, answers, limits, q)
    ensures r == q
  {
    PriorityIgnoresDeclaration(definitions, others, s.policies, t.policies);
  }

  // ---------------------------------------------------------------- what the account says

  /** Every consulted policy is in the trace, in its place, with its own answer. */
  lemma {:induction false} TraceIs(policies: seq<Policy>, at: int, answers: Answers, i: nat)
    requires i < |policies|
    ensures var d := DecisionOf(policies[i], at, answers);
            Trace(policies, at, answers)[i] == TraceEntry(policies[i].id, d.outcome, d.reason)
  {
    if i < |policies| - 1 {
      TraceIs(policies[..|policies| - 1], at, answers, i);
    }
  }

  /** A match comes from a policy that applies: one that it named, or its own identifier if it named none. */
  lemma {:induction false} MatchesAre(policies: seq<Policy>, at: int, answers: Answers, id: string)
    ensures id in Matches(policies, at, answers) <==> exists p :: p in policies && IsMatch(p, at, answers, id)
  {
    if policies != [] {
      var front, last := policies[..|policies| - 1], policies[|policies| - 1];
      MatchesAre(front, at, answers, id);
      AppliesIs(last, at, answers);
      assert id in MatchesOf(last, DecisionOf(last, at, answers)) <==> IsMatch(last, at, answers, id);
      assert forall p :: p in policies <==> p in front || p == last;
    }
  }

  predicate IsMatch(p: Policy, at: int, answers: Answers, id: string) {
    && Applies(p, at, answers)
    && var named := answers(p.evaluator).decision.matched;
       id in named || (named == [] && id == p.id)
  }
}
