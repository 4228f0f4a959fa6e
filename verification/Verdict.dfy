/** The verdict combination algebra (internal/engine/verdict.go). */
module Verdict {

  datatype Verdict = Approve | Review | Deny

  /** Outcomes and fail modes are open string types in the service; a name it does not
      know is Other, respectively Unspecified. */
  datatype Outcome = Satisfied | Denied | Flagged | Unavailable | Other(name: string)
  datatype FailMode = FailClosedReview | FailClosedDeny | FailOpen | Unspecified

  datatype PredicateResult = PredicateResult(ruleId: string, enriched: bool, outcome: Outcome, failMode: FailMode)

  function EffectiveOutcome(r: PredicateResult): Outcome {
    if !r.outcome.Unavailable? then r.outcome
    else
      match r.failMode
      case FailClosedDeny => Denied
      case FailOpen => Satisfied
      case _ => Flagged
  }

  /** The documented precedence, said without an order of evaluation. */
  ghost function Precedence(results: seq<PredicateResult>): Verdict {
    if results == [] then Deny
    else if exists r :: r in results && EffectiveOutcome(r).Denied? then Deny
    else if exists r :: r in results && EffectiveOutcome(r).Flagged? then Review
    else Approve
  }

  /** The short-circuiting loop computes the declarative precedence rule. */
  method Combine(results: seq<PredicateResult>) returns (v: Verdict)
    ensures v == Precedence(results)
  {
    if results == [] {
      return Deny;
    }
    var sawFlag := false;
    for i := 0 to |results|
      invariant forall r :: r in results[..i] ==> !EffectiveOutcome(r).Denied?
      invariant sawFlag <==> exists r :: r in results[..i] && EffectiveOutcome(r).Flagged?
    {
      assert results[..i + 1] == results[..i] + [results[i]];
      match EffectiveOutcome(results[i]) {
        case Denied => return Deny;
        case Flagged => sawFlag := true;
        case _ =>
      }
    }
    assert results[..|results|] == results;
    v := if sawFlag then Review else Approve;
  }

  /** How severe a verdict is; the larger one wins. */
  function Severity(v: Verdict): nat { match v case Approve => 0 case Review => 1 case Deny => 2 }

  lemma OrderIndependent(a: seq<PredicateResult>, b: seq<PredicateResult>)
    requires multiset(a) == multiset(b)
    ensures Precedence(a) == Precedence(b)
  {
    forall r ensures r in a <==> r in b {
      assert r in a <==> r in multiset(a);
      assert r in b <==> r in multiset(b);
    }
    if a != [] { assert a[0] in b; }
    if b != [] { assert b[0] in a; }
  }

  /** Combining two non-empty lists takes the more severe verdict, so adding results
      never makes a decision more permissive. */
  lemma ConcatIsSeverityJoin(a: seq<PredicateResult>, b: seq<PredicateResult>)
    requires a != [] && b != []
    ensures Severity(Precedence(a + b)) ==
            if Severity(Precedence(a)) < Severity(Precedence(b)) then Severity(Precedence(b)) else Severity(Precedence(a))
  {
    assert forall r :: r in a + b <==> r in a || r in b;
  }

  /** A predicate that did not complete is part of an approval only under FailOpen. */
  lemma UnavailableNeverApproves(results: seq<PredicateResult>, r: PredicateResult)
    requires r in results && r.outcome.Unavailable? && !r.failMode.FailOpen?
    ensures Precedence(results) != Approve
  {
    assert EffectiveOutcome(r) in {Denied, Flagged};
  }

  /** What a single result decides: its own outcome, and for one that did not complete
      what its fail mode says, review unless the customer declared otherwise. */
  lemma OneResultDecides(r: PredicateResult)
    ensures r.outcome == Denied ==> Precedence([r]) == Deny
    ensures r.outcome == Flagged ==> Precedence([r]) == Review
    ensures r.outcome == Satisfied ==> Precedence([r]) == Approve
    ensures r.outcome == Unavailable && r.failMode == FailClosedDeny ==> Precedence([r]) == Deny
    ensures r.outcome == Unavailable && r.failMode == FailOpen ==> Precedence([r]) == Approve
    ensures r.outcome == Unavailable && r.failMode in {FailClosedReview, Unspecified} ==> Precedence([r]) == Review
    ensures Precedence([]) == Deny
  {
    assert r in [r] && forall x :: x in [r] ==> x == r;
  }

  /** Approval means every effective outcome is satisfied, exactly when no result
      carries an outcome name the algebra does not know: such a result is ignored. */
  lemma ApproveMeansAllSatisfiedIff(results: seq<PredicateResult>)
    requires Precedence(results) == Approve
    ensures (forall r :: r in results ==> EffectiveOutcome(r).Satisfied?)
        <==> forall r :: r in results ==> !r.outcome.Other?
  {
  }

  /** A list whose only result has an unknown outcome is approved. */
  lemma UnknownOutcomeApproves(r: PredicateResult)
    requires r.outcome.Other?
    ensures Precedence([r]) == Approve && !EffectiveOutcome(r).Satisfied?
  {
    assert forall x :: x in [r] ==> x == r;
  }
}
