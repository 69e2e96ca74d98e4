/** Comparison of a requested and a reported TopDown scope (devkit_selector.go). */
module Scopes {
  import opened Intervals
  import Selector
  import PidSelector

  datatype Scope = Scope(targetType: string, target: string)

  /** A verdict, or the reason no verdict is possible. */
  datatype Verdict = Same | Different | BadRequested(Selector.Reason) | BadReported(Selector.Reason) | UnknownType

  /** Both scopes cover the same CPUs or processes. */
  ghost predicate SameTargets(a: Scope, b: Scope) {
    if a.targetType != b.targetType then false
    else if a.targetType == "cpu" then
      forall c :: Selector.Selects(a.target, c) <==> Selector.Selects(b.target, c)
    else if a.targetType == "pid" then
      forall v :: PidSelector.Lists(a.target, v) <==> PidSelector.Lists(b.target, v)
    else true
  }

  /** The target text of a scope is one the collectors accept. */
  predicate Acceptable(s: Scope) {
    if s.targetType == "cpu" then Selector.CanonicalCPU(s.target, MAX_UINT64).Ok?
    else if s.targetType == "pid" then PidSelector.CanonicalPID(s.target, MAX_UINT64).Ok?
    else s.targetType == "system"
  }

  /** MAIN: on acceptable scopes the verdict is equality of the sets; scopes of different
      types always differ; an error is reported exactly when the common type is unknown or
      one of the two texts is not acceptable. */
  method ScopesEquivalent(requested: Scope, reported: Scope) returns (verdict: Verdict)
    ensures requested.targetType != reported.targetType ==> verdict == Different
    ensures requested.targetType == reported.targetType && Acceptable(requested) && Acceptable(reported) ==>
              verdict == if SameTargets(requested, reported) then Same else Different
    ensures requested.targetType == reported.targetType && !(Acceptable(requested) && Acceptable(reported)) ==>
              verdict.BadRequested? || verdict.BadReported? || verdict.UnknownType?
    ensures verdict.UnknownType? ==> requested.targetType !in ["system", "cpu", "pid"]
    ensures verdict.BadRequested? ==> !Acceptable(requested)
    ensures verdict.BadReported? ==> Acceptable(requested) && !Acceptable(reported)
  {
    if requested.targetType != reported.targetType {
      return Different;
    }
    if requested.targetType == "system" {
      return Same;
    } else if requested.targetType == "cpu" {
      var one := Selector.CanonicalizeCPUSelector(requested.target, MAX_UINT64);
      if one.Err? {
        return BadRequested(one.reason);
      }
      var two := Selector.CanonicalizeCPUSelector(reported.target, MAX_UINT64);
      if two.Err? {
        return BadReported(two.reason);
      }
      Selector.CanonicalCPUIffSameSet(requested.target, MAX_UINT64, reported.target, MAX_UINT64);
      return if one.value == two.value then Same else Different;
    } else if requested.targetType == "pid" {
      var one := PidSelector.CanonicalizePIDSelector(requested.target, MAX_UINT64);
      if one.Err? {
        return BadRequested(one.reason);
      }
      var two := PidSelector.CanonicalizePIDSelector(reported.target, MAX_UINT64);
      if two.Err? {
        return BadReported(two.reason);
      }
      PidSelector.CanonicalPIDIffSameSet(requested.target, MAX_UINT64, reported.target, MAX_UINT64);
      return if one.value == two.value then Same else Different;
    } else {
      return UnknownType;
    }
  }
}
