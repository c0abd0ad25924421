/**
 * `useProposeRule`: rejects blank rule text, builds the rule sent to
 * `propose_rule` (fresh id, the text as typed, the chosen status, no votes)
 * and dispatches the reply. The fresh UUID is a parameter.
 */
module ProposeRuleHook {
  import opened Wrappers
  import Registry
  import IcTypes
  import opened CandidInterface
  import opened HookSupport
  import opened CreateGuardrailHook

  const EmptyText: string := "Rule text cannot be empty."
  const ProposeFailed: string := "Failed to propose rule."

  /** The two arguments of `propose_rule`, or the message of the `Error` thrown before the call. */
  function ProposeRequest(guardrailId: string, rule: RuleDraft, ruleUuid: string): (r: Result<(string, JsRule), string>)
    ensures r.Err? <==> Trim(rule.text) == []
    ensures r.Err? ==> r.error == EmptyText
    ensures r.Ok? ==> r.value == (guardrailId, NewRule(ruleUuid, rule))
  {
    if Trim(rule.text) == [] then Err(EmptyText)
    else Ok((guardrailId, NewRule(ruleUuid, rule)))
  }

  /** The hook's `onError`: `error.message || "Failed to propose rule."`. */
  function OnProposeError(reason: Thrown): (c: Callback<string>)
    ensures c.OnError?
    ensures reason.ErrorObject? && reason.message != "" ==> c.message == reason.message
    ensures reason.OtherValue? || reason.message == "" ==> c.message == ProposeFailed
  {
    match reason
    case ErrorObject(m) => OnError(if m != "" then m else ProposeFailed)
    case OtherValue => OnError(ProposeFailed)
  }

  /** The whole mutation, with `backend` standing for the remote call and its outcome. */
  function ProposeRule(
    guardrailId: string, rule: RuleDraft, ruleUuid: string,
    backend: (string, JsRule) -> Settled<Result<string, string>>)
    : (f: Flow<(string, JsRule), string>)
    ensures Trim(rule.text) == [] ==> f == Flow(None, OnError(EmptyText))
    ensures Trim(rule.text) != [] ==> f.sent == Some((guardrailId, NewRule(ruleUuid, rule)))
    ensures f.sent.Some? && backend(f.sent.value.0, f.sent.value.1).Resolved? ==>
      f.callback == OnReply(backend(f.sent.value.0, f.sent.value.1).value)
    ensures f.sent.Some? && backend(f.sent.value.0, f.sent.value.1).Rejected? ==>
      f.callback == OnProposeError(backend(f.sent.value.0, f.sent.value.1).reason)
  {
    match ProposeRequest(guardrailId, rule, ruleUuid)
    case Err(m) => Flow(None, OnProposeError(ErrorObject(m)))
    case Ok(args) =>
      var callback := match backend(args.0, args.1)
        case Resolved(data) => OnReply(data)
        case Rejected(reason) => OnProposeError(reason);
      Flow(Some(args), callback)
  }

  /**
   * What reaches the canister: the guardrail id unchanged, and a rule with the fresh
   * id, the untrimmed text, the same-named status and zero votes.
   */
  lemma ProposeRequestReachesRegistry(guardrailId: string, rule: RuleDraft, ruleUuid: string)
    requires Trim(rule.text) != []
    ensures var args := ProposeRequest(guardrailId, rule, ruleUuid).value;
      && args.0 == guardrailId
      && EncodeRule(args.1).Some?
      && EncodeRule(args.1).value.id == ruleUuid
      && EncodeRule(args.1).value.text == rule.text
      && TagName(EncodeRule(args.1).value.status) == rule.status
      && EncodeRule(args.1).value.votes == 0
  {
  }
}
