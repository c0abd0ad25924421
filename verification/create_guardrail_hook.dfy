/**
 * `useCreateGuardrail`: validates the form, builds the `create_guardrail`
 * argument (fresh guardrail id, fresh rule ids, `votes = 0`, the creation
 * time) and dispatches the reply to the caller's callbacks. The fresh UUIDs
 * and `Date.now()` are parameters.
 */
module CreateGuardrailHook {
  import opened Wrappers
  import Registry
  import IcTypes
  import opened CandidInterface
  import opened HookSupport

  /** The frontend's status type, the literal union `"Proposed" | "Voting" | "Approved" | "Rejected"`. */
  type StatusName = s: string | s == "Proposed" || s == "Voting" || s == "Approved" || s == "Rejected"
    witness "Proposed"

  /** `convertRuleStatus`: a status name becomes the single-key variant object of the same name. */
  function ConvertRuleStatus(status: StatusName): (v: Variant)
    ensures EncodeStatus(v).Some? && TagName(EncodeStatus(v).value) == status
  {
    if status == "Proposed" then {"Proposed"}
    else if status == "Voting" then {"Voting"}
    else if status == "Approved" then {"Approved"}
    else {"Rejected"}
  }

  datatype RuleDraft = RuleDraft(text: string, status: StatusName)

  /** The mutation's argument, as the create form supplies it. */
  datatype GuardrailDraft = GuardrailDraft(
    name: string,
    category: string,
    rules: seq<RuleDraft>,
    owner: IcTypes.Principal,
    createdAt: int)

  const EmptyName: string := "Guardrail name cannot be empty."
  const NoRules: string := "At least one rule is required."
  const UnknownError: string := "An unknown error occurred."

  /** One outgoing rule: a fresh id, the text as typed, the chosen status, no votes. */
  function NewRule(id: string, draft: RuleDraft): JsRule
  {
    JsRule(id, draft.text, ConvertRuleStatus(draft.status), 0)
  }

  /**
   * The validation and construction in `mutationFn`: `Err` carries the message of the
   * `Error` it throws before any call; `ruleUuid(i)` is the i-th `crypto.randomUUID()`
   * of the rule mapping and `now` is `Date.now()`.
   */
  function CreateRequest(draft: GuardrailDraft, guardrailUuid: string, ruleUuid: nat -> string, now: nat)
    : (r: Result<JsGuardrail, string>)
    ensures Trim(draft.name) == [] ==> r == Err(EmptyName)
    ensures Trim(draft.name) != [] && draft.rules == [] ==> r == Err(NoRules)
    ensures r.Ok? <==> Trim(draft.name) != [] && draft.rules != []
    ensures r.Ok? ==>
      && r.value.id == guardrailUuid
      && r.value.name == draft.name && r.value.category == draft.category && r.value.owner == draft.owner
      && r.value.createdAt == now
      && |r.value.rules| == |draft.rules|
      && forall i | 0 <= i < |draft.rules| :: r.value.rules[i] == NewRule(ruleUuid(i), draft.rules[i])
  {
    if Trim(draft.name) == [] then Err(EmptyName)
    else if |draft.rules| == 0 then Err(NoRules)
    else
      Ok(JsGuardrail(guardrailUuid, draft.name, draft.category,
        seq(|draft.rules|, i requires 0 <= i < |draft.rules| => NewRule(ruleUuid(i), draft.rules[i])),
        draft.owner, now))
  }

  /** The hook's `onError`: an `Error`'s message, anything else a fixed text. */
  function OnCreateError(reason: Thrown): (c: Callback<string>)
    ensures c.OnError?
    ensures reason.ErrorObject? ==> c.message == reason.message
    ensures reason.OtherValue? ==> c.message == UnknownError
  {
    match reason
    case ErrorObject(m) => OnError(m)
    case OtherValue => OnError(UnknownError)
  }

  /**
   * The whole mutation: validate, build, call the canister (`backend`, the
   * remote call and its outcome) and dispatch. Nothing is sent when validation fails.
   */
  function CreateGuardrail(
    draft: GuardrailDraft, guardrailUuid: string, ruleUuid: nat -> string, now: nat,
    backend: JsGuardrail -> Settled<Result<string, string>>)
    : (f: Flow<JsGuardrail, string>)
    ensures Trim(draft.name) == [] ==> f == Flow(None, OnError(EmptyName))
    ensures Trim(draft.name) != [] && draft.rules == [] ==> f == Flow(None, OnError(NoRules))
    ensures f.sent.Some? <==> CreateRequest(draft, guardrailUuid, ruleUuid, now).Ok?
    ensures f.sent.Some? ==> f.sent.value == CreateRequest(draft, guardrailUuid, ruleUuid, now).value
    ensures f.sent.Some? && backend(f.sent.value).Resolved? ==> f.callback == OnReply(backend(f.sent.value).value)
    ensures f.sent.Some? && backend(f.sent.value).Rejected? ==> f.callback == OnCreateError(backend(f.sent.value).reason)
  {
    match CreateRequest(draft, guardrailUuid, ruleUuid, now)
    case Err(m) => Flow(None, OnCreateError(ErrorObject(m)))
    case Ok(request) =>
      var callback := match backend(request)
        case Resolved(data) => OnReply(data)
        case Rejected(reason) => OnCreateError(reason);
      Flow(Some(request), callback)
  }

  /**
   * What reaches the canister: an accepted form becomes a registry record with the
   * fresh ids, the form's name, category and owner, and per rule the text as typed,
   * the same-named status (not forced to `Proposed`) and zero votes.
   */
  lemma CreateRequestReachesRegistry(draft: GuardrailDraft, guardrailUuid: string, ruleUuid: nat -> string, now: nat)
    requires Trim(draft.name) != [] && draft.rules != []
    requires now < 0x1_0000_0000_0000_0000
    ensures var g := EncodeGuardrail(CreateRequest(draft, guardrailUuid, ruleUuid, now).value);
      && g.Some?
      && g.value.id == guardrailUuid && g.value.name == draft.name && g.value.category == draft.category
      && g.value.owner == draft.owner && g.value.createdAt == now
      && |g.value.rules| == |draft.rules|
      && forall i | 0 <= i < |draft.rules| ::
           && g.value.rules[i].id == ruleUuid(i)
           && g.value.rules[i].text == draft.rules[i].text
           && TagName(g.value.rules[i].status) == draft.rules[i].status
           && g.value.rules[i].votes == 0
  {
    var request := CreateRequest(draft, guardrailUuid, ruleUuid, now).value;
    forall i | 0 <= i < |request.rules| ensures EncodeRule(request.rules[i]).Some? {
      assert request.rules[i] == NewRule(ruleUuid(i), draft.rules[i]);
    }
  }
}
