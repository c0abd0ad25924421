/**
 * `useGetGuardrails`: fetches the caller's guardrails and maps each record
 * to the frontend's shape, decoding every rule status back to its name.
 * A status with none of the four tags aborts the mapping.
 */
module GetGuardrailsHook {
  import opened Wrappers
  import Registry
  import IcTypes
  import opened CandidInterface
  import opened HookSupport
  import opened CreateGuardrailHook

  datatype ViewRule = ViewRule(id: string, text: string, status: StatusName, votes: int)

  datatype ViewGuardrail = ViewGuardrail(
    id: string,
    name: string,
    category: string,
    owner: string,
    createdAt: int,
    rules: seq<ViewRule>)

  const UnknownStatus: string := "Unknown rule status"
  const FetchFailed: string := "Failed to fetch guardrails. Please try again."

  /** `mapRuleStatus`: the first of the four tags present among the object's keys, or an error. */
  function MapRuleStatus(v: Variant): (r: Result<StatusName, string>)
    ensures r.Err? <==> "Proposed" !in v && "Voting" !in v && "Approved" !in v && "Rejected" !in v
    ensures r.Err? ==> r.error == UnknownStatus
    ensures r.Ok? ==> r.value in v
  {
    if "Proposed" in v then Ok("Proposed")
    else if "Voting" in v then Ok("Voting")
    else if "Approved" in v then Ok("Approved")
    else if "Rejected" in v then Ok("Rejected")
    else Err(UnknownStatus)
  }

  /** Decoding a status name's variant gives the name back. */
  lemma ConvertThenMap(status: StatusName)
    ensures MapRuleStatus(ConvertRuleStatus(status)) == Ok(status)
  {
  }

  /** Every variant the canister can return decodes to its tag's name, and re-encodes to the same variant. */
  lemma DecodedStatusRoundTrip(s: Registry.RuleStatus)
    ensures MapRuleStatus(DecodeStatus(s)) == Ok(TagName(s))
    ensures ConvertRuleStatus(MapRuleStatus(DecodeStatus(s)).value) == DecodeStatus(s)
  {
    match s
    case Proposed =>
    case Voting =>
    case Approved =>
    case Rejected =>
  }

  function MapRule(r: JsRule): (v: Result<ViewRule, string>)
  {
    match MapRuleStatus(r.status)
    case Err(e) => Err(e)
    case Ok(s) => Ok(ViewRule(r.id, r.text, s, r.votes))
  }

  function MapRules(rs: seq<JsRule>): (r: Result<seq<ViewRule>, string>)
    ensures r.Ok? <==> forall i | 0 <= i < |rs| :: MapRuleStatus(rs[i].status).Ok?
    ensures r.Err? ==> r.error == UnknownStatus
    ensures r.Ok? ==> |r.value| == |rs| && forall i | 0 <= i < |rs| ::
      r.value[i] == ViewRule(rs[i].id, rs[i].text, MapRuleStatus(rs[i].status).value, rs[i].votes)
  {
    if rs == [] then Ok([])
    else match (MapRule(rs[0]), MapRules(rs[1..]))
      case (Ok(v), Ok(tail)) => Ok([v] + tail)
      case (Err(e), _) => Err(e)
      case (_, Err(e)) => Err(e)
  }

  /**
   * The mapping in `mutationFn`: same guardrails in the same order, each with its
   * rules in the same order; `principalText` is `Principal.toText`.
   */
  function MapGuardrails(gs: seq<JsGuardrail>, principalText: IcTypes.Principal -> string)
    : (r: Result<seq<ViewGuardrail>, string>)
    ensures r.Ok? <==> forall i | 0 <= i < |gs| :: MapRules(gs[i].rules).Ok?
    ensures r.Err? ==> r.error == UnknownStatus
    ensures r.Ok? ==> |r.value| == |gs| && forall i | 0 <= i < |gs| ::
      && r.value[i].id == gs[i].id && r.value[i].name == gs[i].name && r.value[i].category == gs[i].category
      && r.value[i].owner == principalText(gs[i].owner) && r.value[i].createdAt == gs[i].createdAt
      && r.value[i].rules == MapRules(gs[i].rules).value
  {
    if gs == [] then Ok([])
    else
      var g := gs[0];
      match (MapRules(g.rules), MapGuardrails(gs[1..], principalText))
      case (Ok(rules), Ok(tail)) =>
        Ok([ViewGuardrail(g.id, g.name, g.category, principalText(g.owner), g.createdAt, rules)] + tail)
      case (Err(e), _) => Err(e)
      case (_, Err(e)) => Err(e)
  }

  /** The hook's `onError`: `error.message || "Failed to fetch guardrails. Please try again."`. */
  function OnFetchError(reason: Thrown): (c: Callback<seq<ViewGuardrail>>)
    ensures c.OnError?
    ensures reason.ErrorObject? && reason.message != "" ==> c.message == reason.message
    ensures reason.OtherValue? || reason.message == "" ==> c.message == FetchFailed
  {
    match reason
    case ErrorObject(m) => OnError(if m != "" then m else FetchFailed)
    case OtherValue => OnError(FetchFailed)
  }

  /**
   * The whole mutation, given the outcome of `get_guardrails_by_owner`. A fetch
   * that resolves and maps always reaches `onSuccess`, even with no guardrails;
   * `onError` runs only on a rejection or a status the mapping cannot decode.
   */
  function GetGuardrails(fetched: Settled<seq<JsGuardrail>>, principalText: IcTypes.Principal -> string)
    : (c: Callback<seq<ViewGuardrail>>)
    ensures c != NoCallback
    ensures fetched.Resolved? && MapGuardrails(fetched.value, principalText).Ok? ==>
      c == OnSuccess(MapGuardrails(fetched.value, principalText).value)
    ensures fetched.Resolved? && MapGuardrails(fetched.value, principalText).Err? ==> c == OnError(UnknownStatus)
    ensures fetched.Rejected? ==> c == OnFetchError(fetched.reason)
  {
    match fetched
    case Resolved(gs) =>
      (match MapGuardrails(gs, principalText)
       case Ok(mapped) => OnSuccess(mapped)
       case Err(e) => OnError(e))
    case Rejected(reason) => OnFetchError(reason)
  }

  /**
   * A record read back from the registry always maps: its view keeps the ids, texts,
   * votes and, through `mapRuleStatus`, the status names of the stored rules.
   */
  lemma StoredRecordsMap(gs: seq<Registry.Guardrail>, principalText: IcTypes.Principal -> string)
    ensures var r := MapGuardrails(seq(|gs|, i requires 0 <= i < |gs| => DecodeGuardrail(gs[i])), principalText);
      && r.Ok? && |r.value| == |gs|
      && forall i, j | 0 <= i < |gs| && 0 <= j < |gs[i].rules| ::
           && |r.value[i].rules| == |gs[i].rules|
           && r.value[i].rules[j].id == gs[i].rules[j].id
           && r.value[i].rules[j].text == gs[i].rules[j].text
           && r.value[i].rules[j].status == TagName(gs[i].rules[j].status)
           && r.value[i].rules[j].votes == gs[i].rules[j].votes
  {
    var js := seq(|gs|, i requires 0 <= i < |gs| => DecodeGuardrail(gs[i]));
    forall i, j | 0 <= i < |gs| && 0 <= j < |gs[i].rules|
      ensures MapRuleStatus(js[i].rules[j].status) == Ok(TagName(gs[i].rules[j].status))
    {
      DecodedStatusRoundTrip(gs[i].rules[j].status);
    }
  }

  /**
   * Create, store, fetch: the statuses chosen in the create form come back with the
   * same names, the texts as typed, the fresh ids and zero votes.
   */
  lemma CreatedRulesReadBack(
    draft: GuardrailDraft, guardrailUuid: string, ruleUuid: nat -> string, now: nat,
    principalText: IcTypes.Principal -> string)
    requires Trim(draft.name) != [] && draft.rules != []
    requires now < 0x1_0000_0000_0000_0000
    ensures var stored := EncodeGuardrail(CreateRequest(draft, guardrailUuid, ruleUuid, now).value).value;
      var r := MapGuardrails([DecodeGuardrail(stored)], principalText);
      && r.Ok? && |r.value| == 1 && |r.value[0].rules| == |draft.rules|
      && forall j | 0 <= j < |draft.rules| ::
           r.value[0].rules[j] == ViewRule(ruleUuid(j), draft.rules[j].text, draft.rules[j].status, 0)
  {
    CreateRequestReachesRegistry(draft, guardrailUuid, ruleUuid, now);
    var stored := EncodeGuardrail(CreateRequest(draft, guardrailUuid, ruleUuid, now).value).value;
    StoredRecordsMap([stored], principalText);
    assert [DecodeGuardrail(stored)] == seq(1, i requires 0 <= i < 1 => DecodeGuardrail([stored][i]));
  }
}
