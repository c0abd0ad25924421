/**
 * How the registry's Candid types look from the JavaScript agent: a rule
 * status is an object with one own key naming the tag (`{Proposed: null}`),
 * `nat32` is a JavaScript number and `nat64` a BigInt. Encoding checks what
 * the agent checks before a call (a variant object with exactly one own key,
 * and that key one of the type's tags; unsigned values in range); decoding a
 * reply always yields a single-key object.
 */
module CandidInterface {
  import opened Wrappers
  import Registry
  import IcTypes

  /** The own keys of a JavaScript variant object; `{Proposed: null}` is `{"Proposed"}`. */
  type Variant = set<string>

  datatype JsRule = JsRule(id: string, text: string, status: Variant, votes: int)

  datatype JsGuardrail = JsGuardrail(
    id: string,
    name: string,
    category: string,
    rules: seq<JsRule>,
    owner: IcTypes.Principal,
    createdAt: int)

  /** The Candid label of a status: the Rust variant's name. */
  function TagName(s: Registry.RuleStatus): string
  {
    match s
    case Proposed => "Proposed"
    case Voting => "Voting"
    case Approved => "Approved"
    case Rejected => "Rejected"
  }

  /** A status variant as the agent decodes it from a reply. */
  function DecodeStatus(s: Registry.RuleStatus): (v: Variant)
    ensures v == {TagName(s)}
  {
    {TagName(s)}
  }

  /** A status variant as the agent encodes it for a call: one own key, and a known tag. */
  function EncodeStatus(v: Variant): (r: Option<Registry.RuleStatus>)
    ensures r.Some? <==> exists s :: v == {TagName(s)}
    ensures r.Some? ==> v == {TagName(r.value)}
  {
    if v == {"Proposed"} then assert v == {TagName(Registry.Proposed)}; Some(Registry.Proposed)
    else if v == {"Voting"} then assert v == {TagName(Registry.Voting)}; Some(Registry.Voting)
    else if v == {"Approved"} then assert v == {TagName(Registry.Approved)}; Some(Registry.Approved)
    else if v == {"Rejected"} then assert v == {TagName(Registry.Rejected)}; Some(Registry.Rejected)
    else
      assert forall s :: v != {TagName(s)};
      None
  }

  function EncodeRule(r: JsRule): (e: Option<Registry.Rule>)
    ensures e.Some? <==> EncodeStatus(r.status).Some? && 0 <= r.votes < 0x1_0000_0000
    ensures e.Some? ==> e.value == Registry.Rule(r.id, r.text, EncodeStatus(r.status).value, r.votes)
  {
    match EncodeStatus(r.status)
    case None => None
    case Some(s) =>
      if 0 <= r.votes < 0x1_0000_0000 then Some(Registry.Rule(r.id, r.text, s, r.votes)) else None
  }

  function EncodeRules(rs: seq<JsRule>): (e: Option<seq<Registry.Rule>>)
    ensures e.Some? <==> forall i | 0 <= i < |rs| :: EncodeRule(rs[i]).Some?
    ensures e.Some? ==> |e.value| == |rs| && forall i | 0 <= i < |rs| :: e.value[i] == EncodeRule(rs[i]).value
  {
    if rs == [] then Some([])
    else match (EncodeRule(rs[0]), EncodeRules(rs[1..]))
      case (Some(r), Some(tail)) => Some([r] + tail)
      case _ => None
  }

  /** The argument of `create_guardrail` as the agent encodes it, or `None` when the agent would refuse it. */
  function EncodeGuardrail(g: JsGuardrail): (e: Option<Registry.Guardrail>)
    ensures e.Some? <==> EncodeRules(g.rules).Some? && 0 <= g.createdAt < 0x1_0000_0000_0000_0000
    ensures e.Some? ==> e.value == Registry.Guardrail(g.id, g.name, g.category, EncodeRules(g.rules).value, g.owner, g.createdAt)
  {
    match EncodeRules(g.rules)
    case None => None
    case Some(rules) =>
      if 0 <= g.createdAt < 0x1_0000_0000_0000_0000 then
        Some(Registry.Guardrail(g.id, g.name, g.category, rules, g.owner, g.createdAt))
      else None
  }

  function DecodeRule(r: Registry.Rule): JsRule
  {
    JsRule(r.id, r.text, DecodeStatus(r.status), r.votes)
  }

  /** A stored guardrail as the agent hands it to JavaScript. */
  function DecodeGuardrail(g: Registry.Guardrail): (j: JsGuardrail)
    ensures |j.rules| == |g.rules|
    ensures forall i | 0 <= i < |g.rules| :: j.rules[i] == DecodeRule(g.rules[i])
  {
    JsGuardrail(g.id, g.name, g.category, seq(|g.rules|, i requires 0 <= i < |g.rules| => DecodeRule(g.rules[i])),
      g.owner, g.createdAt)
  }

  /** Encoding undoes decoding: a record read from the registry can be sent back unchanged. */
  lemma DecodeThenEncode(g: Registry.Guardrail)
    ensures EncodeGuardrail(DecodeGuardrail(g)) == Some(g)
  {
    var j := DecodeGuardrail(g);
    forall s: Registry.RuleStatus ensures EncodeStatus(DecodeStatus(s)) == Some(s) {
      match s
      case Proposed =>
      case Voting =>
      case Approved =>
      case Rejected =>
    }
    assert EncodeRules(j.rules).value == g.rules;
  }
}
