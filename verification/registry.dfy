/**
 * The guardrail registry canister: one stable map from guardrail id to
 * guardrail record, two update calls that write it and three query calls
 * that read it. The store keeps exactly what it is given: it generates no
 * ids, forces no status and resets no vote count.
 */
module Registry {
  import opened Wrappers
  import KeyOrder
  import opened IcTypes

  /** The four status tags; no operation of the canister ever changes a rule's status. */
  datatype RuleStatus = Proposed | Voting | Approved | Rejected

  datatype Rule = Rule(id: string, text: string, status: RuleStatus, votes: U32)

  datatype Guardrail = Guardrail(
    id: string,
    name: string,
    category: string,
    rules: seq<Rule>,
    owner: Principal,
    createdAt: U64)

  const NotFound: string := "Guardrail not found"

  /** The records of `m` under the keys `ks`, in the order of `ks`. */
  function ValuesAt(m: map<string, Guardrail>, ks: seq<string>): (gs: seq<Guardrail>)
    requires forall k | k in ks :: k in m
    ensures |gs| == |ks|
    ensures forall i | 0 <= i < |ks| :: gs[i] == m[ks[i]]
  {
    if ks == [] then [] else [m[ks[0]]] + ValuesAt(m, ks[1..])
  }

  /** Every record of the store, in ascending key order: what iterating the B-tree map yields. */
  function Listing(m: map<string, Guardrail>): (gs: seq<Guardrail>)
  {
    KeyOrder.SortedKeysCorrect(m.Keys);
    ValuesAt(m, KeyOrder.SortedKeys(m.Keys))
  }

  /** The elements of `gs` owned by `caller`, in their order in `gs`. */
  function OwnedBy(gs: seq<Guardrail>, caller: Principal): (r: seq<Guardrail>)
  {
    if gs == [] then []
    else if gs[0].owner == caller then [gs[0]] + OwnedBy(gs[1..], caller)
    else OwnedBy(gs[1..], caller)
  }

  /** `sub` is `gs` with some elements dropped and the rest kept in order. */
  predicate Subsequence(sub: seq<Guardrail>, gs: seq<Guardrail>)
  {
    if sub == [] then true
    else if gs == [] then false
    else if sub[0] == gs[0] then Subsequence(sub[1..], gs[1..])
    else Subsequence(sub, gs[1..])
  }

  /** The owner filter keeps exactly the caller's records and keeps them in order. */
  lemma {:induction false} OwnedByCorrect(gs: seq<Guardrail>, caller: Principal)
    ensures forall g :: g in OwnedBy(gs, caller) <==> g in gs && g.owner == caller
    ensures Subsequence(OwnedBy(gs, caller), gs)
  {
    if gs != [] {
      OwnedByCorrect(gs[1..], caller);
      assert gs == [gs[0]] + gs[1..];
      var r := OwnedBy(gs, caller);
      if gs[0].owner == caller {
        assert r[1..] == OwnedBy(gs[1..], caller);
      }
    }
  }

  /** Each key of the store maps to the record carrying that id: the id under which `create_guardrail` stored it. */
  ghost predicate KeyedById(m: map<string, Guardrail>)
  {
    forall k | k in m :: m[k].id == k
  }

  /** A keyed store lists each of its records exactly once, ids strictly ascending. */
  lemma ListingCorrect(m: map<string, Guardrail>)
    requires KeyedById(m)
    ensures |Listing(m)| == |m|
    ensures forall i | 0 <= i < |Listing(m)| :: Listing(m)[i].id in m && m[Listing(m)[i].id] == Listing(m)[i]
    ensures forall k | k in m :: m[k] in Listing(m)
    ensures forall i, j | 0 <= i < j < |Listing(m)| :: KeyOrder.Less(Listing(m)[i].id, Listing(m)[j].id)
  {
    var ks := KeyOrder.SortedKeys(m.Keys);
    KeyOrder.SortedKeysCorrect(m.Keys);
    assert |m.Keys| == |m|;
    forall k | k in m ensures m[k] in Listing(m) {
      var i :| 0 <= i < |ks| && ks[i] == k;
      assert Listing(m)[i] == m[k];
    }
  }

  class GuardrailStore {
    /** `GUARDRAIL_STORE`: guardrail id to guardrail record. */
    var store: map<string, Guardrail>

    ghost predicate Valid()
      reads this
    {
      KeyedById(store)
    }

    constructor ()
      ensures Valid() && store == map[]
    {
      store := map[];
    }

    /** `create_guardrail`: store the record as given under its own id, replacing any record with that id. */
    method CreateGuardrail(guardrail: Guardrail) returns (r: Result<string, string>)
      requires Valid()
      modifies this
      ensures Valid()
      ensures r == Ok(guardrail.id)
      ensures store == old(store)[guardrail.id := guardrail]
      ensures guardrail.id in old(store) ==> |store| == |old(store)|
    {
      var id := guardrail.id;
      store := store[id := guardrail];
      r := Ok(id);
    }

    /** `propose_rule`: append the rule, as given, to the rules of an existing guardrail. */
    method ProposeRule(guardrailId: string, rule: Rule) returns (r: Result<string, string>)
      requires Valid()
      modifies this
      ensures Valid()
      ensures guardrailId !in old(store) ==> r == Err(NotFound) && store == old(store)
      ensures guardrailId in old(store) ==>
        && r == Ok(rule.id)
        && store == old(store)[guardrailId := old(store)[guardrailId].(rules := old(store)[guardrailId].rules + [rule])]
    {
      if guardrailId in store {
        var guardrail := store[guardrailId];
        guardrail := guardrail.(rules := guardrail.rules + [rule]);
        store := store[guardrailId := guardrail];
        r := Ok(rule.id);
      } else {
        r := Err(NotFound);
      }
    }

    /** `get_guardrail`: read-only lookup, failing exactly when the id is absent. */
    function GetGuardrail(id: string): (r: Result<Guardrail, string>)
      reads this
      ensures r.Ok? <==> id in store
      ensures r.Ok? ==> r.value == store[id]
      ensures r.Err? ==> r.error == NotFound
    {
      if id in store then Ok(store[id]) else Err(NotFound)
    }

    /** `get_all_gaurdrails`: every stored record once, in ascending id order. */
    function GetAllGaurdrails(): (r: seq<Guardrail>)
      requires Valid()
      reads this
      ensures |r| == |store|
      ensures forall id | id in store :: store[id] in r
      ensures forall i | 0 <= i < |r| :: r[i].id in store && store[r[i].id] == r[i]
      ensures forall i, j | 0 <= i < j < |r| :: KeyOrder.Less(r[i].id, r[j].id)
    {
      ListingCorrect(store);
      Listing(store)
    }

    /** `get_guardrails_by_owner`: the records whose owner is the caller, in the order of the full listing. */
    function GetGuardrailsByOwner(caller: Principal): (r: seq<Guardrail>)
      requires Valid()
      reads this
      ensures forall g :: g in r <==> g in GetAllGaurdrails() && g.owner == caller
      ensures forall id | id in store && store[id].owner == caller :: store[id] in r
      ensures forall g | g in r :: g.id in store && store[g.id] == g
      ensures Subsequence(r, GetAllGaurdrails())
    {
      OwnedByCorrect(Listing(store), caller);
      ListingCorrect(store);
      OwnedBy(Listing(store), caller)
    }
  }
}
