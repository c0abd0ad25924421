# Consensus Sentry: a Dafny model of its core

Consensus Sentry is a content-moderation system made of several parts:

- **Guardrail registry.** An Internet Computer canister stores guardrails, which are named, owned lists of moderation rules.
- **Frontend hooks.** Three React hooks validate user input and build the canister's requests. They also decode its replies.
- **Governance canister.** It tallies yes/no votes on a rule inside a one-hour window and records a strict-majority decision.
- **Sentry client.** A TypeScript client calls the moderation HTTP API. It renames the snake_case wire reply into its camelCase result and sorts failures into API, timeout and network errors.
- **Two Python rule engines.** The guardrail service (`ree/gaurd.py`) keeps a keyword index with whitelist, synonym and stem handling. It answers fuzzy look-ups and full checks. The simpler API engine (`api/rule-engine/engine.py`) keeps a plain keyword-to-rule-id index.

One module stands for each source file, and small shared modules support them.

| module | models |
|---|---|
| `Registry` (`registry.dfy`) | `icp/src/backend/src/lib.rs`: class `GuardrailStore` over a `map<string, Guardrail>` |
| `KeyOrder` (`key_order.dfy`) | the key order of the stable B-tree map: byte order of strings, and the ascending key listing |
| `CandidInterface` (`candid_interface.dfy`) | how the JavaScript agent encodes and decodes the registry's Candid types |
| `HookSupport` (`hook_support.dfy`) | JavaScript `trim()`, settled promises and the Ok/Err reply dispatch shared by the hooks |
| `CreateGuardrailHook`, `ProposeRuleHook`, `GetGuardrailsHook` | the three hooks, as pure functions of their inputs, the fresh UUIDs and the clock |
| `Governance` (`governance.dfy`) | `icp/src/governance_backend/src/lib.rs`: class `GovernanceCanister` over the vote and result maps |
| `Decimal` (`decimal.dfy`) | rendering a natural number in decimal, as template literals and `format!` do |
| `Sentry` (`sentry.dfy`) | `sentry/src/index.ts`: client defaults, request shapes, normalisation and error classification |
| `PyText` (`py_text.dfy`) | Python's `lower`, `strip`, `split` and the `[^\w\s]` clean-up: ASCII case mapping and word characters, Unicode whitespace |
| `Levenshtein` (`levenshtein.dfy`) | edit distance, defined recursively |
| `GuardRules` (`guard_rules.dfy`) | the keyword index of `ree/gaurd.py`, as functions of the rules, whitelist and synonyms |
| `GuardMatching` (`guard_matching.dfy`) | the fuzzy budget and the staged, deduplicated and truncated `full_check`, as functions |
| `Guard` (`guard.dfy`) | class `RuleManager` of `ree/gaurd.py`, with methods whose loops are proved against those functions |
| `RuleEngine` (`rule_engine.dfy`) | class `RuleManager` of `api/rule-engine/engine.py` and its keyword and semantic steps |

Some inputs are not modelled as code. Each one becomes a parameter or a constructor argument instead:

- time (`now`, in nanoseconds or milliseconds)
- UUIDs
- the calling principal
- `JSON.stringify`
- the Porter stemmer and the WordNet synonym lister
- spaCy's tokens
- the regular-expression matches and the embedding similarities

Behaviour of the code worth knowing:

- `create_guardrail` stores the record exactly as given. It does not assign ids, force rules to `Proposed` or zero `votes`. A repeated id replaces the earlier record instead of failing.
- `propose_rule` appends the rule exactly as given and does not check that rule ids are unique.
- The create hook encodes the caller's status for each rule as it is. It does not force `Proposed`, although it does set `votes` to 0 and generate fresh ids.
- No code moves a rule between `Proposed`, `Voting`, `Approved` and `Rejected`. The model keeps the four-tag enumeration and adds no transitions.

## Model

| member | source | states |
|---|---|---|
| Registry.GuardrailStore.constructor | icp/src/backend/src/lib.rs:85-89 | the store starts empty |
| Registry.GuardrailStore.CreateGuardrail | icp/src/backend/src/lib.rs:93-98 | always returns `Ok(guardrail.id)`; the record is stored unchanged under its own id and nothing else changes; a repeated id overwrites and the size stays the same |
| Registry.GuardrailStore.ProposeRule | icp/src/backend/src/lib.rs:101-113 | an unknown id gives `Err("Guardrail not found")` with the store unchanged; otherwise the rule is appended at the end of that guardrail's rules, its other fields and every other record are kept, and `Ok(rule.id)` is returned |
| Registry.GuardrailStore.GetGuardrail | icp/src/backend/src/lib.rs:115-123 | `Ok` exactly when the id is stored, and then the stored record; otherwise `Err("Guardrail not found")` |
| Registry.GuardrailStore.GetAllGaurdrails | icp/src/backend/src/lib.rs:125-133 | one element per stored record, each the record under its own id, in strictly ascending id order |
| Registry.GuardrailStore.GetGuardrailsByOwner | icp/src/backend/src/lib.rs:135-145 | exactly the stored records whose owner is the caller, in the order of the full listing |
| Registry.OwnedByCorrect | icp/src/backend/src/lib.rs:141 | the owner filter keeps exactly the records with that owner and keeps their relative order |
| Registry.ListingCorrect | icp/src/backend/src/lib.rs:128-131 | the key-ordered listing of a map keyed by id has every record once, in ascending id order |
| KeyOrder.LessIrreflexive | icp/src/backend/src/lib.rs:14-15 | the derived string order on ids is irreflexive |
| KeyOrder.LessAsymmetric | icp/src/backend/src/lib.rs:14-15 | the derived string order is asymmetric |
| KeyOrder.LessTransitive | icp/src/backend/src/lib.rs:14-15 | the derived string order is transitive |
| KeyOrder.LessTotal | icp/src/backend/src/lib.rs:14-15 | any two distinct ids are ordered one way or the other |
| KeyOrder.LeastExists | icp/src/backend/src/lib.rs:85 | every non-empty key set has a least key |
| KeyOrder.LeastUnique | icp/src/backend/src/lib.rs:85 | the least key of a set is unique |
| KeyOrder.Least | icp/src/backend/src/lib.rs:85 | returns the least key of a non-empty set |
| KeyOrder.SortedKeysCorrect | icp/src/backend/src/lib.rs:128-129 | the B-tree iteration lists each key once, in strictly ascending order |
| KeyOrder.AscendingEnumerationUnique | icp/src/backend/src/lib.rs:128-129 | a strictly ascending listing of a key set is that iteration order and no other |
| CandidInterface.DecodeStatus | icp/src/backend/declarations/backend.did.d.ts:4-7 | a decoded status is an object whose only own key is the variant's tag |
| CandidInterface.EncodeStatus | icp/src/backend/declarations/backend.did.d.ts:4-7 | a status object encodes exactly when it has one own key that is one of the four tags, and the result decodes back to that object |
| CandidInterface.EncodeRule | icp/src/backend/declarations/backend.did.d.ts:9-14 | a rule encodes exactly when its status encodes and its votes fit in `nat32`; the fields are then carried over unchanged |
| CandidInterface.EncodeRules | icp/src/backend/declarations/backend.did.d.ts:20 | a rule list encodes exactly when every rule does, with the same length and order |
| CandidInterface.EncodeGuardrail | icp/src/backend/declarations/backend.did.d.ts:16-23 | a guardrail encodes exactly when its rules encode and `created_at` fits in `nat64`; all fields are carried over |
| CandidInterface.DecodeGuardrail | icp/src/backend/declarations/backend.did.d.ts:16-23 | decoding keeps the number and order of rules and decodes each one |
| CandidInterface.DecodeThenEncode | icp/src/backend/declarations/backend.did.d.ts:16-23 | re-encoding a decoded guardrail gives the original record |
| HookSupport.TrimEmptyIffBlank | icp/src/frontend/hooks/useCreateGuardrail.tsx:28 | `trim()` yields the empty string exactly when the text is all JavaScript whitespace |
| HookSupport.OnReply | icp/src/frontend/hooks/useCreateGuardrail.tsx:47-53 | a non-empty `Ok` calls `onSuccess` with it, a non-empty `Err` calls `onError` with it, and an empty payload calls neither |
| CreateGuardrailHook.ConvertRuleStatus | icp/src/frontend/hooks/useCreateGuardrail.tsx:7-14 | each status name becomes a variant that encodes to the status of that same name |
| CreateGuardrailHook.CreateRequest | icp/src/frontend/hooks/useCreateGuardrail.tsx:27-45 | a blank name fails with "Guardrail name cannot be empty.", checked before the rule list; an empty rule list fails with "At least one rule is required."; otherwise name, category and owner pass through, id and `created_at` are the fresh values, and the rules keep their count and order with fresh ids, the given text, the given status and zero votes |
| CreateGuardrailHook.OnCreateError | icp/src/frontend/hooks/useCreateGuardrail.tsx:54-60 | a thrown `Error` reports its message; any other thrown value reports "An unknown error occurred." |
| CreateGuardrailHook.CreateGuardrail | icp/src/frontend/hooks/useCreateGuardrail.tsx:27-60 | the backend is called exactly when validation passes, with that request; a reply is dispatched by Ok/Err, and a rejection goes to the error callback |
| CreateGuardrailHook.CreateRequestReachesRegistry | icp/src/frontend/hooks/useCreateGuardrail.tsx:34-44 | a valid request always passes Candid encoding, and the stored rules have the fresh ids, the given text and status, and zero votes |
| ProposeRuleHook.ProposeRequest | icp/src/frontend/hooks/useProposeRule.tsx:19-30 | blank text fails with "Rule text cannot be empty."; otherwise the guardrail id is passed unchanged with a rule holding the fresh id, the untrimmed text, the given status and zero votes |
| ProposeRuleHook.OnProposeError | icp/src/frontend/hooks/useProposeRule.tsx:39-41 | a thrown error reports its message, or "Failed to propose rule." when the message is missing or empty |
| ProposeRuleHook.ProposeRule | icp/src/frontend/hooks/useProposeRule.tsx:18-41 | blank text calls no backend; otherwise the request is sent and its Ok/Err reply or rejection is dispatched |
| ProposeRuleHook.ProposeRequestReachesRegistry | icp/src/frontend/hooks/useProposeRule.tsx:22-30 | the rule sent always passes Candid encoding, with the fresh id, the text, the given status and zero votes |
| GetGuardrailsHook.MapRuleStatus | icp/src/frontend/hooks/useGetGaurdRails.tsx:29-35 | a status carrying none of the four tags fails with "Unknown rule status" and is never given a default; otherwise the result is one of the object's own tags |
| GetGuardrailsHook.ConvertThenMap | icp/src/frontend/hooks/useGetGaurdRails.tsx:29-33 | decoding the variant built from a status name gives that name back, for all four names |
| GetGuardrailsHook.DecodedStatusRoundTrip | icp/src/frontend/hooks/useGetGaurdRails.tsx:29-35 | a registry status maps to its own tag name, and converting that name back gives the same variant |
| GetGuardrailsHook.MapRules | icp/src/frontend/hooks/useGetGaurdRails.tsx:52-57 | fails exactly when some rule's status is unknown; otherwise keeps count and order, copying id, text and votes |
| GetGuardrailsHook.MapGuardrails | icp/src/frontend/hooks/useGetGaurdRails.tsx:46-58 | fails exactly when some rule list fails; otherwise keeps count and order, copies id, name, category and `created_at`, and renders the owner as principal text |
| GetGuardrailsHook.OnFetchError | icp/src/frontend/hooks/useGetGaurdRails.tsx:69-71 | a thrown error reports its message, or "Failed to fetch guardrails. Please try again." when that is missing or empty |
| GetGuardrailsHook.GetGuardrails | icp/src/frontend/hooks/useGetGaurdRails.tsx:42-71 | a fetch that succeeds and maps calls `onSuccess` with the mapped list, even when it is empty; a mapping failure or a rejected fetch calls `onError` |
| GetGuardrailsHook.StoredRecordsMap | icp/src/frontend/hooks/useGetGaurdRails.tsx:46-57 | every list the registry returns maps without error, keeping each rule's id, text, status name and votes |
| GetGuardrailsHook.CreatedRulesReadBack | icp/src/frontend/hooks/useGetGaurdRails.tsx:46-57 | a guardrail built by the create hook reads back as the drafted rules with their fresh ids and zero votes |
| Governance.Elapsed | icp/src/governance_backend/src/lib.rs:210 | the time since the start, or zero when the clock reads earlier than the start |
| Governance.VotersPartition | icp/src/governance_backend/src/lib.rs:229-235 | the yes and no voters are disjoint and together count every voter |
| Governance.ApprovalIsStrictMajority | icp/src/governance_backend/src/lib.rs:237-238 | `yes > (yes + no) / 2` in integer division holds exactly when `yes > no`, so a tie or no votes rejects |
| Governance.CountVotes | icp/src/governance_backend/src/lib.rs:226-235 | the loop counts the yes voters and the no voters, and the counts add up to the number of voters |
| Governance.RemainingSeconds | icp/src/governance_backend/src/lib.rs:285-297 | zero once the 3600-second period has elapsed; otherwise the whole seconds left, rounded down, never more than 3600 |
| Governance.GovernanceCanister.constructor | icp/src/governance_backend/src/lib.rs:133-136 | both maps start empty |
| Governance.GovernanceCanister.SubmitVote | icp/src/governance_backend/src/lib.rs:186-220 | a first vote opens an entry started now; more than 3600 s after the start the call returns "Voting period has ended for this rule." and records nothing, with exactly 3600 s still accepted; an accepted vote replaces the voter's earlier vote and neuron id; the results map is untouched |
| Governance.GovernanceCanister.ProcessVotes | icp/src/governance_backend/src/lib.rs:222-257 | with no entry nothing changes; otherwise records `yes > no` for the rule, keeps the vote entry and leaves other results alone |
| Governance.GovernanceCanister.GetRuleResult | icp/src/governance_backend/src/lib.rs:259-264 | `None` until a decision is recorded, then that decision |
| Governance.GovernanceCanister.GetVotingStatus | icp/src/governance_backend/src/lib.rs:268-303 | "No voting found for this rule ID." without an entry; otherwise the status line with the yes, no and total counts of the vote map and the saturating remaining seconds |
| Decimal.NatToString | sentry/src/index.ts:126 | a number renders as a non-empty string of decimal digits whose value is the number, with no leading zero except for 0 itself |
| Sentry.NewClient | sentry/src/index.ts:48-61 | the API key is kept; an empty or missing environment, base URL or timeout takes the default "production", the production URL or 5000 ms, and any other value is kept |
| Sentry.CheckRequest | sentry/src/index.ts:63-67 | posts `{text: content}` to `/check` with the client's base URL, timeout, API key and environment headers |
| Sentry.BatchRequest | sentry/src/index.ts:75-79 | posts `{items: [...]}` to `/batch_check`, one `{text}` item per input in input order, with the client's headers |
| Sentry.ViolationRenameBijective | sentry/src/index.ts:94-101 | the `rule_id`-to-`ruleId` renaming of a violation is a bijection: the renaming back undoes it in both directions |
| Sentry.TransformMetadata | sentry/src/index.ts:114-122 | absent metadata stays absent; present metadata is renamed field for field and renames back to the wire value |
| Sentry.TransformResponse | sentry/src/index.ts:92-112 | `valid` holds exactly when the status is "safe"; absent violations become `[]`, present ones keep length and order and are renamed; request id, status, message and rule details are copied, absent staying absent |
| Sentry.NormalisationRoundTrip | sentry/src/index.ts:92-112 | with violations present the normalisation loses nothing; a result whose `valid` agrees with its status normalises from its own wire form |
| Sentry.TransformBatch | sentry/src/index.ts:81-86 | the results keep length and order, each the single-check normalisation of its item; the batch id, total and time are copied |
| Sentry.HandleError | sentry/src/index.ts:124-134 | a response gives "API Error: <status> - <body>"; otherwise `ECONNABORTED` gives "Request timed out after <timeout>ms" and anything else "Network Error: <message>" |
| Sentry.HandleErrorClassifies | sentry/src/index.ts:124-134 | each failure's message shows exactly its own kind: API, timeout or network error |
| Sentry.Validate | sentry/src/index.ts:63-73 | an answered call gives the normalised result; any failure gives exactly the message `handleError` throws for it (status and serialised body, the resolved timeout, or the transport message), which announces its own kind |
| Sentry.ValidateBatch | sentry/src/index.ts:75-90 | an answered batch gives the normalised batch: one normalised result per wire result, in order, with batch id, item count and processing time copied; any failure gives exactly `handleError`'s message, which announces its own kind |
| Sentry.SafeReplyExample | sentry/test/index.test.ts:15-28 | the "safe" reply with no violations and request id "123" normalises to a valid result with that id, and metadata and rule details are absent |
| Sentry.ServerErrorExample | sentry/test/index.test.ts:62-69 | a 500 response renders as "API Error: 500 - " followed by the serialised body |
| PyText.Lower | ree/gaurd.py:325 | same length, no upper-case letter remains, and only A-Z change, each to its lower-case letter |
| PyText.LowerKeepsSpaces | api/rule-engine/engine.py:103-104 | lower-casing keeps each whitespace position and keeps blankness |
| PyText.LowerIdempotent | ree/gaurd.py:244 | lower-casing twice is lower-casing once |
| PyText.LeadingSpaces | ree/gaurd.py:244 | the leading run of whitespace ends at the first non-space character |
| PyText.ContentEnd | ree/gaurd.py:244 | the trailing run of whitespace starts right after the last non-space character |
| PyText.Strip | ree/gaurd.py:244 | the result is a slice of the input with only whitespace cut on either side, and starts and ends with a non-space |
| PyText.StripEmptyIffBlank | ree/gaurd.py:292 | stripping gives the empty string exactly when the text is empty or all whitespace |
| PyText.WordLength | api/rule-engine/engine.py:104 | the length of the leading run of non-space characters |
| PyText.Split | api/rule-engine/engine.py:104 | every word is non-empty and contains no whitespace, and the text is the words with blank gaps before, between and after them, the inner gaps non-empty |
| PyText.SplitInterleave | api/rule-engine/engine.py:104 | words separated by blank gaps, non-empty between two words, split back into exactly those words, so the words `split()` gives are the text's maximal runs of non-whitespace, in order |
| PyText.SplitEmptyIffBlank | ree/gaurd.py:463 | splitting gives no words exactly when the text is blank |
| PyText.Clean | ree/gaurd.py:377 | word characters and whitespace are kept; every other character becomes a space, and the length is unchanged |
| Levenshtein.Distance | ree/gaurd.py:348 | the edit distance is at least the length difference and at most the longer length |
| Levenshtein.DistanceZeroIffEqual | ree/gaurd.py:348 | distance zero exactly for equal strings |
| Levenshtein.DistanceSymmetric | ree/gaurd.py:348 | the distance does not depend on argument order |
| GuardRules.Take | ree/gaurd.py:251 | a slice `[:n]` is a prefix of at most `n` elements, and the whole list when it is short |
| GuardRules.KeptSynonymsMembers | ree/gaurd.py:251-253 | a synonym is kept exactly when it is among those listed and has at least three characters |
| GuardRules.ExpandedCovers | ree/gaurd.py:238-253 | every keyword's expansion is part of the rule's expanded set |
| GuardRules.ExpandedFrom | ree/gaurd.py:238-253 | every member of the expanded set comes from the expansion of some keyword of the rule |
| GuardRules.IndexedKeywords | ree/gaurd.py:256-258 | no keyword added to the index is whitelisted |
| GuardRules.AddEntriesStep | ree/gaurd.py:261-264 | adding one more keyword appends the rule's entry under it, creating the key when it is new |
| GuardRules.KeywordIndexByKey | ree/gaurd.py:180-194 | a rebuilt index has a key exactly when the reference listing for it is non-empty, and lists exactly those entries, so it depends only on the rules, whitelist and synonyms |
| GuardRules.EntriesForCovers | ree/gaurd.py:256-264 | the reference listing holds the entry of every rule that indexes the keyword |
| GuardRules.EntriesForFrom | ree/gaurd.py:256-264 | every entry of the reference listing is the entry of a rule that indexes the keyword |
| GuardRules.KeywordIndexSound | ree/gaurd.py:187-264 | no index key is whitelisted, and an entry is listed under a key exactly when some rule with an id indexes that key with that rule id and category |
| GuardRules.KeywordIndexComplete | ree/gaurd.py:238-264 | a keyword of a rule with an id that has at least two characters and is not whitelisted in normalised form is indexed under its lower-cased, stripped form with the rule's entry |
| GuardRules.ShortKeywordIgnored | ree/gaurd.py:240-241 | a keyword shorter than two characters before stripping adds nothing, not even synonyms |
| GuardRules.StemsAgreeStep | ree/gaurd.py:266-273 | adding a keyword entry, with its stem entry when the stem differs and has at least three characters, keeps the stemmed map in agreement with the keyword map |
| GuardRules.StemOriginsNotWhitelisted | ree/gaurd.py:256-273 | no stemmed entry comes from a whitelisted word |
| GuardMatching.MaxDistance | ree/gaurd.py:332-339 | the edit budget is 0 below length 4, 1 for lengths 4 to 6 and 2 from length 7 |
| GuardMatching.ShortWordsMatchExactly | ree/gaurd.py:337-339 | a word shorter than four characters fuzzily matches only itself |
| GuardMatching.LengthGapRejects | ree/gaurd.py:343-351 | a keyword skipped for its length difference would also have failed the distance test |
| GuardMatching.FuzzyOverSound | ree/gaurd.py:342-366 | every fuzzy match names an accepted keyword of the index, with the rule id and category of one of its entries |
| GuardMatching.FuzzyOverComplete | ree/gaurd.py:342-366 | every entry of every accepted keyword yields a fuzzy match |
| GuardMatching.FuzzyMatchesCorrect | ree/gaurd.py:319-368 | empty, short or whitelisted words give `[]`; otherwise the matches are exactly the entries of the keywords within the distance budget and confidence floor, tagged with the lower-cased word |
| GuardMatching.PatternCandidates | ree/gaurd.py:388-402 | every non-empty regular-expression match, and nothing else, becomes a pattern violation keyed `rule:pattern:text` |
| GuardMatching.WordCandidates | ree/gaurd.py:405-417 | a word that is a key of the keyword map yields one violation of the stage's kind per entry listed under it, keyed `rule<tag>word` with that entry's rule and category; any other word yields nothing |
| GuardMatching.KeywordCandidates | ree/gaurd.py:404-432 | the keyword and lemma stages produce only violations of their kind |
| GuardMatching.KeywordCandidatesSound | ree/gaurd.py:404-432 | every keyword or lemma candidate comes from an entry listed under a text word found in the keyword map |
| GuardMatching.KeywordCandidatesComplete | ree/gaurd.py:404-432 | every entry listed under every text word found in the keyword map yields its candidate |
| GuardMatching.StemWordCandidates | ree/gaurd.py:437-449 | a stem that is a key of the stemmed map yields one stemmed-keyword violation per entry listed under it, keyed `rule:stemmed:stem`, carrying that entry's category and original keyword; any other stem yields nothing |
| GuardMatching.StemCandidates | ree/gaurd.py:434-449 | the stem stage produces only stemmed-keyword violations |
| GuardMatching.StemCandidatesSound | ree/gaurd.py:434-449 | every stemmed candidate comes from an entry listed under a stemmed text word found in the stemmed map |
| GuardMatching.StemCandidatesComplete | ree/gaurd.py:434-449 | every entry listed under every stemmed text word found in the stemmed map yields its candidate |
| GuardMatching.FuzzyWordCandidates | ree/gaurd.py:454-460 | a word at least the fuzzy length long and not whitelisted yields one candidate per match `check_fuzzy_keywords` returns for it, keyed `rule:fuzzy:word:keyword`; any other word yields nothing |
| GuardMatching.FuzzyCandidates | ree/gaurd.py:453-460 | the fuzzy stage produces only fuzzy-keyword violations |
| GuardMatching.FuzzyCandidatesSound | ree/gaurd.py:453-460 | every fuzzy candidate is a fuzzy match of one of the text words |
| GuardMatching.FuzzyCandidatesComplete | ree/gaurd.py:453-460 | every fuzzy match of every long enough, non-whitelisted text word yields its candidate |
| GuardMatching.SemanticCandidates | ree/gaurd.py:466-489 | one candidate per similar rule, in order, keyed `rule:semantic:index`, with that rule's id, its similarity as confidence, the matched text "semantic similarity" and the matched example |
| GuardMatching.AccumulateCorrect | ree/gaurd.py:394-402 | dedup by key only appends, only appends candidates, and the processed keys grow by the candidates' keys |
| GuardMatching.AccumulateDistinct | ree/gaurd.py:394-402 | dedup by key keeps all violation keys distinct |
| GuardMatching.AccumulateAppend | ree/gaurd.py:404-449 | running stages one after the other is the same as running their concatenation |
| GuardMatching.RecordNew | ree/gaurd.py:394-402 | the append-if-unseen loop leaves the violations and processed keys that dedup specifies |
| GuardMatching.CollectedKeysDistinct | ree/gaurd.py:373 | no two collected violations share a key |
| GuardMatching.InsertByConfidence | ree/gaurd.py:494 | one insertion step of the sort adds exactly the one violation, keeping the others |
| GuardMatching.InsertByConfidenceSorted | ree/gaurd.py:494 | inserting into a list in descending confidence keeps it in descending confidence |
| GuardMatching.SortByConfidence | ree/gaurd.py:494 | the sort is a permutation of the violations, in descending confidence |
| GuardMatching.SortKeepsOrderedList | ree/gaurd.py:494 | a list already in descending confidence is left as it is |
| GuardMatching.PrefixMostConfident | ree/gaurd.py:497 | the first n of a list in descending confidence stay in order and are at least as confident as everything after them |
| GuardMatching.TopByConfidence | ree/gaurd.py:494-497 | sorting and keeping the first 10 gives the 10 (or all, if fewer) most confident violations, in descending confidence, and nothing else |
| GuardMatching.FullCheckBounded | ree/gaurd.py:370-497 | no two collected violations share a key, and the result is the 10 (or all, if fewer) most confident collected violations, in descending confidence: nothing left out is more confident than anything returned |
| GuardMatching.KeywordStagesRecordHits | ree/gaurd.py:387-449 | after the first four stages the key of every non-empty pattern match, of every keyword-map entry of every text word and lemma, and of every stemmed-map entry of every stemmed word is among the processed keys |
| GuardMatching.KeywordStagesKinds | ree/gaurd.py:387-449 | the first four stages produce no fuzzy or semantic violations |
| GuardMatching.FallbackStagesGated | ree/gaurd.py:451-463 | fuzzy and semantic violations appear only when the earlier stages found nothing, and semantic ones only when fuzzy matching found nothing |
| Guard.MatchKeyword | ree/gaurd.py:343-366 | one keyword of the fuzzy loop yields exactly its specified matches, with the length prefilter applied before the distance |
| Guard.RuleManager.constructor | ree/gaurd.py:138-146 | empty rules and indices, the default fuzzy length 4, and the common-word whitelist |
| Guard.RuleManager.LoadRules | ree/gaurd.py:157-167 | rules, fuzzy length (4 unless configured) and whitelist (common words plus additions) are replaced, and the index is the rebuild from the new rules |
| Guard.RuleManager.LoadMissingFile | ree/gaurd.py:171-175 | a missing file empties the rules and the keyword index and keeps the configuration |
| Guard.RuleManager.Precompute | ree/gaurd.py:180-194 | clears and rebuilds: the keyword map is the rebuild from the current rules, whatever it was before; the key order lists each key once, and the stemmed map holds exactly the eligible stems of the keys |
| Guard.RuleManager.TopSynonyms | ree/gaurd.py:249-253 | of the first five synonyms listed, those with at least three characters |
| Guard.RuleManager.ExpandKeyword | ree/gaurd.py:239-253 | the keyword's expansion: nothing when too short, else its normalised form plus the kept synonyms when expansion is on |
| Guard.RuleManager.ExpandKeywords | ree/gaurd.py:234-253 | the union of the expansions of the rule's keywords |
| Guard.RuleManager.InsertKeyword | ree/gaurd.py:260-273 | appends the entry under the keyword, records a new key in insertion order, adds the stem entry when eligible, and keeps the maps in agreement |
| Guard.RuleManager.InsertKeywords | ree/gaurd.py:255-273 | the index gains the entry under every non-whitelisted expanded keyword and nothing else |
| Guard.RuleManager.ProcessKeywords | ree/gaurd.py:221-273 | the index becomes the old index with this rule added; a rule without id or keywords changes nothing |
| Guard.RuleManager.CheckFuzzyKeywords | ree/gaurd.py:319-368 | the matches are those specified for the word against the current indices |
| Guard.RuleManager.ExactStages | ree/gaurd.py:370-449 | the pattern, keyword, lemma and stem stages leave the specified deduplicated violations and processed keys |
| Guard.RuleManager.FuzzyStage | ree/gaurd.py:453-460 | the fuzzy loop adds the unseen fuzzy matches of every word |
| Guard.RuleManager.FuzzyWord | ree/gaurd.py:454-460 | a word that is long enough and not whitelisted adds its unseen fuzzy matches, under the key `rule:fuzzy:word:keyword`; any other word adds nothing |
| Guard.RuleManager.FallbackStages | ree/gaurd.py:451-491 | fuzzy matching runs only on an empty result and text of at least 4 characters after clean-up, and semantic matching only on a still-empty result and at least 3 words |
| Guard.RuleManager.FullCheck | ree/gaurd.py:370-497 | the result is the specified full check: the deduplicated stages, sorted by descending confidence and cut to 10, so at most 10 violations in descending confidence |
| Guard.RuleManager.CheckWithCache | ree/gaurd.py:290-308 | empty or whitespace-only text gives no violations; any other text gives the full check |
| RuleEngine.WithKey | api/rule-engine/engine.py:68 | `setdefault` adds the key with an empty list when it is missing and changes nothing else |
| RuleEngine.AddKeywordsEntry | api/rule-engine/engine.py:67-68 | a rule's keywords add its id under a key once per keyword that lowercases to it, after what was there |
| RuleEngine.IndexEntry | api/rule-engine/engine.py:60-68 | a completed index lists under each key exactly the reference ids, so it depends on the rules alone, and has a key exactly when some keyword lowercases to it |
| RuleEngine.IdsForCovers | api/rule-engine/engine.py:65-68 | the reference listing holds every rule's id under each of its keywords |
| RuleEngine.IndexCovers | api/rule-engine/engine.py:65-68 | in a completed index every keyword of every rule, lowercased, lists that rule's id |
| RuleEngine.BuiltHasIds | api/rule-engine/engine.py:65-76 | a completed build saw an id on every rule with keywords or examples |
| RuleEngine.KeyErrorPersists | api/rule-engine/engine.py:65-76 | once the build raises, later rules change nothing |
| RuleEngine.RaisesAtFirstMissingId | api/rule-engine/engine.py:65-76 | the first rule with keywords or examples but no id raises; the map left is the earlier index plus that rule's first keyword as a key |
| RuleEngine.AllIdsBuild | api/rule-engine/engine.py:65-76 | when every rule with keywords or examples has an id, the build completes |
| RuleEngine.WordViolations | api/rule-engine/engine.py:105-111 | a word yields one violation per id listed under it |
| RuleEngine.KeywordStepAppend | api/rule-engine/engine.py:104-111 | the keyword step over a concatenation is the concatenation of the steps, so the output follows word order |
| RuleEngine.KeywordStepSound | api/rule-engine/engine.py:104-111 | every keyword violation names a word of the text that is a key, and an id listed under it |
| RuleEngine.KeywordStepComplete | api/rule-engine/engine.py:104-111 | every id listed under a word of the text yields a violation, with no dedup |
| RuleEngine.SemanticStep | api/rule-engine/engine.py:115-125 | only semantic violations, at most one per rule scored |
| RuleEngine.SemanticStepComplete | api/rule-engine/engine.py:115-125 | every rule whose similarity is strictly above its threshold yields a semantic violation with its id and similarity |
| RuleEngine.SemanticStepSound | api/rule-engine/engine.py:115-125 | every semantic violation comes from a rule whose similarity is strictly above its threshold |
| RuleEngine.CheckInput | api/rule-engine/engine.py:140-146 | any rule violation answers "violation" with that list and "Rule violations detected." without consulting the classifier |
| RuleEngine.WordCheck | api/rule-engine/engine.py:105-111 | the per-word loop returns that word's violations |
| RuleEngine.WordsCheck | api/rule-engine/engine.py:104-111 | the word loop returns the keyword step |
| RuleEngine.SemanticCheck | api/rule-engine/engine.py:115-125 | the rule loop returns the semantic step |
| RuleEngine.RuleManager.constructor | api/rule-engine/engine.py:43-47 | empty rules and map |
| RuleEngine.RuleManager.LoadRules | api/rule-engine/engine.py:54-58 | rules are replaced and the map is the index of the new rules; `raised` reports the `KeyError` |
| RuleEngine.RuleManager.Precompute | api/rule-engine/engine.py:60-76 | the map is reset and rebuilt, ending as the index of the current rules; `raised` holds exactly when the build hit a rule without an id |
| RuleEngine.RuleManager.IndexRule | api/rule-engine/engine.py:65-76 | one rule with an id appends its id per keyword; without an id it raises exactly when it has keywords or examples, after `setdefault` added its first keyword |
| RuleEngine.RuleManager.KeywordCheck | api/rule-engine/engine.py:102-111 | the keyword step over the whitespace-split lowercased text; words are matched whole against the keys |
| RuleEngine.RuleManager.FullCheck | api/rule-engine/engine.py:98-127 | the keyword violations followed by the semantic ones |

Some functions have no row of their own. Each is fixed by the contracts of the rows above:

- `GetGuardrailsHook.MapRule` is covered by `MapRules`.
- `Sentry.TransformViolation` is covered by `TransformResponse` and `ViolationRenameBijective`.
- `Governance.Approval` is covered by `ApprovalIsStrictMajority` and `ProcessVotes`.
- `CandidInterface.DecodeRule` is covered by `DecodeGuardrail` and `DecodeThenEncode`.
- `GuardRules.KeywordIndex` is covered by `KeywordIndexByKey`, `KeywordIndexSound` and `KeywordIndexComplete`.
- `GuardMatching.FuzzyMatches` is covered by `FuzzyMatchesCorrect`.
- `GuardMatching.FullCheckResult` is covered by `FullCheckBounded`.
- `RuleEngine.Index` is covered by `IndexEntry` and `RaisesAtFirstMissingId`.

## Left out

- Candid wire bytes, stable-memory layout and the `MAX_SIZE` bounds of `BoundedString` and `Guardrail`: only the agent-level value encoding is modelled.
- `classify_prompt` and its outbound HTTP call in the registry canister: not part of this model.
- Governance: quill execution, temporary files, `set_timer`, the `Once` initialisation and the `print` call are I/O. `process_votes` is an ordinary call; the timer that would fire it is not modelled. `SystemTime` is an explicit `now`.
- Governance.GovernanceCanister.ProcessVotes: the quill call that registers the first voter's vote is not modelled, because it is I/O whose result is ignored.
- JavaScript `Number(created_at)` rounding above 2^53 is not modelled; the timestamp is copied exactly.
- The hooks' React Query wiring (`useMutation`, loading state) is left out; each hook is a function from its input, the fresh values and the backend's settled reply to the request sent and the callback fired.
- Principals are opaque byte strings, and the principal-to-text rendering is a parameter.
- Sentry: axios itself, the HTTP transport and `JSON.stringify` are left out (the last is a parameter). JavaScript numbers are unbounded integers or reals. The `never` return of `handleError` is modelled as the message it throws.
- Sentry.TransformResponse: the wire reply is taken as well-typed JSON, and a malformed body (a `TypeError` at run time) is not modelled.
- PyText: whitespace is Python's full `str.isspace` set, so `strip`, `split` and `\s` follow Python on all of Unicode. `lower` maps only A-Z, and `\w` is exact on ASCII while every non-ASCII character counts as a word character; Unicode case mapping and Unicode word-character classes are left out.
- Levenshtein distance is the textbook recursive definition; the C library's implementation is not modelled.
- ree/gaurd.py: file reading, the mtime check against `last_reload_time` and the logged exceptions of `load_rules` are I/O. `LoadRules` and `LoadMissingFile` model the two outcomes after the file system has been consulted.
- ree/gaurd.py: the regular-expression compilation and matching, the embedding index and cosine similarity, spaCy, WordNet and the Porter stemmer are foreign code. Their results are inputs: pattern matches, semantic hits, tokens, and the synonym and stem functions.
- ree/gaurd.py: the rounding of fuzzy confidences with `round(_, 2)` is floating point. Confidences are exact reals and the confidence-floor test (`confidence >= min_confidence`) is exact, so the sort orders by the unrounded confidence; two fuzzy matches whose confidences round to the same hundredth (they can differ by almost 0.01, e.g. 1-1/12 and 1-1/13) may come out in the other order, and the cut to ten may then keep a different one.
- ree/gaurd.py: the Redis cache of `check_with_cache` (read, write and a stale entry after a reload) is left out. A cached answer is taken to equal a fresh full check.
- ree/gaurd.py: the `type` field of a violation is called `kind`, and the `details` payloads are reduced to the original keyword and the matched example.
- ree/gaurd.py: the `category`, `keywords` and `expand_synonyms` of a rule are read with their defaults (`"general"`, `[]` and `False`); a JSON `null` in any of them is not modelled.
- ree/gaurd.py: the FastAPI endpoints, the batch endpoint, the LLM and toxicity checks and the health and reload routes are left out as I/O.
- Guard.RuleManager.Precompute: the key order is only some duplicate-free enumeration of the keys, not first insertion by rule, and each stem's list is fixed only up to order and repetition, not rule order. Within one rule `_process_keywords` iterates over a set, so the source leaves that part of the order open anyway. The first entry for a rule and stem decides which original keyword stage 4 reports, so that choice is not pinned.
- Guard.RuleManager.FuzzyStage: like CheckFuzzyKeywords, it requires only that the insertion order lists the index keys.
- Guard.RuleManager.CheckFuzzyKeywords: the requirement is only that the insertion order lists the index keys. It holds whenever the class invariant does, which is weaker than requiring the full invariant.
- api/rule-engine/engine.py: `check_with_cache` and its Redis cache, the classifier and toxicity path of `check_input`, `check_keywords`, `check_semantic`, `process_single` and the batch routes are left out as I/O. The embedding cosine is left out as floating point: each rule's largest similarity and threshold are inputs.
- api/rule-engine/engine.py: a rule's id is taken to be a string, and missing `keywords` read as the empty list. A rule with an id and examples builds an embedding entry that is not modelled, and neither is a rule file without `rules`.
