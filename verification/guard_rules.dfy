/**
 * The rules of the content guardrail service and the keyword indices built
 * from them, as values. `KeywordIndex` is the keyword map a rebuild produces;
 * the class in `guard.dfy` builds it step by step and is proved to agree.
 */
module GuardRules {
  import opened Wrappers
  import PyText

  const DefaultCategory: string := "general"
  const MinKeywordLength: nat := 2
  const MaxSynonyms: nat := 5
  const MinSynonymLength: nat := 3
  const MinStemLength: nat := 3

  /** Common words that are never indexed and never fuzzily matched. */
  const CommonWordsWhitelist: set<string> := {
    "the", "and", "for", "are", "this", "that", "with", "have", "from", "your",
    "been", "they", "will", "would", "could", "about", "what", "when", "where", "love",
    "like", "does", "into", "should", "their", "here", "than", "then", "some", "very",
    "just", "much", "only", "also", "over", "back", "more", "such", "well", "even",
    "must", "most", "make", "case", "good", "work", "life", "time", "year", "hand",
    "part", "fact", "look", "want", "give", "come", "take", "know", "find", "need",
    "tell", "help", "show", "talk", "form", "days", "week", "both", "last", "next",
    "high", "long", "left", "done", "best", "sure", "each", "name", "ever", "live",
    "felt", "plan", "game", "kind", "move", "keep", "mean", "made", "same", "real",
    "seen", "mind", "home", "line", "says", "read", "area", "went", "stop", "feel",
    "seem", "open", "miss", "heat", "care", "door"
  }

  /**
   * One rule of the rules file. `id` and `category` are `None` when the key is
   * missing; a missing keyword list is the empty list, and a missing
   * `expand_synonyms` is `false`.
   */
  datatype RuleSpec = RuleSpec(
    id: Option<string>,
    keywords: seq<string>,
    category: Option<string>,
    expandSynonyms: bool)

  /** An entry of the keyword map: which rule a keyword belongs to. */
  datatype KeywordEntry = KeywordEntry(ruleId: string, category: string)

  /** An entry of the stemmed keyword map, remembering the keyword it was stemmed from. */
  datatype StemEntry = StemEntry(ruleId: string, category: string, original: string)

  type KeywordMap = map<string, seq<KeywordEntry>>
  type StemMap = map<string, seq<StemEntry>>

  /** `rule.get('id')` is truthy. */
  predicate HasId(r: RuleSpec)
  {
    r.id.Some? && r.id.value != ""
  }

  /** `rule.get('category', 'general')`. */
  function CategoryOf(r: RuleSpec): string
  {
    if r.category.Some? then r.category.value else DefaultCategory
  }

  function EntryOf(r: RuleSpec): KeywordEntry
    requires HasId(r)
  {
    KeywordEntry(r.id.value, CategoryOf(r))
  }

  /** `kw.lower().strip()`. */
  function Normalize(kw: string): string
  {
    PyText.Strip(PyText.Lower(kw))
  }

  /** `s[:n]`. */
  function Take<T>(s: seq<T>, n: nat): (r: seq<T>)
    ensures |r| <= n && r <= s
    ensures |s| <= n ==> r == s
  {
    if |s| <= n then s else s[..n]
  }

  /** The synonyms of a listing that are long enough to be indexed. */
  function KeptSynonyms(syns: seq<string>): set<string>
  {
    if syns == [] then {}
    else
      var last := syns[|syns| - 1];
      KeptSynonyms(syns[..|syns| - 1]) + (if |last| >= MinSynonymLength then {last} else {})
  }

  lemma {:induction false} KeptSynonymsMembers(syns: seq<string>, s: string)
    ensures s in KeptSynonyms(syns) <==> s in syns && |s| >= MinSynonymLength
  {
    if syns != [] {
      var init := syns[..|syns| - 1];
      KeptSynonymsMembers(init, s);
      assert syns == init + [syns[|syns| - 1]];
    }
  }

  /**
   * What one keyword adds to the rule's expanded set: nothing when shorter than
   * two characters, otherwise its normal form and, when the rule asks for it,
   * the long-enough synonyms among the first five WordNet gives for that form.
   */
  function KeywordExpansion(kw: string, expand: bool, synonyms: string -> seq<string>): set<string>
  {
    if |kw| < MinKeywordLength then {}
    else
      var k := Normalize(kw);
      {k} + (if expand then KeptSynonyms(Take(synonyms(k), MaxSynonyms)) else {})
  }

  /** The set `expanded_keywords` after the first loop of `_process_keywords`. */
  function Expanded(kws: seq<string>, expand: bool, synonyms: string -> seq<string>): set<string>
  {
    if kws == [] then {}
    else Expanded(kws[..|kws| - 1], expand, synonyms) + KeywordExpansion(kws[|kws| - 1], expand, synonyms)
  }

  /** Everything a keyword expands to is in the rule's expanded set. */
  lemma {:induction false} ExpandedCovers(kws: seq<string>, expand: bool, synonyms: string -> seq<string>, i: nat)
    requires i < |kws|
    ensures KeywordExpansion(kws[i], expand, synonyms) <= Expanded(kws, expand, synonyms)
  {
    if i < |kws| - 1 {
      var init := kws[..|kws| - 1];
      ExpandedCovers(init, expand, synonyms, i);
      assert init[i] == kws[i];
    }
  }

  /** Nothing else is: every member of the expanded set comes from one of the keywords. */
  lemma {:induction false} ExpandedFrom(kws: seq<string>, expand: bool, synonyms: string -> seq<string>, k: string)
    requires k in Expanded(kws, expand, synonyms)
    ensures exists i | 0 <= i < |kws| :: k in KeywordExpansion(kws[i], expand, synonyms)
  {
    var init := kws[..|kws| - 1];
    if k in KeywordExpansion(kws[|kws| - 1], expand, synonyms) {
    } else {
      ExpandedFrom(init, expand, synonyms, k);
      var i :| 0 <= i < |init| && k in KeywordExpansion(init[i], expand, synonyms);
      assert kws[i] == init[i];
    }
  }

  /** The keywords a rule puts into the keyword map: none without an id or keywords, and never a whitelisted one. */
  function IndexedKeywords(r: RuleSpec, whitelist: set<string>, synonyms: string -> seq<string>): (ks: set<string>)
    ensures ks !! whitelist
  {
    if !HasId(r) || r.keywords == [] then {}
    else Expanded(r.keywords, r.expandSynonyms, synonyms) - whitelist
  }

  /** `setdefault(k, []).append(e)` for every `k` of `ks`. */
  function AddEntries(m: KeywordMap, ks: set<string>, e: KeywordEntry): KeywordMap
  {
    map k | k in m.Keys + ks :: (if k in m then m[k] else []) + (if k in ks then [e] else [])
  }

  /** Adding one more keyword is one more `setdefault(k, []).append(e)`. */
  lemma AddEntriesNothing(m: KeywordMap, e: KeywordEntry)
    ensures AddEntries(m, {}, e) == m
  {
    var after := AddEntries(m, {}, e);
    assert after.Keys == m.Keys;
    forall k | k in m ensures after[k] == m[k] {
      assert after[k] == m[k] + [];
    }
  }

  lemma AddEntriesStep(m: KeywordMap, ks: set<string>, k: string, e: KeywordEntry)
    requires k !in ks
    ensures var before := AddEntries(m, ks, e);
      AddEntries(m, ks + {k}, e) == before[k := (if k in before then before[k] else []) + [e]]
  {
    var before := AddEntries(m, ks, e);
    var after := AddEntries(m, ks + {k}, e);
    var expected := before[k := (if k in before then before[k] else []) + [e]];
    assert after.Keys == expected.Keys;
    forall x | x in after ensures after[x] == expected[x] {
    }
  }

  function AddRule(m: KeywordMap, r: RuleSpec, whitelist: set<string>, synonyms: string -> seq<string>): KeywordMap
  {
    if !HasId(r) || r.keywords == [] then m
    else AddEntries(m, IndexedKeywords(r, whitelist, synonyms), EntryOf(r))
  }

  /** The keyword map a rebuild from `rules` produces; it starts from the empty map. */
  function KeywordIndex(rules: seq<RuleSpec>, whitelist: set<string>, synonyms: string -> seq<string>): KeywordMap
  {
    if rules == [] then map[]
    else AddRule(KeywordIndex(rules[..|rules| - 1], whitelist, synonyms), rules[|rules| - 1], whitelist, synonyms)
  }

  /** Reference listing for one keyword: the entries of the rules that index it, in rule order. */
  function EntriesFor(rules: seq<RuleSpec>, k: string, whitelist: set<string>, synonyms: string -> seq<string>)
    : seq<KeywordEntry>
  {
    if rules == [] then []
    else
      var r := rules[|rules| - 1];
      EntriesFor(rules[..|rules| - 1], k, whitelist, synonyms)
        + (if k in IndexedKeywords(r, whitelist, synonyms) then [EntryOf(r)] else [])
  }

  /** The keyword map, read one key at a time, is the reference listing. */
  lemma {:induction false} KeywordIndexByKey(rules: seq<RuleSpec>, whitelist: set<string>, synonyms: string -> seq<string>, k: string)
    ensures k in KeywordIndex(rules, whitelist, synonyms) <==> EntriesFor(rules, k, whitelist, synonyms) != []
    ensures k in KeywordIndex(rules, whitelist, synonyms) ==>
      KeywordIndex(rules, whitelist, synonyms)[k] == EntriesFor(rules, k, whitelist, synonyms)
  {
    if rules != [] {
      KeywordIndexByKey(rules[..|rules| - 1], whitelist, synonyms, k);
    }
  }

  /** A rule that indexes `k` has its entry in the reference listing. */
  lemma {:induction false} EntriesForCovers(rules: seq<RuleSpec>, k: string, whitelist: set<string>, synonyms: string -> seq<string>, i: nat)
    requires i < |rules| && k in IndexedKeywords(rules[i], whitelist, synonyms)
    ensures EntryOf(rules[i]) in EntriesFor(rules, k, whitelist, synonyms)
  {
    if i < |rules| - 1 {
      var init := rules[..|rules| - 1];
      assert init[i] == rules[i];
      EntriesForCovers(init, k, whitelist, synonyms, i);
    }
  }

  /** Every entry of the reference listing is the entry of a rule that indexes `k`. */
  lemma {:induction false} EntriesForFrom(rules: seq<RuleSpec>, k: string, whitelist: set<string>, synonyms: string -> seq<string>, e: KeywordEntry)
    requires e in EntriesFor(rules, k, whitelist, synonyms)
    ensures exists i | 0 <= i < |rules| :: k in IndexedKeywords(rules[i], whitelist, synonyms) && e == EntryOf(rules[i])
  {
    var init := rules[..|rules| - 1];
    var r := rules[|rules| - 1];
    if k in IndexedKeywords(r, whitelist, synonyms) && e == EntryOf(r) {
    } else {
      EntriesForFrom(init, k, whitelist, synonyms, e);
      var i :| 0 <= i < |init| && k in IndexedKeywords(init[i], whitelist, synonyms) && e == EntryOf(init[i]);
      assert rules[i] == init[i];
    }
  }

  /**
   * Every key of the keyword map, and every entry under it, comes from a rule
   * with an id that indexes that key; no key is whitelisted.
   */
  lemma KeywordIndexSound(rules: seq<RuleSpec>, whitelist: set<string>, synonyms: string -> seq<string>, k: string, e: KeywordEntry)
    requires k in KeywordIndex(rules, whitelist, synonyms)
    ensures k !in whitelist
    ensures e in KeywordIndex(rules, whitelist, synonyms)[k] <==>
      exists i | 0 <= i < |rules| :: HasId(rules[i]) && k in IndexedKeywords(rules[i], whitelist, synonyms) && e == EntryOf(rules[i])
  {
    KeywordIndexByKey(rules, whitelist, synonyms, k);
    var listing := EntriesFor(rules, k, whitelist, synonyms);
    EntriesForFrom(rules, k, whitelist, synonyms, listing[0]);
    if e in listing {
      EntriesForFrom(rules, k, whitelist, synonyms, e);
    }
    if exists i | 0 <= i < |rules| :: HasId(rules[i]) && k in IndexedKeywords(rules[i], whitelist, synonyms) && e == EntryOf(rules[i]) {
      var i :| 0 <= i < |rules| && HasId(rules[i]) && k in IndexedKeywords(rules[i], whitelist, synonyms) && e == EntryOf(rules[i]);
      EntriesForCovers(rules, k, whitelist, synonyms, i);
    }
  }

  /**
   * Every keyword of at least two characters of a rule with an id is indexed
   * in lowercased, stripped form under that rule's entry, unless the form is
   * whitelisted.
   */
  lemma KeywordIndexComplete(rules: seq<RuleSpec>, whitelist: set<string>, synonyms: string -> seq<string>, i: nat, j: nat)
    requires i < |rules| && HasId(rules[i]) && j < |rules[i].keywords|
    requires |rules[i].keywords[j]| >= MinKeywordLength && Normalize(rules[i].keywords[j]) !in whitelist
    ensures Normalize(rules[i].keywords[j]) in KeywordIndex(rules, whitelist, synonyms)
    ensures EntryOf(rules[i]) in KeywordIndex(rules, whitelist, synonyms)[Normalize(rules[i].keywords[j])]
  {
    var r := rules[i];
    var k := Normalize(r.keywords[j]);
    assert k in KeywordExpansion(r.keywords[j], r.expandSynonyms, synonyms);
    ExpandedCovers(r.keywords, r.expandSynonyms, synonyms, j);
    assert k in IndexedKeywords(r, whitelist, synonyms);
    EntriesForCovers(rules, k, whitelist, synonyms, i);
    KeywordIndexByKey(rules, whitelist, synonyms, k);
  }

  /** A keyword shorter than two characters contributes nothing, not even through its synonyms. */
  lemma ShortKeywordIgnored(kw: string, expand: bool, synonyms: string -> seq<string>)
    requires |kw| < MinKeywordLength
    ensures KeywordExpansion(kw, expand, synonyms) == {}
  {
  }

  /** A stem is recorded when it differs from the keyword and has at least three characters. */
  predicate StemEligible(stem: string -> string, kw: string)
  {
    stem(kw) != kw && |stem(kw)| >= MinStemLength
  }

  /**
   * The stemmed map holds exactly the eligible stems of the keyword map: each
   * stemmed entry points back to a keyword-map entry of the same rule and
   * category, and each keyword-map entry with an eligible stem has its stemmed entry.
   */
  ghost predicate StemsAgree(km: KeywordMap, sm: StemMap, stem: string -> string)
  {
    (forall s, i | s in sm && 0 <= i < |sm[s]| ::
       StemEligible(stem, sm[s][i].original) && stem(sm[s][i].original) == s && sm[s][i].original in km)
    && (forall s, i | s in sm && 0 <= i < |sm[s]| && sm[s][i].original in km ::
       KeywordEntry(sm[s][i].ruleId, sm[s][i].category) in km[sm[s][i].original])
    && (forall k | k in km && StemEligible(stem, k) && km[k] != [] :: stem(k) in sm)
    && (forall k, i | k in km && 0 <= i < |km[k]| && StemEligible(stem, k) && stem(k) in sm ::
       StemEntry(km[k][i].ruleId, km[k][i].category, k) in sm[stem(k)])
  }

  /** Recording one keyword entry together with its stem keeps the two maps in agreement. */
  lemma StemsAgreeStep(km: KeywordMap, sm: StemMap, stem: string -> string, kw: string, e: KeywordEntry)
    requires StemsAgree(km, sm, stem)
    ensures var km' := km[kw := (if kw in km then km[kw] else []) + [e]];
      var s := stem(kw);
      var sm' := if StemEligible(stem, kw)
        then sm[s := (if s in sm then sm[s] else []) + [StemEntry(e.ruleId, e.category, kw)]]
        else sm;
      StemsAgree(km', sm', stem)
  {
    var km': KeywordMap := km[kw := (if kw in km then km[kw] else []) + [e]];
    var s := stem(kw);
    var se := StemEntry(e.ruleId, e.category, kw);
    var sm': StemMap := if StemEligible(stem, kw) then sm[s := (if s in sm then sm[s] else []) + [se]] else sm;
    forall t, i | t in sm' && 0 <= i < |sm'[t]|
      ensures StemEligible(stem, sm'[t][i].original) && stem(sm'[t][i].original) == t && sm'[t][i].original in km'
      ensures KeywordEntry(sm'[t][i].ruleId, sm'[t][i].category) in km'[sm'[t][i].original]
    {
      if t in sm && i < |sm[t]| {
        var o := sm[t][i].original;
        assert sm'[t][i] == sm[t][i];
        assert KeywordEntry(sm[t][i].ruleId, sm[t][i].category) in km[o];
        if o == kw {
          assert km'[o] == km[o] + [e];
        }
      } else {
        assert sm'[t][i] == se;
        assert km'[kw][|km'[kw]| - 1] == e;
      }
    }
    forall k, i | k in km' && 0 <= i < |km'[k]| && StemEligible(stem, k)
      ensures stem(k) in sm'
      ensures StemEntry(km'[k][i].ruleId, km'[k][i].category, k) in sm'[stem(k)]
    {
      if k in km && i < |km[k]| {
        assert km'[k][i] == km[k][i];
        var old_se := StemEntry(km[k][i].ruleId, km[k][i].category, k);
        assert old_se in sm[stem(k)];
        if StemEligible(stem, kw) && stem(k) == s {
          var j :| 0 <= j < |sm[s]| && sm[s][j] == old_se;
          assert sm'[s][j] == old_se;
        }
      } else {
        assert k == kw && km'[k][i] == e;
        assert sm'[s][|sm'[s]| - 1] == se;
      }
    }
  }

  /** No whitelisted word is the source of a stemmed entry. */
  lemma StemOriginsNotWhitelisted(rules: seq<RuleSpec>, whitelist: set<string>, synonyms: string -> seq<string>,
                                  sm: StemMap, stem: string -> string, s: string, i: nat)
    requires StemsAgree(KeywordIndex(rules, whitelist, synonyms), sm, stem)
    requires s in sm && i < |sm[s]|
    ensures sm[s][i].original !in whitelist
  {
    var km := KeywordIndex(rules, whitelist, synonyms);
    KeywordIndexSound(rules, whitelist, synonyms, sm[s][i].original, KeywordEntry(sm[s][i].ruleId, sm[s][i].category));
  }
}
