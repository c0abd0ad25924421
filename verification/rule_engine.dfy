/**
 * The simpler rule engine of the HTTP API: a `RuleManager` that indexes
 * every rule keyword, lowercased, to the ids of the rules naming it, and a
 * full check that reports one keyword violation per (word, rule id) pair
 * followed by the semantic violations. Embedding similarities are given as
 * inputs; the index build and the keyword step are modelled as written.
 */
module RuleEngine {
  import opened Wrappers
  import PyText

  /**
   * A rule as loaded from the rules file; a missing `keywords` entry reads as
   * the empty list, and `hasExamples` says whether the rule has an `examples` entry.
   */
  datatype Rule = Rule(id: Option<string>, keywords: seq<string>, hasExamples: bool)

  /** `keyword_map`: lowercased keyword to rule ids. */
  type IdMap = map<string, seq<string>>

  /**
   * The end state of `_precompute`: the whole index, or the index as it was
   * when `rule['id']` raised `KeyError` on a rule without an id (in the
   * keyword loop, or in the semantic index for a rule with examples).
   */
  datatype Outcome = Built(keywordMap: IdMap) | KeyError(keywordMap: IdMap)

  datatype Violation =
    | KeywordViolation(ruleId: string, matched: string)
    | SemanticViolation(ruleId: string, similarity: real)

  /** The largest similarity of the text to one rule's examples, and that rule's threshold, in index order. */
  datatype SemanticScore = SemanticScore(ruleId: string, maxSimilarity: real, threshold: real)

  datatype CheckReply =
    | RuleViolations(status: string, ruleViolations: seq<Violation>, message: string)
    | ClassifierConsulted

  const ViolationStatus := "violation"
  const ViolationMessage := "Rule violations detected."

  function Get(m: IdMap, k: string): seq<string>
  {
    if k in m then m[k] else []
  }

  /** `setdefault(k, [])` without the append. */
  function WithKey(m: IdMap, k: string): (r: IdMap)
    ensures k in r && r.Keys == m.Keys + {k}
    ensures forall x | x in m :: r[x] == m[x]
    ensures k !in m ==> r[k] == []
  {
    if k in m then m else m[k := []]
  }

  function Repeat(id: string, n: nat): (r: seq<string>)
    ensures |r| == n && forall x | x in r :: x == id
  {
    if n == 0 then [] else Repeat(id, n - 1) + [id]
  }

  /** How many of `kws` lowercase to `k`. */
  function Count(kws: seq<string>, k: string): nat
  {
    if kws == [] then 0
    else Count(kws[..|kws| - 1], k) + (if PyText.Lower(kws[|kws| - 1]) == k then 1 else 0)
  }

  /** The inner loop of `_precompute` for a rule with an id: one append per keyword, in keyword order. */
  function AddKeywords(m: IdMap, kws: seq<string>, id: string): IdMap
  {
    if kws == [] then m
    else
      var m' := AddKeywords(m, kws[..|kws| - 1], id);
      var k := PyText.Lower(kws[|kws| - 1]);
      m'[k := Get(m', k) + [id]]
  }

  /** `_precompute` over `rules`, from a freshly emptied map. */
  function Index(rules: seq<Rule>): Outcome
  {
    if rules == [] then Built(map[])
    else
      match Index(rules[..|rules| - 1])
      case KeyError(m) => KeyError(m)
      case Built(m) =>
        var r := rules[|rules| - 1];
        if r.id.Some? then Built(AddKeywords(m, r.keywords, r.id.value))
        else if r.keywords != [] then KeyError(WithKey(m, PyText.Lower(r.keywords[0])))
        else if r.hasExamples then KeyError(m)
        else Built(m)
  }

  /** The reference listing: the id of each rule once per keyword lowercasing to `k`, rules in order. */
  function IdsFor(rules: seq<Rule>, k: string): seq<string>
  {
    if rules == [] then []
    else
      var r := rules[|rules| - 1];
      IdsFor(rules[..|rules| - 1], k) + (if r.id.Some? then Repeat(r.id.value, Count(r.keywords, k)) else [])
  }

  /** A rule on which `_precompute` reads `rule['id']` although the rule has none. */
  predicate HasMissingId(r: Rule)
  {
    r.id.None? && (r.keywords != [] || r.hasExamples)
  }

  /** The map `_precompute` leaves behind when `rule['id']` raises on `r`. */
  function MapAtRaise(m: IdMap, r: Rule): IdMap
  {
    if r.keywords != [] then WithKey(m, PyText.Lower(r.keywords[0])) else m
  }

  // ---- The index ----

  /** Appending a rule's keywords adds its id to a key once per keyword lowercasing to it. */
  lemma {:induction false} AddKeywordsEntry(m: IdMap, kws: seq<string>, id: string, k: string)
    ensures Get(AddKeywords(m, kws, id), k) == Get(m, k) + Repeat(id, Count(kws, k))
    ensures k in AddKeywords(m, kws, id) <==> k in m || Count(kws, k) > 0
  {
    if kws != [] {
      var init := kws[..|kws| - 1];
      AddKeywordsEntry(m, init, id, k);
      var before := AddKeywords(m, init, id);
      var kw := PyText.Lower(kws[|kws| - 1]);
      if kw == k {
        assert Count(kws, k) == Count(init, k) + 1;
        assert Get(AddKeywords(m, kws, id), k) == Get(before, k) + [id];
      } else {
        assert Count(kws, k) == Count(init, k);
        assert Get(AddKeywords(m, kws, id), k) == Get(before, k);
      }
    }
  }

  /** A keyword of `kws` is counted under its own lowercase form. */
  lemma {:induction false} CountPositive(kws: seq<string>, j: nat)
    requires j < |kws|
    ensures Count(kws, PyText.Lower(kws[j])) > 0
  {
    if j < |kws| - 1 {
      assert kws[..|kws| - 1][j] == kws[j];
      CountPositive(kws[..|kws| - 1], j);
    }
  }

  /**
   * A complete index lists under every key exactly the reference ids, so it
   * depends on the rules alone; a key is present exactly when some keyword lowercases to it.
   */
  lemma {:induction false} IndexEntry(rules: seq<Rule>, k: string)
    requires Index(rules).Built?
    ensures Get(Index(rules).keywordMap, k) == IdsFor(rules, k)
    ensures k in Index(rules).keywordMap <==> IdsFor(rules, k) != []
  {
    if rules != [] {
      var init := rules[..|rules| - 1];
      IndexEntry(init, k);
      var r := rules[|rules| - 1];
      if r.id.Some? {
        AddKeywordsEntry(Index(init).keywordMap, r.keywords, r.id.value, k);
      }
    }
  }

  /** The reference listing holds the id of every rule that has one, under each of its keywords. */
  lemma {:induction false} IdsForCovers(rules: seq<Rule>, i: nat, j: nat)
    requires i < |rules| && rules[i].id.Some? && j < |rules[i].keywords|
    ensures rules[i].id.value in IdsFor(rules, PyText.Lower(rules[i].keywords[j]))
  {
    var init := rules[..|rules| - 1];
    var k := PyText.Lower(rules[i].keywords[j]);
    if i == |rules| - 1 {
      CountPositive(rules[i].keywords, j);
      var tail := Repeat(rules[i].id.value, Count(rules[i].keywords, k));
      assert tail[0] in tail;
    } else {
      assert init[i] == rules[i];
      IdsForCovers(init, i, j);
    }
  }

  /** Every keyword of every rule, lowercased, is a key whose list holds that rule's id. */
  lemma IndexCovers(rules: seq<Rule>, i: nat, j: nat)
    requires Index(rules).Built? && i < |rules| && j < |rules[i].keywords|
    ensures rules[i].id.Some?
    ensures PyText.Lower(rules[i].keywords[j]) in Index(rules).keywordMap
    ensures rules[i].id.value in Index(rules).keywordMap[PyText.Lower(rules[i].keywords[j])]
  {
    BuiltHasIds(rules, i);
    IdsForCovers(rules, i, j);
    IndexEntry(rules, PyText.Lower(rules[i].keywords[j]));
  }

  /** A build that completes saw an id on every rule with keywords or examples. */
  lemma {:induction false} BuiltHasIds(rules: seq<Rule>, i: nat)
    requires Index(rules).Built? && i < |rules|
    ensures !HasMissingId(rules[i])
  {
    var init := rules[..|rules| - 1];
    if i < |rules| - 1 {
      assert init[i] == rules[i];
      BuiltHasIds(init, i);
    }
  }

  /** Once the build has raised, later rules change nothing. */
  lemma {:induction false} KeyErrorPersists(rules: seq<Rule>, n: nat)
    requires n <= |rules| && Index(rules[..n]).KeyError?
    ensures Index(rules) == Index(rules[..n])
  {
    if n < |rules| {
      var init := rules[..|rules| - 1];
      assert init[..n] == rules[..n];
      KeyErrorPersists(init, n);
    } else {
      assert rules[..n] == rules;
    }
  }

  /**
   * The first rule that has keywords or examples but no id makes the build
   * raise; the map left behind is the index of the rules before it, with that
   * rule's first keyword, if it has one, added as a key (to an empty list if it was new).
   */
  lemma RaisesAtFirstMissingId(rules: seq<Rule>, i: nat)
    requires i < |rules| && HasMissingId(rules[i])
    requires forall p | 0 <= p < i :: !HasMissingId(rules[p])
    ensures Index(rules[..i]).Built?
    ensures Index(rules) == KeyError(MapAtRaise(Index(rules[..i]).keywordMap, rules[i]))
  {
    AllIdsBuild(rules[..i]);
    assert rules[..i + 1][..i] == rules[..i];
    KeyErrorPersists(rules, i + 1);
  }

  /** When every rule with keywords or examples has an id, the build completes. */
  lemma {:induction false} AllIdsBuild(rules: seq<Rule>)
    requires forall p | 0 <= p < |rules| :: !HasMissingId(rules[p])
    ensures Index(rules).Built?
  {
    if rules != [] {
      var init := rules[..|rules| - 1];
      assert forall p | 0 <= p < |init| :: init[p] == rules[p];
      AllIdsBuild(init);
    }
  }

  // ---- The keyword step of `full_check` ----

  /** The violations one word contributes: one per id listed under it, in list order. */
  function WordViolations(w: string, m: IdMap): (vs: seq<Violation>)
    ensures |vs| == |Get(m, w)|
  {
    if w in m then seq(|m[w]|, i requires 0 <= i < |m[w]| => KeywordViolation(m[w][i], w)) else []
  }

  /** The keyword step over the split words, in word order. */
  function KeywordStep(words: seq<string>, m: IdMap): seq<Violation>
  {
    if words == [] then []
    else KeywordStep(words[..|words| - 1], m) + WordViolations(words[|words| - 1], m)
  }

  /** Checking two runs of words is checking each in turn: nothing is merged or dropped across words. */
  lemma {:induction false} KeywordStepAppend(xs: seq<string>, ys: seq<string>, m: IdMap)
    ensures KeywordStep(xs + ys, m) == KeywordStep(xs, m) + KeywordStep(ys, m)
  {
    if ys == [] {
      assert xs + ys == xs;
    } else {
      assert (xs + ys)[..|xs + ys| - 1] == xs + ys[..|ys| - 1];
      KeywordStepAppend(xs, ys[..|ys| - 1], m);
    }
  }

  /** Every keyword violation names a whole word of the text that is a key, and an id listed under it. */
  lemma {:induction false} KeywordStepSound(words: seq<string>, m: IdMap, v: Violation)
    requires v in KeywordStep(words, m)
    ensures v.KeywordViolation? && v.matched in words && v.matched in m && v.ruleId in m[v.matched]
  {
    var init := words[..|words| - 1];
    if v in KeywordStep(init, m) {
      KeywordStepSound(init, m, v);
      assert forall w | w in init :: w in words;
    } else {
      var w := words[|words| - 1];
      var i :| 0 <= i < |WordViolations(w, m)| && WordViolations(w, m)[i] == v;
      assert m[w][i] in m[w];
    }
  }

  /** Every id listed under every word of the text gives a violation. */
  lemma {:induction false} KeywordStepComplete(words: seq<string>, m: IdMap, i: nat, j: nat)
    requires i < |words| && words[i] in m && j < |m[words[i]]|
    ensures KeywordViolation(m[words[i]][j], words[i]) in KeywordStep(words, m)
  {
    var init := words[..|words| - 1];
    if i == |words| - 1 {
      assert WordViolations(words[i], m)[j] == KeywordViolation(m[words[i]][j], words[i]);
    } else {
      assert init[i] == words[i];
      KeywordStepComplete(init, m, i, j);
    }
  }

  /** The semantic step: a violation for each rule whose best similarity is strictly above its threshold. */
  function SemanticStep(scores: seq<SemanticScore>): (vs: seq<Violation>)
    ensures forall v | v in vs :: v.SemanticViolation?
    ensures |vs| <= |scores|
  {
    if scores == [] then []
    else
      var s := scores[|scores| - 1];
      SemanticStep(scores[..|scores| - 1])
        + (if s.maxSimilarity > s.threshold then [SemanticViolation(s.ruleId, s.maxSimilarity)] else [])
  }

  /** A semantic violation comes from a score above its threshold and reports that score. */
  lemma {:induction false} SemanticStepSound(scores: seq<SemanticScore>, v: Violation)
    requires v in SemanticStep(scores)
    ensures exists s | s in scores :: s.ruleId == v.ruleId && s.maxSimilarity == v.similarity && s.maxSimilarity > s.threshold
  {
    var init := scores[..|scores| - 1];
    var s := scores[|scores| - 1];
    if v in SemanticStep(init) {
      SemanticStepSound(init, v);
      assert forall x | x in init :: x in scores;
    } else {
      assert s in scores;
    }
  }

  /** Every score strictly above its threshold yields a semantic violation with that rule and similarity. */
  lemma {:induction false} SemanticStepComplete(scores: seq<SemanticScore>, s: SemanticScore)
    requires s in scores && s.maxSimilarity > s.threshold
    ensures SemanticViolation(s.ruleId, s.maxSimilarity) in SemanticStep(scores)
  {
    var init := scores[..|scores| - 1];
    if s != scores[|scores| - 1] {
      assert scores == init + [scores[|scores| - 1]];
      assert s in init;
      SemanticStepComplete(init, s);
    }
  }

  /**
   * `check_input` once the rule check has answered: any violation ends the
   * request with status `"violation"` and the list; only an empty list goes on to the classifier.
   */
  function CheckInput(violations: seq<Violation>): (r: CheckReply)
    ensures r.RuleViolations? <==> violations != []
    ensures r.RuleViolations? ==>
      r.status == ViolationStatus && r.ruleViolations == violations && r.message == ViolationMessage
  {
    if violations != [] then RuleViolations(ViolationStatus, violations, ViolationMessage) else ClassifierConsulted
  }

  /** The lookup of one word: one violation per id listed under it. */
  method WordCheck(word: string, m: IdMap) returns (found: seq<Violation>)
    ensures found == WordViolations(word, m)
  {
    found := [];
    if word in m {
      var ids := m[word];
      var j := 0;
      while j < |ids|
        invariant 0 <= j <= |ids|
        invariant |found| == j
        invariant forall t | 0 <= t < j :: found[t] == KeywordViolation(ids[t], word)
      {
        found := found + [KeywordViolation(ids[j], word)];
        j := j + 1;
      }
    }
  }

  /** The keyword loop of `full_check` over the words, in word order. */
  method WordsCheck(words: seq<string>, m: IdMap) returns (violations: seq<Violation>)
    ensures violations == KeywordStep(words, m)
  {
    violations := [];
    var i := 0;
    while i < |words|
      invariant 0 <= i <= |words|
      invariant violations == KeywordStep(words[..i], m)
    {
      assert words[..i + 1][..i] == words[..i];
      var found := WordCheck(words[i], m);
      violations := violations + found;
      i := i + 1;
    }
    assert words[..|words|] == words;
  }

  /** The semantic step of `full_check`, over the similarity scores in index order. */
  method SemanticCheck(scores: seq<SemanticScore>) returns (found: seq<Violation>)
    ensures found == SemanticStep(scores)
  {
    found := [];
    var i := 0;
    while i < |scores|
      invariant 0 <= i <= |scores|
      invariant found == SemanticStep(scores[..i])
    {
      var s := scores[i];
      assert scores[..i + 1][..i] == scores[..i];
      if s.maxSimilarity > s.threshold {
        found := found + [SemanticViolation(s.ruleId, s.maxSimilarity)];
      }
      i := i + 1;
    }
    assert scores[..|scores|] == scores;
  }

  class RuleManager {
    var rules: seq<Rule>
    var keywordMap: IdMap

    constructor()
      ensures rules == [] && keywordMap == map[]
    {
      rules := [];
      keywordMap := map[];
    }

    /** `load_rules` once the file is parsed: the rules are replaced and the index rebuilt. */
    method LoadRules(newRules: seq<Rule>) returns (raised: bool)
      modifies this
      ensures rules == newRules
      ensures raised <==> Index(newRules).KeyError?
      ensures keywordMap == Index(newRules).keywordMap
    {
      rules := newRules;
      raised := Precompute();
    }

    /**
     * `_precompute`: the map is emptied, then every keyword of every rule is
     * appended under its lowercase form; `raised` reports the `KeyError` of a
     * rule with keywords or examples and no id, which stops the build where it stands.
     */
    method Precompute() returns (raised: bool)
      modifies this
      ensures rules == old(rules)
      ensures raised <==> Index(rules).KeyError?
      ensures keywordMap == Index(rules).keywordMap
    {
      keywordMap := map[];
      var i := 0;
      while i < |rules|
        invariant 0 <= i <= |rules|
        invariant rules == old(rules)
        invariant Index(rules[..i]) == Built(keywordMap)
      {
        assert rules[..i + 1][..i] == rules[..i];
        raised := IndexRule(rules[i]);
        if raised {
          KeyErrorPersists(rules, i + 1);
          return;
        }
        i := i + 1;
      }
      assert rules[..|rules|] == rules;
      return false;
    }

    /**
     * One rule of `_precompute`: in the keyword loop, `setdefault` on the
     * lowercased keyword, then `rule['id']`, which raises on a rule without
     * an id after the first key has been added; then, for a rule with
     * examples, `rule['id']` again as the key of its embeddings.
     */
    method IndexRule(rule: Rule) returns (raised: bool)
      modifies this
      ensures rules == old(rules)
      ensures raised <==> HasMissingId(rule)
      ensures raised ==> keywordMap == MapAtRaise(old(keywordMap), rule)
      ensures !raised && rule.id.Some? ==> keywordMap == AddKeywords(old(keywordMap), rule.keywords, rule.id.value)
      ensures !raised && rule.id.None? ==> keywordMap == old(keywordMap)
    {
      var j := 0;
      while j < |rule.keywords|
        invariant 0 <= j <= |rule.keywords|
        invariant rules == old(rules)
        invariant rule.id.None? ==> j == 0 && keywordMap == old(keywordMap)
        invariant rule.id.Some? ==> keywordMap == AddKeywords(old(keywordMap), rule.keywords[..j], rule.id.value)
      {
        var k := PyText.Lower(rule.keywords[j]);
        if k !in keywordMap {
          keywordMap := keywordMap[k := []];
        }
        if rule.id.None? {
          return true;
        }
        assert rule.keywords[..j + 1][..j] == rule.keywords[..j];
        keywordMap := keywordMap[k := keywordMap[k] + [rule.id.value]];
        j := j + 1;
      }
      assert rule.keywords[..|rule.keywords|] == rule.keywords;
      return rule.id.None? && rule.hasExamples;
    }

    /** The keyword step of `full_check`: the lowercased text split on whitespace, each word looked up whole. */
    method KeywordCheck(text: string) returns (violations: seq<Violation>)
      ensures violations == KeywordStep(PyText.Split(PyText.Lower(text)), keywordMap)
    {
      violations := WordsCheck(PyText.Split(PyText.Lower(text)), keywordMap);
    }

    /** `full_check`: the keyword violations, then the semantic ones in index order. */
    method FullCheck(text: string, scores: seq<SemanticScore>) returns (violations: seq<Violation>)
      ensures violations == KeywordStep(PyText.Split(PyText.Lower(text)), keywordMap) + SemanticStep(scores)
    {
      var keyword := KeywordCheck(text);
      var semantic := SemanticCheck(scores);
      violations := keyword + semantic;
    }
  }
}
