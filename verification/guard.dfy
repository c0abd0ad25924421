/**
 * `RuleManager` of the content guardrail service: it (re)builds its keyword
 * indices from the loaded rules and answers fuzzy look-ups and full checks
 * against them. The stemmer and the WordNet synonym listing are given to it
 * at construction; spaCy's document, the regular-expression matches, the
 * semantic hits and the confidence sort are arguments of each check.
 */
module Guard {
  import opened Wrappers
  import PyText
  import Levenshtein
  import opened GuardRules
  import opened GuardMatching

  lemma ExpandedStep(kws: seq<string>, i: nat, expand: bool, synonyms: string -> seq<string>)
    requires i < |kws|
    ensures Expanded(kws[..i + 1], expand, synonyms) == Expanded(kws[..i], expand, synonyms) + KeywordExpansion(kws[i], expand, synonyms)
  {
    assert kws[..i + 1][..i] == kws[..i];
  }

  /** Moving one element from the keywords still to visit to those visited. */
  lemma MoveOne(todo: set<string>, done: set<string>, added: set<string>, wl: set<string>, kw: string)
    requires todo !! done && added == done - wl && kw in todo
    ensures (todo - {kw}) + (done + {kw}) == todo + done && (todo - {kw}) !! (done + {kw})
    ensures kw !in added
    ensures (if kw in wl then added else added + {kw}) == (done + {kw}) - wl
  {
  }

  /**
   * The body of the keyword loop of `check_fuzzy_keywords`: a keyword whose
   * length differs from the word's by more than the budget is skipped before
   * any distance is computed; otherwise each of its entries yields a match
   * when the distance and the confidence pass.
   */
  method MatchKeyword(w: string, keyword: string, entries: seq<KeywordEntry>, maxDistance: nat) returns (found: seq<Violation>)
    requires maxDistance == MaxDistance(|w|)
    ensures found == KeywordMatches(w, keyword, entries)
  {
    found := [];
    if Levenshtein.Diff(|keyword|, |w|) > maxDistance {
      LengthGapRejects(w, keyword);
      return;
    }
    var editDist := Levenshtein.Distance(w, keyword);
    if editDist > maxDistance {
      return;
    }
    var confidence := 1.0 - (editDist as real) / (if |keyword| >= 1 then |keyword| as real else 1.0);
    var minConfidence := if |w| < 5 then 0.7 else 0.6;
    if confidence < minConfidence {
      return;
    }
    var j := 0;
    while j < |entries|
      invariant 0 <= j <= |entries|
      invariant |found| == j
      invariant forall t | 0 <= t < j :: found[t] == FuzzyViolation(entries[t], w, keyword)
    {
      found := found + [Violation(entries[j].ruleId, FuzzyKeyword, keyword, confidence,
                                  Some(entries[j].category), Some(w), None)];
      j := j + 1;
    }
  }

  class RuleManager {
    var rules: seq<RuleSpec>
    var keywordMap: KeywordMap
    /** The keys of `keywordMap` in insertion order, the order a Python dict iterates them in. */
    var keywordOrder: seq<string>
    var stemmedKeywordMap: StemMap
    var minWordLengthForFuzzy: int
    var whitelist: set<string>
    /** Porter stemming. */
    const stem: string -> string
    /** The WordNet synonyms of a word, listed in the order the synonym set yields them. */
    const synonyms: string -> seq<string>

    /**
     * The indices are those a rebuild from the current rules produces, the
     * insertion order lists each key once, and the stemmed map agrees with the keyword map.
     */
    ghost predicate Valid()
      reads this
    {
      keywordMap == KeywordIndex(rules, whitelist, synonyms)
      && Enumerates(keywordOrder, keywordMap.Keys)
      && StemsAgree(keywordMap, stemmedKeywordMap, stem)
    }

    function Snapshot(): Indices
      reads this
    {
      Indices(keywordMap, keywordOrder, stemmedKeywordMap, whitelist, minWordLengthForFuzzy)
    }

    constructor(stem: string -> string, synonyms: string -> seq<string>)
      ensures Valid()
      ensures rules == [] && keywordMap == map[] && keywordOrder == [] && stemmedKeywordMap == map[]
      ensures minWordLengthForFuzzy == MinWordLengthForFuzzy && whitelist == CommonWordsWhitelist
      ensures this.stem == stem && this.synonyms == synonyms
    {
      rules := [];
      keywordMap := map[];
      keywordOrder := [];
      stemmedKeywordMap := map[];
      minWordLengthForFuzzy := MinWordLengthForFuzzy;
      whitelist := CommonWordsWhitelist;
      this.stem := stem;
      this.synonyms := synonyms;
    }

    /**
     * `load_rules` after the rules file has been read: the rules, the fuzzy
     * word length (4 unless configured) and the whitelist (the common words
     * plus the configured additions) are replaced, then the indices are rebuilt.
     */
    method LoadRules(newRules: seq<RuleSpec>, configuredMinLength: Option<int>, whitelistAdditions: set<string>)
      modifies this
      ensures rules == newRules
      ensures minWordLengthForFuzzy == (if configuredMinLength.Some? then configuredMinLength.value else MinWordLengthForFuzzy)
      ensures whitelist == CommonWordsWhitelist + whitelistAdditions
      ensures Valid() && keywordMap == KeywordIndex(newRules, whitelist, synonyms)
    {
      rules := newRules;
      minWordLengthForFuzzy := if configuredMinLength.Some? then configuredMinLength.value else MinWordLengthForFuzzy;
      whitelist := CommonWordsWhitelist + whitelistAdditions;
      Precompute();
    }

    /**
     * `load_rules` when the rules file does not exist: the rules are emptied and
     * the indices rebuilt, while the fuzzy word length and the whitelist keep
     * the values of the last successful load.
     */
    method LoadMissingFile()
      modifies this
      ensures rules == [] && whitelist == old(whitelist) && minWordLengthForFuzzy == old(minWordLengthForFuzzy)
      ensures Valid() && keywordMap == map[]
    {
      rules := [];
      Precompute();
    }

    /**
     * `_precompute`: the indices are cleared and rebuilt rule by rule, so the
     * keyword map afterwards depends on the rules, whitelist and synonyms only,
     * never on the map it replaced.
     */
    method Precompute()
      modifies this
      ensures rules == old(rules) && whitelist == old(whitelist) && minWordLengthForFuzzy == old(minWordLengthForFuzzy)
      ensures Valid()
    {
      keywordMap := map[];
      keywordOrder := [];
      stemmedKeywordMap := map[];
      var i := 0;
      while i < |rules|
        invariant 0 <= i <= |rules|
        invariant rules == old(rules) && whitelist == old(whitelist) && minWordLengthForFuzzy == old(minWordLengthForFuzzy)
        invariant keywordMap == KeywordIndex(rules[..i], whitelist, synonyms)
        invariant Enumerates(keywordOrder, keywordMap.Keys)
        invariant StemsAgree(keywordMap, stemmedKeywordMap, stem)
      {
        var rule := rules[i];
        assert rules[..i + 1][..i] == rules[..i];
        if HasId(rule) {
          ProcessKeywords(rule);
        }
        i := i + 1;
      }
      assert rules[..|rules|] == rules;
    }

    /** The synonyms kept for one keyword: of the first five listed, those at least three characters long. */
    method TopSynonyms(kw: string) returns (kept: set<string>)
      ensures kept == KeptSynonyms(Take(synonyms(kw), MaxSynonyms))
      ensures forall s | s in kept :: |s| >= MinSynonymLength
    {
      var top := Take(synonyms(kw), MaxSynonyms);
      kept := {};
      var j := 0;
      while j < |top|
        invariant 0 <= j <= |top|
        invariant kept == KeptSynonyms(top[..j])
        invariant forall s | s in kept :: |s| >= MinSynonymLength
      {
        assert top[..j + 1][..j] == top[..j];
        if |top[j]| >= MinSynonymLength {
          kept := kept + {top[j]};
        }
        j := j + 1;
      }
      assert top[..|top|] == top;
    }

    /** One keyword's contribution to the expansion: nothing below two characters, else its normal form and kept synonyms. */
    method ExpandKeyword(kw: string, expand: bool) returns (ks: set<string>)
      ensures ks == KeywordExpansion(kw, expand, synonyms)
    {
      ks := {};
      if |kw| >= MinKeywordLength {
        var kwLower := PyText.Strip(PyText.Lower(kw));
        ks := {kwLower};
        if expand {
          var kept := TopSynonyms(kwLower);
          ks := ks + kept;
        }
      }
    }

    /**
     * The first half of `_process_keywords`: every keyword of two or more
     * characters, lowercased and stripped, with its kept synonyms when the rule asks for them.
     */
    method ExpandKeywords(rule: RuleSpec) returns (expanded: set<string>)
      ensures expanded == Expanded(rule.keywords, rule.expandSynonyms, synonyms)
    {
      var keywords := rule.keywords;
      expanded := {};
      var i := 0;
      while i < |keywords|
        invariant 0 <= i <= |keywords|
        invariant expanded == Expanded(keywords[..i], rule.expandSynonyms, synonyms)
      {
        var ks := ExpandKeyword(keywords[i], rule.expandSynonyms);
        ExpandedStep(keywords, i, rule.expandSynonyms, synonyms);
        expanded := expanded + ks;
        i := i + 1;
      }
      assert keywords[..|keywords|] == keywords;
    }

    /**
     * One step of the second half of `_process_keywords`: `entry` is appended
     * under `kw` (a new key goes to the end of the insertion order), and under
     * the stem of `kw` when the stem differs from it and has three or more characters.
     */
    method InsertKeyword(kw: string, entry: KeywordEntry)
      modifies this
      requires Enumerates(keywordOrder, keywordMap.Keys) && StemsAgree(keywordMap, stemmedKeywordMap, stem)
      ensures rules == old(rules) && whitelist == old(whitelist) && minWordLengthForFuzzy == old(minWordLengthForFuzzy)
      ensures keywordMap == old(keywordMap)[kw := (if kw in old(keywordMap) then old(keywordMap)[kw] else []) + [entry]]
      ensures keywordOrder == old(keywordOrder) + (if kw in old(keywordMap) then [] else [kw])
      ensures StemEligible(stem, kw) ==> stemmedKeywordMap == old(stemmedKeywordMap)[stem(kw) :=
        (if stem(kw) in old(stemmedKeywordMap) then old(stemmedKeywordMap)[stem(kw)] else []) + [StemEntry(entry.ruleId, entry.category, kw)]]
      ensures !StemEligible(stem, kw) ==> stemmedKeywordMap == old(stemmedKeywordMap)
      ensures Enumerates(keywordOrder, keywordMap.Keys) && StemsAgree(keywordMap, stemmedKeywordMap, stem)
    {
      StemsAgreeStep(keywordMap, stemmedKeywordMap, stem, kw, entry);
      if kw !in keywordMap {
        keywordOrder := keywordOrder + [kw];
      }
      keywordMap := keywordMap[kw := (if kw in keywordMap then keywordMap[kw] else []) + [entry]];
      var stemmedKw := stem(kw);
      if stemmedKw != kw && |stemmedKw| >= MinStemLength {
        stemmedKeywordMap := stemmedKeywordMap[stemmedKw :=
          (if stemmedKw in stemmedKeywordMap then stemmedKeywordMap[stemmedKw] else []) + [StemEntry(entry.ruleId, entry.category, kw)]];
      }
    }

    /** The second half of `_process_keywords`: every keyword of `ks` that is not whitelisted gets `entry`, in any order. */
    method InsertKeywords(ks: set<string>, entry: KeywordEntry)
      modifies this
      requires Enumerates(keywordOrder, keywordMap.Keys) && StemsAgree(keywordMap, stemmedKeywordMap, stem)
      ensures rules == old(rules) && whitelist == old(whitelist) && minWordLengthForFuzzy == old(minWordLengthForFuzzy)
      ensures keywordMap == AddEntries(old(keywordMap), ks - whitelist, entry)
      ensures Enumerates(keywordOrder, keywordMap.Keys) && StemsAgree(keywordMap, stemmedKeywordMap, stem)
    {
      ghost var start := keywordMap;
      ghost var wl := whitelist;
      var todo := ks;
      ghost var added: set<string> := {};
      ghost var done: set<string> := {};
      AddEntriesNothing(start, entry);
      while todo != {}
        invariant todo + done == ks && todo !! done
        invariant added == done - wl
        invariant rules == old(rules) && whitelist == wl && minWordLengthForFuzzy == old(minWordLengthForFuzzy)
        invariant keywordMap == AddEntries(start, added, entry)
        invariant Enumerates(keywordOrder, keywordMap.Keys) && StemsAgree(keywordMap, stemmedKeywordMap, stem)
        decreases |todo|
      {
        var kw :| kw in todo;
        MoveOne(todo, done, added, wl, kw);
        todo := todo - {kw};
        if kw !in whitelist {
          AddEntriesStep(start, added, kw, entry);
          InsertKeyword(kw, entry);
          added := added + {kw};
        }
        done := done + {kw};
      }
    }

    /**
     * `_process_keywords`: a rule with an id and keywords adds its entry under
     * every expanded keyword that is not whitelisted; any other rule changes nothing.
     */
    method ProcessKeywords(rule: RuleSpec)
      modifies this
      requires Enumerates(keywordOrder, keywordMap.Keys) && StemsAgree(keywordMap, stemmedKeywordMap, stem)
      ensures rules == old(rules) && whitelist == old(whitelist) && minWordLengthForFuzzy == old(minWordLengthForFuzzy)
      ensures keywordMap == AddRule(old(keywordMap), rule, whitelist, synonyms)
      ensures Enumerates(keywordOrder, keywordMap.Keys) && StemsAgree(keywordMap, stemmedKeywordMap, stem)
    {
      if !HasId(rule) || rule.keywords == [] {
        return;
      }
      var expanded := ExpandKeywords(rule);
      InsertKeywords(expanded, KeywordEntry(rule.id.value, CategoryOf(rule)));
    }

    /** `check_fuzzy_keywords`: the keywords are visited in insertion order. */
    method CheckFuzzyKeywords(word: string) returns (matches: seq<Violation>)
      requires OrderCovers(Snapshot())
      ensures matches == FuzzyMatches(word, Snapshot())
    {
      if word == [] || |word| < minWordLengthForFuzzy {
        return [];
      }
      var wordLower := PyText.Lower(word);
      if wordLower in whitelist {
        return [];
      }
      var maxDistance := if (3 * |wordLower|) / 10 < DefaultEditDistanceThreshold then (3 * |wordLower|) / 10
                         else DefaultEditDistanceThreshold;
      if |wordLower| < ExactMatchBelow {
        maxDistance := 0;
      }
      matches := [];
      var order := keywordOrder;
      var km := keywordMap;
      var i := 0;
      while i < |order|
        invariant 0 <= i <= |order|
        invariant forall k | k in order[..i] :: k in km
        invariant matches == FuzzyOver(wordLower, order[..i], km)
      {
        var keyword := order[i];
        assert order[..i + 1] == order[..i] + [keyword];
        var found := MatchKeyword(wordLower, keyword, km[keyword], maxDistance);
        matches := matches + found;
        i := i + 1;
      }
      assert order[..|order|] == order;
    }

    /** Stages 1 to 4 of `full_check`: regular-expression, keyword, lemma and stemmed matches, in that order. */
    method ExactStages(doc: seq<Token>, patternMatches: seq<PatternMatch>)
      returns (violations: seq<Violation>, processed: set<string>, ghost kept: seq<Candidate>)
      ensures kept == KeywordStages(doc, patternMatches, Snapshot(), stem)
      ensures violations == ViolationsOf(kept) && processed == KeysOf(kept)
    {
      var words := Words(doc);
      violations, processed, kept := RecordNew([], {}, [], PatternCandidates(patternMatches));
      violations, processed, kept := RecordNew(violations, processed, kept,
        KeywordCandidates(words, keywordMap, Keyword, 1.0, ":keyword:"));
      violations, processed, kept := RecordNew(violations, processed, kept,
        KeywordCandidates(Lemmas(doc), keywordMap, LemmaKeyword, 0.95, ":lemma:"));
      violations, processed, kept := RecordNew(violations, processed, kept,
        StemCandidates(Stems(stem, words), stemmedKeywordMap));
    }

    /** Stage 5 of `full_check`: the fuzzy matches of every word long enough and not whitelisted, offered in word order. */
    method FuzzyStage(words: seq<string>, violations: seq<Violation>, processed: set<string>, ghost kept: seq<Candidate>)
      returns (violations': seq<Violation>, processed': set<string>, ghost kept': seq<Candidate>)
      requires OrderCovers(Snapshot())
      requires violations == ViolationsOf(kept) && processed == KeysOf(kept)
      ensures kept' == Accumulate(kept, FuzzyCandidates(words, Snapshot()))
      ensures violations' == ViolationsOf(kept') && processed' == KeysOf(kept')
    {
      ghost var ix := Snapshot();
      violations', processed', kept' := violations, processed, kept;
      var i := 0;
      while i < |words|
        invariant 0 <= i <= |words|
        invariant kept' == Accumulate(kept, FuzzyCandidates(words[..i], ix))
        invariant violations' == ViolationsOf(kept') && processed' == KeysOf(kept')
      {
        FuzzyCandidatesSnoc(words, i, ix);
        AccumulateAppend(kept, FuzzyCandidates(words[..i], ix), FuzzyWordCandidates(words[i], ix));
        violations', processed', kept' := FuzzyWord(words[i], violations', processed', kept');
        i := i + 1;
      }
      assert words[..|words|] == words;
    }

    /** One word of the fuzzy loop: its matches, when it is long enough and not whitelisted, recorded unless seen. */
    method FuzzyWord(word: string, violations: seq<Violation>, processed: set<string>, ghost kept: seq<Candidate>)
      returns (violations': seq<Violation>, processed': set<string>, ghost kept': seq<Candidate>)
      requires OrderCovers(Snapshot())
      requires violations == ViolationsOf(kept) && processed == KeysOf(kept)
      ensures kept' == Accumulate(kept, FuzzyWordCandidates(word, Snapshot()))
      ensures violations' == ViolationsOf(kept') && processed' == KeysOf(kept')
    {
      if |word| >= minWordLengthForFuzzy && word !in whitelist {
        var fuzzyMatches := CheckFuzzyKeywords(word);
        var cands := seq(|fuzzyMatches|, k requires 0 <= k < |fuzzyMatches| =>
          FuzzyCandidate(word, fuzzyMatches[k]));
        violations', processed', kept' := RecordNew(violations, processed, kept, cands);
      } else {
        violations', processed', kept' := violations, processed, kept;
      }
    }

    /**
     * Stages 5 and 6 of `full_check`: the fuzzy stage runs only when nothing
     * was found and the cleaned text has four or more characters, the semantic
     * stage only when still nothing was found and the cleaned text has three or more words.
     */
    method FallbackStages(text: string, doc: seq<Token>, semanticHits: seq<SemanticHit>,
                          violations: seq<Violation>, processed: set<string>, ghost kept: seq<Candidate>)
      returns (violations': seq<Violation>, processed': set<string>, ghost kept': seq<Candidate>)
      requires Valid()
      requires violations == ViolationsOf(kept) && processed == KeysOf(kept)
      ensures var a5 := if |kept| == 0 && FuzzyTextLongEnough(text) then Accumulate(kept, FuzzyCandidates(Words(doc), Snapshot())) else kept;
        kept' == if |a5| == 0 && SemanticTextLongEnough(text) then Accumulate(a5, SemanticCandidates(semanticHits)) else a5
      ensures violations' == ViolationsOf(kept') && processed' == KeysOf(kept')
    {
      var textClean := PyText.Clean(PyText.Lower(text));
      violations', processed', kept' := violations, processed, kept;
      if |violations'| == 0 && |textClean| >= MinFuzzyTextLength {
        violations', processed', kept' := FuzzyStage(Words(doc), violations', processed', kept');
      }
      if |violations'| == 0 && |PyText.Split(textClean)| >= MinSemanticWords {
        violations', processed', kept' := RecordNew(violations', processed', kept', SemanticCandidates(semanticHits));
      }
    }

    /**
     * `full_check`: pattern, keyword, lemma and stemmed stages, then fuzzy and
     * semantic stages only while nothing was found, each violation kept once
     * per key; the list is sorted by descending confidence and cut to ten.
     */
    method FullCheck(text: string, doc: seq<Token>, patternMatches: seq<PatternMatch>, semanticHits: seq<SemanticHit>)
      returns (result: seq<Violation>)
      requires Valid()
      ensures result == FullCheckResult(text, doc, patternMatches, semanticHits, Snapshot(), stem)
      ensures |result| <= MaxViolations && ByConfidence(result)
    {
      var violations, processed, kept := ExactStages(doc, patternMatches);
      violations, processed, kept := FallbackStages(text, doc, semanticHits, violations, processed, kept);
      var sorted := SortByConfidence(violations);
      result := Take(sorted, MaxViolations);
      assert result == sorted[..|result|];
      PrefixMostConfident(sorted, |result|);
    }

    /** `check_with_cache` without the cache: blank text is answered with no violations and no check. */
    method CheckWithCache(text: string, doc: seq<Token>, patternMatches: seq<PatternMatch>, semanticHits: seq<SemanticHit>)
      returns (result: seq<Violation>)
      requires Valid()
      ensures PyText.Blank(text) ==> result == []
      ensures !PyText.Blank(text) ==>
        result == FullCheckResult(text, doc, patternMatches, semanticHits, Snapshot(), stem)
    {
      PyText.StripEmptyIffBlank(text);
      if text == [] || PyText.Strip(text) == [] {
        return [];
      }
      result := FullCheck(text, doc, patternMatches, semanticHits);
    }
  }
}
