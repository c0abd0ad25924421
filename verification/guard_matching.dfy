/**
 * Matching in the content guardrail service, as values: the fuzzy keyword
 * test, the candidate violations of each stage of the full check, and the
 * accumulation that keeps one violation per violation key. Tokenisation,
 * regular expressions and embeddings are inputs: the tokens spaCy produced,
 * the pattern matches found, and the rules whose examples were similar enough.
 */
module GuardMatching {
  import opened Wrappers
  import PyText
  import Levenshtein
  import Decimal
  import opened GuardRules

  const DefaultEditDistanceThreshold: nat := 2
  const MinWordLengthForFuzzy: int := 4
  const MaxViolations: nat := 10
  /** Words shorter than this must match a keyword exactly. */
  const ExactMatchBelow: nat := 4
  /** Texts whose cleaned form is shorter than this skip fuzzy matching. */
  const MinFuzzyTextLength: nat := 4
  /** Texts whose cleaned form has fewer words than this skip semantic matching. */
  const MinSemanticWords: nat := 3

  datatype Kind = Pattern | Keyword | LemmaKeyword | StemmedKeyword | FuzzyKeyword | Semantic

  /**
   * A violation. `original` is the keyword a stem came from (stemmed) or the
   * lowercased word (fuzzy); `example` is the matched example (semantic).
   */
  datatype Violation = Violation(
    ruleId: string,
    kind: Kind,
    matched: string,
    confidence: real,
    category: Option<string>,
    original: Option<string>,
    example: Option<string>)

  /** The indices a rule manager holds, as one value. */
  datatype Indices = Indices(
    keywordMap: KeywordMap,
    keywordOrder: seq<string>,
    stemmedKeywordMap: StemMap,
    whitelist: set<string>,
    minWordLengthForFuzzy: int)

  /** `keywordOrder` lists the keys of the keyword map in insertion order, each once. */
  predicate Enumerates(order: seq<string>, keys: set<string>)
  {
    (forall i, j | 0 <= i < j < |order| :: order[i] != order[j])
    && (forall k | k in order :: k in keys)
    && (forall k | k in keys :: k in order)
  }

  predicate OrderCovers(ix: Indices)
  {
    forall k | k in ix.keywordOrder :: k in ix.keywordMap
  }

  // ---- Fuzzy keyword matching ----

  /** `min(2, int(len * 0.3))`, forced to 0 below four characters. */
  function MaxDistance(n: nat): (d: nat)
    ensures n < ExactMatchBelow ==> d == 0
    ensures ExactMatchBelow <= n <= 6 ==> d == 1
    ensures n >= 7 ==> d == DefaultEditDistanceThreshold
  {
    if n < ExactMatchBelow then 0
    else if (3 * n) / 10 < DefaultEditDistanceThreshold then (3 * n) / 10
    else DefaultEditDistanceThreshold
  }

  /** `1.0 - edit_dist / max(len(keyword), 1)`, before rounding. */
  function Confidence(d: nat, keywordLength: nat): real
  {
    1.0 - (d as real) / (if keywordLength >= 1 then keywordLength as real else 1.0)
  }

  function MinConfidence(wordLength: nat): real
  {
    if wordLength < 5 then 0.7 else 0.6
  }

  /** The distance test and the confidence test of `check_fuzzy_keywords`, without its length prefilter. */
  predicate Accepted(w: string, k: string)
  {
    var d := Levenshtein.Distance(w, k);
    d <= MaxDistance(|w|) && Confidence(d, |k|) >= MinConfidence(|w|)
  }

  /** Short words are matched only by an identical keyword. */
  lemma ShortWordsMatchExactly(w: string, k: string)
    requires |w| < ExactMatchBelow
    ensures Accepted(w, k) <==> w == k
  {
    Levenshtein.DistanceZeroIffEqual(w, k);
  }

  /**
   * The length prefilter never discards a keyword the distance test would
   * accept: a length gap above the budget already puts the distance above it.
   */
  lemma LengthGapRejects(w: string, k: string)
    requires Levenshtein.Diff(|k|, |w|) > MaxDistance(|w|)
    ensures !Accepted(w, k)
  {
  }

  function FuzzyViolation(e: KeywordEntry, w: string, k: string): Violation
  {
    Violation(e.ruleId, FuzzyKeyword, k, Confidence(Levenshtein.Distance(w, k), |k|), Some(e.category), Some(w), None)
  }

  /** The matches one keyword contributes: one per entry, when the keyword is accepted. */
  function KeywordMatches(w: string, k: string, entries: seq<KeywordEntry>): seq<Violation>
  {
    if Accepted(w, k) then seq(|entries|, i requires 0 <= i < |entries| => FuzzyViolation(entries[i], w, k)) else []
  }

  function FuzzyOver(w: string, order: seq<string>, km: KeywordMap): seq<Violation>
    requires forall k | k in order :: k in km
  {
    if order == [] then []
    else
      var k := order[|order| - 1];
      FuzzyOver(w, order[..|order| - 1], km) + KeywordMatches(w, k, km[k])
  }

  /** What `check_fuzzy_keywords(word)` returns, keywords visited in insertion order. */
  function FuzzyMatches(word: string, ix: Indices): seq<Violation>
    requires OrderCovers(ix)
  {
    if word == [] || |word| < ix.minWordLengthForFuzzy then []
    else
      var w := PyText.Lower(word);
      if w in ix.whitelist then [] else FuzzyOver(w, ix.keywordOrder, ix.keywordMap)
  }

  lemma {:induction false} FuzzyOverSound(w: string, order: seq<string>, km: KeywordMap, v: Violation)
    requires forall k | k in order :: k in km
    requires v in FuzzyOver(w, order, km)
    ensures v.kind == FuzzyKeyword && v.original == Some(w) && v.matched in order && Accepted(w, v.matched)
    ensures v.category.Some? && KeywordEntry(v.ruleId, v.category.value) in km[v.matched]
  {
    var init := order[..|order| - 1];
    var k := order[|order| - 1];
    if v in FuzzyOver(w, init, km) {
      FuzzyOverSound(w, init, km, v);
    } else {
      assert v in KeywordMatches(w, k, km[k]);
      var i :| 0 <= i < |km[k]| && v == FuzzyViolation(km[k][i], w, k);
      assert km[k][i] == KeywordEntry(v.ruleId, v.category.value);
    }
  }

  lemma {:induction false} FuzzyOverComplete(w: string, order: seq<string>, km: KeywordMap, j: nat, i: nat)
    requires forall k | k in order :: k in km
    requires j < |order| && i < |km[order[j]]| && Accepted(w, order[j])
    ensures FuzzyViolation(km[order[j]][i], w, order[j]) in FuzzyOver(w, order, km)
  {
    var init := order[..|order| - 1];
    var k := order[|order| - 1];
    if j < |order| - 1 {
      assert init[j] == order[j];
      FuzzyOverComplete(w, init, km, j, i);
    } else {
      assert KeywordMatches(w, k, km[k])[i] == FuzzyViolation(km[k][i], w, k);
    }
  }

  /**
   * `check_fuzzy_keywords` returns nothing for a short or whitelisted word;
   * otherwise it returns exactly one violation per entry of every keyword
   * within the edit budget and above the confidence floor.
   */
  lemma FuzzyMatchesCorrect(word: string, ix: Indices)
    requires OrderCovers(ix)
    ensures word == [] || |word| < ix.minWordLengthForFuzzy || PyText.Lower(word) in ix.whitelist ==>
      FuzzyMatches(word, ix) == []
    ensures forall v | v in FuzzyMatches(word, ix) ::
      v.kind == FuzzyKeyword && v.original == Some(PyText.Lower(word)) && v.matched in ix.keywordMap
      && Accepted(PyText.Lower(word), v.matched)
      && v.category.Some? && KeywordEntry(v.ruleId, v.category.value) in ix.keywordMap[v.matched]
    ensures word != [] && |word| >= ix.minWordLengthForFuzzy && PyText.Lower(word) !in ix.whitelist ==>
      forall j, i | 0 <= j < |ix.keywordOrder| && 0 <= i < |ix.keywordMap[ix.keywordOrder[j]]|
        && Accepted(PyText.Lower(word), ix.keywordOrder[j]) ::
        FuzzyViolation(ix.keywordMap[ix.keywordOrder[j]][i], PyText.Lower(word), ix.keywordOrder[j]) in FuzzyMatches(word, ix)
  {
    var w := PyText.Lower(word);
    forall v | v in FuzzyMatches(word, ix)
      ensures v.kind == FuzzyKeyword && v.original == Some(w) && v.matched in ix.keywordMap && Accepted(w, v.matched)
      ensures v.category.Some? && KeywordEntry(v.ruleId, v.category.value) in ix.keywordMap[v.matched]
    {
      FuzzyOverSound(w, ix.keywordOrder, ix.keywordMap, v);
    }
    if word != [] && |word| >= ix.minWordLengthForFuzzy && w !in ix.whitelist {
      forall j, i | 0 <= j < |ix.keywordOrder| && 0 <= i < |ix.keywordMap[ix.keywordOrder[j]]| && Accepted(w, ix.keywordOrder[j])
        ensures FuzzyViolation(ix.keywordMap[ix.keywordOrder[j]][i], w, ix.keywordOrder[j]) in FuzzyMatches(word, ix)
      {
        FuzzyOverComplete(w, ix.keywordOrder, ix.keywordMap, j, i);
      }
    }
  }

  // ---- Candidate violations of each stage ----

  /** One token of the spaCy document of the lowercased text. */
  datatype Token = Token(text: string, lemmaForm: string, isStop: bool)

  /** A regular-expression match of a rule's pattern. */
  datatype PatternMatch = PatternMatch(ruleId: string, text: string)

  /** A rule whose most similar example passed its threshold: the example's index, similarity and text. */
  datatype SemanticHit = SemanticHit(ruleId: string, index: nat, similarity: real, example: string)

  /** A violation together with the key that deduplicates it. */
  datatype Candidate = Candidate(key: string, violation: Violation)

  /** `[token.text for token in doc if not token.is_stop and token.text.strip()]`. */
  function Words(doc: seq<Token>): seq<string>
  {
    if doc == [] then []
    else
      var t := doc[|doc| - 1];
      Words(doc[..|doc| - 1]) + (if !t.isStop && PyText.Strip(t.text) != [] then [t.text] else [])
  }

  /** `[token.lemma_ for token in doc if not token.is_stop and token.lemma_.strip()]`. */
  function Lemmas(doc: seq<Token>): seq<string>
  {
    if doc == [] then []
    else
      var t := doc[|doc| - 1];
      Lemmas(doc[..|doc| - 1]) + (if !t.isStop && PyText.Strip(t.lemmaForm) != [] then [t.lemmaForm] else [])
  }

  function Stems(stem: string -> string, words: seq<string>): seq<string>
  {
    seq(|words|, i requires 0 <= i < |words| => stem(words[i]))
  }

  /** The candidate of one pattern match, keyed `rule:pattern:text`. */
  function PatternCandidate(m: PatternMatch): Candidate
  {
    Candidate(m.ruleId + ":pattern:" + m.text, Violation(m.ruleId, Pattern, m.text, 1.0, None, None, None))
  }

  /** Stage 1: every non-empty pattern match, and nothing else. */
  function PatternCandidates(ms: seq<PatternMatch>): (cs: seq<Candidate>)
    ensures forall c | c in cs :: c.violation.kind == Pattern
    ensures forall c | c in cs :: exists m | m in ms :: m.text != [] && c == PatternCandidate(m)
    ensures forall m | m in ms && m.text != [] :: PatternCandidate(m) in cs
  {
    if ms == [] then []
    else
      var init := ms[..|ms| - 1];
      var m := ms[|ms| - 1];
      var cs := PatternCandidates(init) + (if m.text != [] then [PatternCandidate(m)] else []);
      assert forall x | x in init :: x in ms;
      assert forall x | x in ms :: x in init || x == m;
      cs
  }

  /** The candidate of one keyword-map entry matched by the word `w`, keyed `rule<tag>w`. */
  function EntryCandidate(e: KeywordEntry, w: string, kind: Kind, confidence: real, tag: string): Candidate
  {
    Candidate(e.ruleId + tag + w, Violation(e.ruleId, kind, w, confidence, Some(e.category), None, None))
  }

  /** A word found in the keyword map yields one candidate per entry listed under it; any other word yields none. */
  function WordCandidates(w: string, km: KeywordMap, kind: Kind, confidence: real, tag: string): (cs: seq<Candidate>)
    ensures forall c | c in cs :: c.violation.kind == kind
    ensures w !in km ==> cs == []
    ensures w in km ==> |cs| == |km[w]|
    ensures forall c | c in cs :: w in km && exists e | e in km[w] :: c == EntryCandidate(e, w, kind, confidence, tag)
    ensures w in km ==> forall e | e in km[w] :: EntryCandidate(e, w, kind, confidence, tag) in cs
  {
    if w in km then
      var cs := seq(|km[w]|, i requires 0 <= i < |km[w]| => EntryCandidate(km[w][i], w, kind, confidence, tag));
      assert forall e | e in km[w] :: exists i | 0 <= i < |km[w]| :: km[w][i] == e && cs[i] == EntryCandidate(e, w, kind, confidence, tag);
      cs
    else []
  }

  /** Stages 2 and 3: every entry of every word (or lemma) found in the keyword map, keyed `rule<tag>word`. */
  function KeywordCandidates(words: seq<string>, km: KeywordMap, kind: Kind, confidence: real, tag: string): (cs: seq<Candidate>)
    ensures forall c | c in cs :: c.violation.kind == kind
  {
    if words == [] then []
    else KeywordCandidates(words[..|words| - 1], km, kind, confidence, tag) + WordCandidates(words[|words| - 1], km, kind, confidence, tag)
  }

  /** Every candidate of stages 2 and 3 comes from an entry of a text word found in the keyword map. */
  lemma {:induction false} KeywordCandidatesSound(words: seq<string>, km: KeywordMap, kind: Kind, confidence: real, tag: string, c: Candidate)
    requires c in KeywordCandidates(words, km, kind, confidence, tag)
    ensures exists w | w in words :: w in km && exists e | e in km[w] :: c == EntryCandidate(e, w, kind, confidence, tag)
  {
    var init := words[..|words| - 1];
    var w := words[|words| - 1];
    if c in KeywordCandidates(init, km, kind, confidence, tag) {
      KeywordCandidatesSound(init, km, kind, confidence, tag, c);
      var w' :| w' in init && w' in km && exists e | e in km[w'] :: c == EntryCandidate(e, w', kind, confidence, tag);
      assert w' in words;
    } else {
      assert c in WordCandidates(w, km, kind, confidence, tag);
      assert w in words;
    }
  }

  /** Every entry listed under every text word found in the keyword map yields its candidate in stages 2 and 3. */
  lemma {:induction false} KeywordCandidatesComplete(words: seq<string>, km: KeywordMap, kind: Kind, confidence: real, tag: string,
                                                     w: string, e: KeywordEntry)
    requires w in words && w in km && e in km[w]
    ensures EntryCandidate(e, w, kind, confidence, tag) in KeywordCandidates(words, km, kind, confidence, tag)
  {
    var init := words[..|words| - 1];
    if w != words[|words| - 1] {
      assert words == init + [words[|words| - 1]];
      assert w in init;
      KeywordCandidatesComplete(init, km, kind, confidence, tag, w, e);
    }
  }

  /** The candidate of one stemmed-map entry matched by the stem `s`, keyed `rule:stemmed:s`. */
  function StemCandidate(e: StemEntry, s: string): Candidate
  {
    Candidate(e.ruleId + ":stemmed:" + s, Violation(e.ruleId, StemmedKeyword, s, 0.9, Some(e.category), Some(e.original), None))
  }

  /** A stem found in the stemmed map yields one candidate per entry listed under it; any other stem yields none. */
  function StemWordCandidates(s: string, sm: StemMap): (cs: seq<Candidate>)
    ensures forall c | c in cs :: c.violation.kind == StemmedKeyword
    ensures s !in sm ==> cs == []
    ensures s in sm ==> |cs| == |sm[s]|
    ensures forall c | c in cs :: s in sm && exists e | e in sm[s] :: c == StemCandidate(e, s)
    ensures s in sm ==> forall e | e in sm[s] :: StemCandidate(e, s) in cs
  {
    if s in sm then
      var cs := seq(|sm[s]|, i requires 0 <= i < |sm[s]| => StemCandidate(sm[s][i], s));
      assert forall e | e in sm[s] :: exists i | 0 <= i < |sm[s]| :: sm[s][i] == e && cs[i] == StemCandidate(e, s);
      cs
    else []
  }

  /** Stage 4: every stemmed-map entry of every stemmed word, keyed `rule:stemmed:stem`. */
  function StemCandidates(stems: seq<string>, sm: StemMap): (cs: seq<Candidate>)
    ensures forall c | c in cs :: c.violation.kind == StemmedKeyword
  {
    if stems == [] then []
    else StemCandidates(stems[..|stems| - 1], sm) + StemWordCandidates(stems[|stems| - 1], sm)
  }

  /** Every candidate of stage 4 comes from an entry of a stemmed text word found in the stemmed map. */
  lemma {:induction false} StemCandidatesSound(stems: seq<string>, sm: StemMap, c: Candidate)
    requires c in StemCandidates(stems, sm)
    ensures exists s | s in stems :: s in sm && exists e | e in sm[s] :: c == StemCandidate(e, s)
  {
    var init := stems[..|stems| - 1];
    var s := stems[|stems| - 1];
    if c in StemCandidates(init, sm) {
      StemCandidatesSound(init, sm, c);
      var s' :| s' in init && s' in sm && exists e | e in sm[s'] :: c == StemCandidate(e, s');
      assert s' in stems;
    } else {
      assert c in StemWordCandidates(s, sm);
      assert s in stems;
    }
  }

  /** Every entry listed under every stemmed text word found in the stemmed map yields its candidate in stage 4. */
  lemma {:induction false} StemCandidatesComplete(stems: seq<string>, sm: StemMap, s: string, e: StemEntry)
    requires s in stems && s in sm && e in sm[s]
    ensures StemCandidate(e, s) in StemCandidates(stems, sm)
  {
    var init := stems[..|stems| - 1];
    if s != stems[|stems| - 1] {
      assert stems == init + [stems[|stems| - 1]];
      assert s in init;
      StemCandidatesComplete(init, sm, s, e);
    }
  }

  /** A fuzzy match of the word `w`, keyed `rule:fuzzy:w:keyword`. */
  function FuzzyCandidate(w: string, v: Violation): Candidate
  {
    Candidate(v.ruleId + ":fuzzy:" + w + ":" + v.matched, v)
  }

  /**
   * A word long enough and not whitelisted yields one candidate per fuzzy
   * match `check_fuzzy_keywords` returns for it; any other word yields none.
   */
  function FuzzyWordCandidates(w: string, ix: Indices): (cs: seq<Candidate>)
    requires OrderCovers(ix)
    ensures forall c | c in cs :: c.violation.kind == FuzzyKeyword
    ensures !(|w| >= ix.minWordLengthForFuzzy && w !in ix.whitelist) ==> cs == []
    ensures |w| >= ix.minWordLengthForFuzzy && w !in ix.whitelist ==> |cs| == |FuzzyMatches(w, ix)|
    ensures forall c | c in cs :: c.violation in FuzzyMatches(w, ix) && c == FuzzyCandidate(w, c.violation)
    ensures |w| >= ix.minWordLengthForFuzzy && w !in ix.whitelist ==>
      forall v | v in FuzzyMatches(w, ix) :: FuzzyCandidate(w, v) in cs
  {
    if |w| >= ix.minWordLengthForFuzzy && w !in ix.whitelist then
      var ms := FuzzyMatches(w, ix);
      FuzzyMatchesCorrect(w, ix);
      var cs := seq(|ms|, i requires 0 <= i < |ms| => FuzzyCandidate(w, ms[i]));
      assert forall v | v in ms :: exists i | 0 <= i < |ms| :: ms[i] == v && cs[i] == FuzzyCandidate(w, v);
      cs
    else []
  }

  /** Stage 5. */
  function FuzzyCandidates(words: seq<string>, ix: Indices): (cs: seq<Candidate>)
    requires OrderCovers(ix)
    ensures forall c | c in cs :: c.violation.kind == FuzzyKeyword
  {
    if words == [] then []
    else FuzzyCandidates(words[..|words| - 1], ix) + FuzzyWordCandidates(words[|words| - 1], ix)
  }

  /** Stage 5 over one more word is stage 5 over the words before it, then that word's candidates. */
  lemma FuzzyCandidatesSnoc(words: seq<string>, i: nat, ix: Indices)
    requires OrderCovers(ix)
    requires i < |words|
    ensures FuzzyCandidates(words[..i + 1], ix) == FuzzyCandidates(words[..i], ix) + FuzzyWordCandidates(words[i], ix)
  {
    assert words[..i + 1][..i] == words[..i];
  }

  /** Every candidate of stage 5 is a fuzzy match of one of the text words. */
  lemma {:induction false} FuzzyCandidatesSound(words: seq<string>, ix: Indices, c: Candidate)
    requires OrderCovers(ix)
    requires c in FuzzyCandidates(words, ix)
    ensures exists w | w in words :: c.violation in FuzzyMatches(w, ix) && c == FuzzyCandidate(w, c.violation)
  {
    var init := words[..|words| - 1];
    var w := words[|words| - 1];
    if c in FuzzyCandidates(init, ix) {
      FuzzyCandidatesSound(init, ix, c);
      var w' :| w' in init && c.violation in FuzzyMatches(w', ix) && c == FuzzyCandidate(w', c.violation);
      assert w' in words;
    } else {
      assert c in FuzzyWordCandidates(w, ix);
      assert w in words;
    }
  }

  /** Every fuzzy match of every long enough, non-whitelisted text word yields its candidate in stage 5. */
  lemma {:induction false} FuzzyCandidatesComplete(words: seq<string>, ix: Indices, w: string, v: Violation)
    requires OrderCovers(ix)
    requires w in words && |w| >= ix.minWordLengthForFuzzy && w !in ix.whitelist && v in FuzzyMatches(w, ix)
    ensures FuzzyCandidate(w, v) in FuzzyCandidates(words, ix)
  {
    var init := words[..|words| - 1];
    if w != words[|words| - 1] {
      assert words == init + [words[|words| - 1]];
      assert w in init;
      FuzzyCandidatesComplete(init, ix, w, v);
    }
  }

  /**
   * The candidate of one similar rule, keyed `rule:semantic:index`: its
   * similarity is the confidence, the matched text is fixed, and the example is reported.
   */
  function SemanticCandidate(h: SemanticHit): Candidate
  {
    Candidate(h.ruleId + ":semantic:" + Decimal.NatToString(h.index),
      Violation(h.ruleId, Semantic, "semantic similarity", h.similarity, None, None, Some(h.example)))
  }

  /** Stage 6: one violation per similar rule, in the order the rules were scored. */
  function SemanticCandidates(hits: seq<SemanticHit>): (cs: seq<Candidate>)
    ensures |cs| == |hits|
    ensures forall i | 0 <= i < |hits| :: cs[i] == SemanticCandidate(hits[i])
    ensures forall c | c in cs :: c.violation.kind == Semantic
  {
    if hits == [] then []
    else SemanticCandidates(hits[..|hits| - 1]) + [SemanticCandidate(hits[|hits| - 1])]
  }

  // ---- Keeping one violation per key ----

  function KeysOf(cs: seq<Candidate>): set<string>
  {
    set c | c in cs :: c.key
  }

  function ViolationsOf(cs: seq<Candidate>): (vs: seq<Violation>)
    ensures |vs| == |cs|
  {
    seq(|cs|, i requires 0 <= i < |cs| => cs[i].violation)
  }

  predicate DistinctKeys(cs: seq<Candidate>)
  {
    forall i, j | 0 <= i < j < |cs| :: cs[i].key != cs[j].key
  }

  /** The candidates kept after offering `cands`, in order, to the list `acc`: a candidate is kept when its key is new. */
  function Accumulate(acc: seq<Candidate>, cands: seq<Candidate>): seq<Candidate>
  {
    if cands == [] then acc
    else
      var a := Accumulate(acc, cands[..|cands| - 1]);
      var c := cands[|cands| - 1];
      if c.key in KeysOf(a) then a else a + [c]
  }

  /**
   * Accumulation only appends, appends only offered candidates, and records
   * the key of every candidate offered.
   */
  lemma {:induction false} AccumulateCorrect(acc: seq<Candidate>, cands: seq<Candidate>)
    ensures acc <= Accumulate(acc, cands)
    ensures forall c | c in Accumulate(acc, cands) :: c in acc || c in cands
    ensures KeysOf(Accumulate(acc, cands)) == KeysOf(acc) + KeysOf(cands)
  {
    if cands != [] {
      var init := cands[..|cands| - 1];
      var c := cands[|cands| - 1];
      AccumulateCorrect(acc, init);
      var a := Accumulate(acc, init);
      assert cands == init + [c];
      assert KeysOf(cands) == KeysOf(init) + {c.key};
      if c.key !in KeysOf(a) {
        assert KeysOf(a + [c]) == KeysOf(a) + {c.key};
      }
    }
  }

  /** Accumulation never keeps two candidates with the same key. */
  lemma {:induction false} AccumulateDistinct(acc: seq<Candidate>, cands: seq<Candidate>)
    requires DistinctKeys(acc)
    ensures DistinctKeys(Accumulate(acc, cands))
  {
    if cands != [] {
      var init := cands[..|cands| - 1];
      var c := cands[|cands| - 1];
      AccumulateDistinct(acc, init);
      var a := Accumulate(acc, init);
      if c.key !in KeysOf(a) {
        forall i | 0 <= i < |a| ensures a[i].key != c.key {
          assert a[i] in a;
        }
      }
    }
  }

  /** Offering two lists one after the other is offering their concatenation. */
  lemma {:induction false} AccumulateAppend(acc: seq<Candidate>, xs: seq<Candidate>, ys: seq<Candidate>)
    ensures Accumulate(acc, xs + ys) == Accumulate(Accumulate(acc, xs), ys)
  {
    if ys == [] {
      assert xs + ys == xs;
    } else {
      assert (xs + ys)[..|xs + ys| - 1] == xs + ys[..|ys| - 1];
      AccumulateAppend(acc, xs, ys[..|ys| - 1]);
    }
  }

  /** The dedup step of `full_check`, applied to each candidate in turn. */
  method RecordNew(violations: seq<Violation>, processed: set<string>, ghost kept: seq<Candidate>, cands: seq<Candidate>)
    returns (violations': seq<Violation>, processed': set<string>, ghost kept': seq<Candidate>)
    requires violations == ViolationsOf(kept) && processed == KeysOf(kept)
    ensures kept' == Accumulate(kept, cands)
    ensures violations' == ViolationsOf(kept') && processed' == KeysOf(kept')
  {
    violations', processed', kept' := violations, processed, kept;
    var i := 0;
    while i < |cands|
      invariant 0 <= i <= |cands|
      invariant kept' == Accumulate(kept, cands[..i])
      invariant violations' == ViolationsOf(kept') && processed' == KeysOf(kept')
    {
      var c := cands[i];
      assert cands[..i + 1][..i] == cands[..i];
      if c.key !in processed' {
        violations' := violations' + [c.violation];
        processed' := processed' + {c.key};
        kept' := kept' + [c];
        assert KeysOf(kept') == KeysOf(kept'[..|kept'| - 1]) + {c.key};
      }
      i := i + 1;
    }
    assert cands[..|cands|] == cands;
  }

  // ---- The full check ----

  /** The violations after the pattern, keyword, lemma and stemmed stages. */
  function KeywordStages(doc: seq<Token>, ms: seq<PatternMatch>, ix: Indices, stem: string -> string): seq<Candidate>
  {
    var words := Words(doc);
    var a1 := Accumulate([], PatternCandidates(ms));
    var a2 := Accumulate(a1, KeywordCandidates(words, ix.keywordMap, Keyword, 1.0, ":keyword:"));
    var a3 := Accumulate(a2, KeywordCandidates(Lemmas(doc), ix.keywordMap, LemmaKeyword, 0.95, ":lemma:"));
    Accumulate(a3, StemCandidates(Stems(stem, words), ix.stemmedKeywordMap))
  }

  /** `len(text_clean) >= 4`, where `text_clean` is the lowercased text with punctuation blanked. */
  predicate FuzzyTextLongEnough(text: string)
  {
    |PyText.Clean(PyText.Lower(text))| >= MinFuzzyTextLength
  }

  /** `len(text_clean.split()) >= 3`. */
  predicate SemanticTextLongEnough(text: string)
  {
    |PyText.Split(PyText.Clean(PyText.Lower(text)))| >= MinSemanticWords
  }

  /** All violations `full_check` collects, before sorting and truncation, with their keys. */
  function Collected(text: string, doc: seq<Token>, ms: seq<PatternMatch>, hits: seq<SemanticHit>, ix: Indices, stem: string -> string)
    : seq<Candidate>
    requires OrderCovers(ix)
  {
    var a4 := KeywordStages(doc, ms, ix, stem);
    var a5 := if |a4| == 0 && FuzzyTextLongEnough(text) then Accumulate(a4, FuzzyCandidates(Words(doc), ix)) else a4;
    if |a5| == 0 && SemanticTextLongEnough(text) then Accumulate(a5, SemanticCandidates(hits)) else a5
  }

  /** What `full_check` returns: the collected violations in descending confidence, cut to ten. */
  function FullCheckResult(text: string, doc: seq<Token>, ms: seq<PatternMatch>, hits: seq<SemanticHit>, ix: Indices,
                           stem: string -> string): seq<Violation>
    requires OrderCovers(ix)
  {
    Take(SortByConfidence(ViolationsOf(Collected(text, doc, ms, hits, ix, stem))), MaxViolations)
  }

  /** No two collected violations share a key. */
  lemma CollectedKeysDistinct(text: string, doc: seq<Token>, ms: seq<PatternMatch>, hits: seq<SemanticHit>, ix: Indices,
                              stem: string -> string)
    requires OrderCovers(ix)
    ensures DistinctKeys(Collected(text, doc, ms, hits, ix, stem))
  {
    var words := Words(doc);
    var a1 := Accumulate([], PatternCandidates(ms));
    AccumulateDistinct([], PatternCandidates(ms));
    var a2 := Accumulate(a1, KeywordCandidates(words, ix.keywordMap, Keyword, 1.0, ":keyword:"));
    AccumulateDistinct(a1, KeywordCandidates(words, ix.keywordMap, Keyword, 1.0, ":keyword:"));
    var a3 := Accumulate(a2, KeywordCandidates(Lemmas(doc), ix.keywordMap, LemmaKeyword, 0.95, ":lemma:"));
    AccumulateDistinct(a2, KeywordCandidates(Lemmas(doc), ix.keywordMap, LemmaKeyword, 0.95, ":lemma:"));
    var a4 := KeywordStages(doc, ms, ix, stem);
    AccumulateDistinct(a3, StemCandidates(Stems(stem, words), ix.stemmedKeywordMap));
    AccumulateDistinct(a4, FuzzyCandidates(words, ix));
    var a5 := if |a4| == 0 && FuzzyTextLongEnough(text) then Accumulate(a4, FuzzyCandidates(words, ix)) else a4;
    AccumulateDistinct(a5, SemanticCandidates(hits));
  }


  /** Confidences never increase along the list. */
  predicate ByConfidence(vs: seq<Violation>)
  {
    forall i, j | 0 <= i < j < |vs| :: vs[i].confidence >= vs[j].confidence
  }

  /** A list in confidence order stays in order behind an entry at least as confident as all of it. */
  lemma ConsByConfidence(h: Violation, rest: seq<Violation>)
    requires ByConfidence(rest)
    requires forall x | x in rest :: x.confidence <= h.confidence
    ensures ByConfidence([h] + rest)
  {
    forall i, j | 0 <= i < j < |[h] + rest| ensures ([h] + rest)[i].confidence >= ([h] + rest)[j].confidence {
      if i == 0 {
        assert ([h] + rest)[j] == rest[j - 1];
        assert rest[j - 1] in rest;
      } else {
        assert ([h] + rest)[i] == rest[i - 1] && ([h] + rest)[j] == rest[j - 1];
      }
    }
  }

  /**
   * One step of a stable sort by descending confidence: `v` goes before the
   * first entry whose confidence is not above its own.
   */
  function InsertByConfidence(v: Violation, sorted: seq<Violation>): (r: seq<Violation>)
    ensures |r| == |sorted| + 1
    ensures multiset(r) == multiset(sorted) + multiset{v}
    ensures forall x | x in r :: x == v || x in sorted
    decreases |sorted|
  {
    if sorted == [] || sorted[0].confidence <= v.confidence then [v] + sorted
    else
      assert sorted == [sorted[0]] + sorted[1..];
      assert forall x | x in sorted[1..] :: x in sorted;
      [sorted[0]] + InsertByConfidence(v, sorted[1..])
  }

  /** Inserting into a list in confidence order keeps it in confidence order. */
  lemma {:induction false} InsertByConfidenceSorted(v: Violation, sorted: seq<Violation>)
    requires ByConfidence(sorted)
    ensures ByConfidence(InsertByConfidence(v, sorted))
    decreases |sorted|
  {
    if sorted == [] || sorted[0].confidence <= v.confidence {
      forall x | x in sorted ensures x.confidence <= v.confidence {
        var j :| 0 <= j < |sorted| && sorted[j] == x;
      }
      ConsByConfidence(v, sorted);
    } else {
      var h := sorted[0];
      var rest := InsertByConfidence(v, sorted[1..]);
      assert ByConfidence(sorted[1..]) by {
        forall i, j | 0 <= i < j < |sorted[1..]| ensures sorted[1..][i].confidence >= sorted[1..][j].confidence {
          assert sorted[1..][i] == sorted[i + 1] && sorted[1..][j] == sorted[j + 1];
        }
      }
      InsertByConfidenceSorted(v, sorted[1..]);
      forall x | x in rest ensures x.confidence <= h.confidence {
        if x != v {
          var j :| 0 <= j < |sorted[1..]| && sorted[1..][j] == x;
          assert sorted[j + 1] == x;
        }
      }
      ConsByConfidence(h, rest);
    }
  }

  /** `sorted(violations, key=confidence, reverse=True)`: a stable sort by descending confidence. */
  function SortByConfidence(vs: seq<Violation>): (r: seq<Violation>)
    ensures |r| == |vs|
    ensures multiset(r) == multiset(vs)
    ensures ByConfidence(r)
  {
    if vs == [] then []
    else
      assert vs == [vs[0]] + vs[1..];
      InsertByConfidenceSorted(vs[0], SortByConfidence(vs[1..]));
      InsertByConfidence(vs[0], SortByConfidence(vs[1..]))
  }

  /** The sort is stable in the sense that a list already in confidence order comes back unchanged. */
  lemma {:induction false} SortKeepsOrderedList(vs: seq<Violation>)
    requires ByConfidence(vs)
    ensures SortByConfidence(vs) == vs
  {
    if vs != [] {
      assert ByConfidence(vs[1..]) by {
        forall i, j | 0 <= i < j < |vs[1..]| ensures vs[1..][i].confidence >= vs[1..][j].confidence {
          assert vs[1..][i] == vs[i + 1] && vs[1..][j] == vs[j + 1];
        }
      }
      SortKeepsOrderedList(vs[1..]);
      assert vs == [vs[0]] + vs[1..];
    }
  }

  /** Cutting a list in confidence order keeps it in order, and nothing after the cut is more confident than anything before it. */
  lemma PrefixMostConfident(s: seq<Violation>, k: nat)
    requires ByConfidence(s) && k <= |s|
    ensures ByConfidence(s[..k])
    ensures forall x, y | x in s[..k] && y in s[k..] :: y.confidence <= x.confidence
  {
    forall x, y | x in s[..k] && y in s[k..] ensures y.confidence <= x.confidence {
      var i :| 0 <= i < k && s[..k][i] == x;
      var j :| 0 <= j < |s| - k && s[k..][j] == y;
      assert s[i] == x && s[k + j] == y;
    }
    forall i, j | 0 <= i < j < k ensures s[..k][i].confidence >= s[..k][j].confidence {
      assert s[..k][i] == s[i] && s[..k][j] == s[j];
    }
  }

  /**
   * Sorting by confidence and keeping the first ten keeps the ten (or all,
   * if fewer) most confident violations: nothing left out is more confident
   * than anything kept, and nothing is invented.
   */
  lemma TopByConfidence(all: seq<Violation>)
    ensures var r := Take(SortByConfidence(all), MaxViolations);
      |r| == (if |all| <= MaxViolations then |all| else MaxViolations)
      && multiset(r) <= multiset(all) && ByConfidence(r)
      && forall x, y | x in r && y in multiset(all) - multiset(r) :: y.confidence <= x.confidence
  {
    var s := SortByConfidence(all);
    var r := Take(s, MaxViolations);
    var k := |r|;
    assert r == s[..k];
    assert s == r + s[k..];
    assert multiset(s) == multiset(r) + multiset(s[k..]);
    PrefixMostConfident(s, k);
    forall x, y | x in r && y in multiset(all) - multiset(r) ensures y.confidence <= x.confidence {
      assert y in multiset(s[k..]);
      assert y in s[k..];
    }
  }

  /**
   * No two collected violations share a key; the result holds the ten (or
   * all, if fewer) most confident collected violations, in descending confidence.
   */
  lemma FullCheckBounded(text: string, doc: seq<Token>, ms: seq<PatternMatch>, hits: seq<SemanticHit>, ix: Indices,
                         stem: string -> string)
    requires OrderCovers(ix)
    ensures DistinctKeys(Collected(text, doc, ms, hits, ix, stem))
    ensures var all := ViolationsOf(Collected(text, doc, ms, hits, ix, stem));
      var r := FullCheckResult(text, doc, ms, hits, ix, stem);
      |r| == (if |all| <= MaxViolations then |all| else MaxViolations)
      && multiset(r) <= multiset(all) && ByConfidence(r)
      && forall x, y | x in r && y in multiset(all) - multiset(r) :: y.confidence <= x.confidence
  {
    CollectedKeysDistinct(text, doc, ms, hits, ix, stem);
    TopByConfidence(ViolationsOf(Collected(text, doc, ms, hits, ix, stem)));
  }

  /** The first four stages yield only pattern, keyword, lemma and stemmed violations. */
  lemma KeywordStagesKinds(doc: seq<Token>, ms: seq<PatternMatch>, ix: Indices, stem: string -> string)
    ensures forall c | c in KeywordStages(doc, ms, ix, stem) :: c.violation.kind !in {FuzzyKeyword, Semantic}
  {
    var words := Words(doc);
    var a1 := Accumulate([], PatternCandidates(ms));
    AccumulateCorrect([], PatternCandidates(ms));
    var a2 := Accumulate(a1, KeywordCandidates(words, ix.keywordMap, Keyword, 1.0, ":keyword:"));
    AccumulateCorrect(a1, KeywordCandidates(words, ix.keywordMap, Keyword, 1.0, ":keyword:"));
    var a3 := Accumulate(a2, KeywordCandidates(Lemmas(doc), ix.keywordMap, LemmaKeyword, 0.95, ":lemma:"));
    AccumulateCorrect(a2, KeywordCandidates(Lemmas(doc), ix.keywordMap, LemmaKeyword, 0.95, ":lemma:"));
    AccumulateCorrect(a3, StemCandidates(Stems(stem, words), ix.stemmedKeywordMap));
  }

  /**
   * After the first four stages, the key of every non-empty pattern match,
   * of every keyword-map entry of every text word and lemma, and of every
   * stemmed-map entry of every stemmed word has been recorded: each hit is
   * reported, by its own violation or by an earlier one with the same key.
   */
  lemma KeywordStagesRecordHits(doc: seq<Token>, ms: seq<PatternMatch>, ix: Indices, stem: string -> string)
    ensures forall m | m in ms && m.text != [] :: PatternCandidate(m).key in KeysOf(KeywordStages(doc, ms, ix, stem))
    ensures forall w, e | w in Words(doc) && w in ix.keywordMap && e in ix.keywordMap[w] ::
      EntryCandidate(e, w, Keyword, 1.0, ":keyword:").key in KeysOf(KeywordStages(doc, ms, ix, stem))
    ensures forall w, e | w in Lemmas(doc) && w in ix.keywordMap && e in ix.keywordMap[w] ::
      EntryCandidate(e, w, LemmaKeyword, 0.95, ":lemma:").key in KeysOf(KeywordStages(doc, ms, ix, stem))
    ensures forall s, e | s in Stems(stem, Words(doc)) && s in ix.stemmedKeywordMap && e in ix.stemmedKeywordMap[s] ::
      StemCandidate(e, s).key in KeysOf(KeywordStages(doc, ms, ix, stem))
  {
    var words := Words(doc);
    var km := ix.keywordMap;
    var sm := ix.stemmedKeywordMap;
    var c1 := PatternCandidates(ms);
    var c2 := KeywordCandidates(words, km, Keyword, 1.0, ":keyword:");
    var c3 := KeywordCandidates(Lemmas(doc), km, LemmaKeyword, 0.95, ":lemma:");
    var c4 := StemCandidates(Stems(stem, words), sm);
    var a1 := Accumulate([], c1);
    var a2 := Accumulate(a1, c2);
    var a3 := Accumulate(a2, c3);
    AccumulateCorrect([], c1);
    AccumulateCorrect(a1, c2);
    AccumulateCorrect(a2, c3);
    AccumulateCorrect(a3, c4);
    assert KeysOf(KeywordStages(doc, ms, ix, stem)) == KeysOf(c1) + KeysOf(c2) + KeysOf(c3) + KeysOf(c4);
    forall w, e | w in words && w in km && e in km[w]
      ensures EntryCandidate(e, w, Keyword, 1.0, ":keyword:").key in KeysOf(c2)
    {
      KeywordCandidatesComplete(words, km, Keyword, 1.0, ":keyword:", w, e);
    }
    forall w, e | w in Lemmas(doc) && w in km && e in km[w]
      ensures EntryCandidate(e, w, LemmaKeyword, 0.95, ":lemma:").key in KeysOf(c3)
    {
      KeywordCandidatesComplete(Lemmas(doc), km, LemmaKeyword, 0.95, ":lemma:", w, e);
    }
    forall s, e | s in Stems(stem, words) && s in sm && e in sm[s]
      ensures StemCandidate(e, s).key in KeysOf(c4)
    {
      StemCandidatesComplete(Stems(stem, words), sm, s, e);
    }
  }

  /**
   * The fuzzy and semantic stages add nothing once an earlier stage found a
   * violation; the semantic stage adds nothing once the fuzzy stage did.
   */
  lemma FallbackStagesGated(text: string, doc: seq<Token>, ms: seq<PatternMatch>, hits: seq<SemanticHit>, ix: Indices,
                            stem: string -> string)
    requires OrderCovers(ix)
    ensures KeywordStages(doc, ms, ix, stem) != [] ==>
      forall c | c in Collected(text, doc, ms, hits, ix, stem) :: c.violation.kind !in {FuzzyKeyword, Semantic}
    ensures (exists c | c in Collected(text, doc, ms, hits, ix, stem) :: c.violation.kind == FuzzyKeyword) ==>
      forall c | c in Collected(text, doc, ms, hits, ix, stem) :: c.violation.kind != Semantic
  {
    var a4 := KeywordStages(doc, ms, ix, stem);
    KeywordStagesKinds(doc, ms, ix, stem);
    AccumulateCorrect(a4, FuzzyCandidates(Words(doc), ix));
    var a5 := if |a4| == 0 && FuzzyTextLongEnough(text) then Accumulate(a4, FuzzyCandidates(Words(doc), ix)) else a4;
    assert forall c | c in a5 :: c.violation.kind != Semantic;
    AccumulateCorrect(a5, SemanticCandidates(hits));
  }
}
