/**
 * The Python `str` operations the rule engines use: `isspace`, `strip()`,
 * `split()` with no argument, `lower()` (on ASCII letters), and the regular
 * expression classes `\w` and `\s` used to clean punctuation out of text.
 */
module PyText {

  /** `str.isspace` for one character: the characters Python treats as whitespace. */
  predicate IsSpace(c: char)
  {
    c == ' ' || ('\t' <= c <= '\r') || ('\U{1C}' <= c <= '\U{1F}') || c == '\U{85}' || c == '\U{A0}'
    || c == '\U{1680}' || ('\U{2000}' <= c <= '\U{200A}') || c == '\U{2028}' || c == '\U{2029}'
    || c == '\U{202F}' || c == '\U{205F}' || c == '\U{3000}'
  }

  /** `not s.strip()`: the string is empty or all whitespace. */
  predicate Blank(s: string)
  {
    forall i | 0 <= i < |s| :: IsSpace(s[i])
  }

  function LowerChar(c: char): char
  {
    if 'A' <= c <= 'Z' then (c as int + 32) as char else c
  }

  /** `str.lower()`, with case mapping on ASCII letters. */
  function Lower(s: string): (r: string)
    ensures |r| == |s|
    ensures forall i | 0 <= i < |s| :: !('A' <= r[i] <= 'Z')
    ensures forall i | 0 <= i < |s| :: r[i] == s[i] || ('A' <= s[i] <= 'Z' && r[i] as int == s[i] as int + 32)
  {
    seq(|s|, i requires 0 <= i < |s| => LowerChar(s[i]))
  }

  /** Lowering leaves whitespace where it was, so it commutes with blankness. */
  lemma LowerKeepsSpaces(s: string)
    ensures forall i | 0 <= i < |s| :: IsSpace(Lower(s)[i]) <==> IsSpace(s[i])
    ensures Blank(Lower(s)) <==> Blank(s)
  {
  }

  lemma LowerIdempotent(s: string)
    ensures Lower(Lower(s)) == Lower(s)
  {
  }

  /** The number of whitespace characters `lstrip()` removes. */
  function LeadingSpaces(s: string): (n: nat)
    ensures n <= |s|
    ensures Blank(s[..n])
    ensures n < |s| ==> !IsSpace(s[n])
    decreases |s|
  {
    if s != [] && IsSpace(s[0]) then
      var m := LeadingSpaces(s[1..]);
      assert forall k | 1 <= k < 1 + m :: s[k] == s[1..][..m][k - 1];
      1 + m
    else 0
  }

  /** The length `rstrip()` keeps. */
  function ContentEnd(s: string): (n: nat)
    ensures n <= |s|
    ensures Blank(s[n..])
    ensures n > 0 ==> !IsSpace(s[n - 1])
    decreases |s|
  {
    if s != [] && IsSpace(s[|s| - 1]) then
      var m := ContentEnd(s[..|s| - 1]);
      assert forall k | m <= k < |s| - 1 :: s[k] == s[..|s| - 1][m..][k - m];
      m
    else |s|
  }

  /** `r` is the slice `s[i..j]` and everything outside it is whitespace. */
  predicate TrimmedSlice(s: string, r: string, i: int, j: int)
  {
    0 <= i <= j <= |s| && r == s[i..j] && Blank(s[..i]) && Blank(s[j..])
  }

  /**
   * `str.strip()`: the longest middle slice with no whitespace at either end;
   * everything cut off is whitespace.
   */
  function Strip(s: string): (r: string)
    ensures exists i, j :: TrimmedSlice(s, r, i, j)
    ensures r != [] ==> !IsSpace(r[0]) && !IsSpace(r[|r| - 1])
  {
    var i := LeadingSpaces(s);
    var n := ContentEnd(s[i..]);
    assert s[i..][n..] == s[i + n..];
    assert TrimmedSlice(s, s[i..i + n], i, i + n);
    s[i..i + n]
  }

  /** Stripping yields the empty string exactly for blank input. */
  lemma StripEmptyIffBlank(s: string)
    ensures Strip(s) == [] <==> Blank(s)
  {
    var i := LeadingSpaces(s);
    var n := ContentEnd(s[i..]);
    if Strip(s) == [] {
      assert n == 0 && s[i..][0..] == s[i..];
      assert s == s[..i] + s[i..];
    }
  }

  /** The length of the leading run of non-whitespace characters. */
  function WordLength(s: string): (n: nat)
    ensures 0 < n <= |s| || (n == 0 && (s == [] || IsSpace(s[0])))
    ensures forall i | 0 <= i < n :: !IsSpace(s[i])
    ensures n < |s| ==> IsSpace(s[n])
    decreases |s|
  {
    if s == [] || IsSpace(s[0]) then 0 else 1 + WordLength(s[1..])
  }

  /** A word of `split()`: non-empty, with no whitespace in it. */
  predicate IsWord(w: string)
  {
    w != [] && forall i | 0 <= i < |w| :: !IsSpace(w[i])
  }

  /** `gaps` can separate `words`: one gap more than words, all blank, and those between two words non-empty. */
  predicate Separates(gaps: seq<string>, words: seq<string>)
  {
    |gaps| == |words| + 1
    && (forall k | 0 <= k < |gaps| :: Blank(gaps[k]))
    && (forall k | 0 < k < |words| :: gaps[k] != [])
  }

  /** `gaps[0] + words[0] + gaps[1] + ... + words[n-1] + gaps[n]`. */
  function Interleave(gaps: seq<string>, words: seq<string>): string
    requires |gaps| == |words| + 1
    decreases words
  {
    if words == [] then gaps[0] else gaps[0] + words[0] + Interleave(gaps[1..], words[1..])
  }

  /**
   * `str.split()` with no separator: the text is its words with blank gaps
   * around and between them, so the words are its maximal runs of
   * non-whitespace, in order (`SplitInterleave` shows they are the only such words).
   */
  function Split(s: string): (words: seq<string>)
    ensures forall w | w in words :: IsWord(w)
    ensures exists gaps :: Separates(gaps, words) && Interleave(gaps, words) == s
    decreases |s|
  {
    var i := LeadingSpaces(s);
    if i == |s| then
      assert s[..|s|] == s;
      assert Separates([s], []) && Interleave([s], []) == s;
      []
    else
      var t := s[i..];
      var n := WordLength(t);
      var rest := Split(t[n..]);
      SplitStep(s, i, n, rest);
      [t[..n]] + rest
  }

  /** A text whose first `n` characters are its leading run of non-whitespace: that run is a word, and what follows is empty or starts with whitespace. */
  lemma FirstWord(t: string, n: nat)
    requires 1 <= n <= |t|
    requires forall k | 0 <= k < n :: !IsSpace(t[k])
    requires n < |t| ==> IsSpace(t[n])
    ensures IsWord(t[..n]) && t == t[..n] + t[n..] && (t[n..] == [] || IsSpace(t[n..][0]))
  {
    assert forall k | 0 <= k < n :: t[..n][k] == t[k];
  }

  /** Leading whitespace, a first word and the separated words of the rest make a separated text. */
  lemma SplitStep(s: string, i: nat, n: nat, rest: seq<string>)
    requires i < |s| && Blank(s[..i])
    requires 1 <= n <= |s[i..]| && (forall k | 0 <= k < n :: !IsSpace(s[i..][k])) && (n < |s[i..]| ==> IsSpace(s[i..][n]))
    requires forall x | x in rest :: IsWord(x)
    requires exists gaps :: Separates(gaps, rest) && Interleave(gaps, rest) == s[i..][n..]
    ensures forall x | x in [s[i..][..n]] + rest :: IsWord(x)
    ensures exists gaps :: Separates(gaps, [s[i..][..n]] + rest) && Interleave(gaps, [s[i..][..n]] + rest) == s
  {
    var t := s[i..];
    FirstWord(t, n);
    assert s == s[..i] + t;
    ConsWordSeparated(s[..i], t[..n], t[n..], rest);
  }

  /** A blank gap and a word put in front of words separated into a text keep them separated. */
  lemma ConsWordSeparated(g: string, w: string, r: string, words: seq<string>)
    requires Blank(g) && IsWord(w) && (r == [] || IsSpace(r[0]))
    requires exists gaps :: Separates(gaps, words) && Interleave(gaps, words) == r
    requires forall x | x in words :: IsWord(x)
    ensures exists gaps :: Separates(gaps, [w] + words) && Interleave(gaps, [w] + words) == g + w + r
  {
    var gaps :| Separates(gaps, words) && Interleave(gaps, words) == r;
    ConsWord(g, w, r, gaps, words);
  }

  /** A blank gap and a word put in front of a separated text keep it separated. */
  lemma ConsWord(g: string, w: string, r: string, gaps: seq<string>, words: seq<string>)
    requires Blank(g) && IsWord(w) && (r == [] || IsSpace(r[0]))
    requires Separates(gaps, words) && Interleave(gaps, words) == r
    requires forall x | x in words :: IsWord(x)
    ensures Separates([g] + gaps, [w] + words) && Interleave([g] + gaps, [w] + words) == g + w + r
  {
    var gs, ws := [g] + gaps, [w] + words;
    assert gs[1..] == gaps && ws[1..] == words;
    if words != [] {
      assert words[0] in words;
      assert r == gaps[0] + words[0] + Interleave(gaps[1..], words[1..]);
      assert r[|gaps[0]|] == words[0][0];
    }
    assert forall k | 1 < k < |ws| :: gs[k] == gaps[k - 1];
  }

  /** Blank text followed by text that does not start with whitespace: `lstrip()` removes exactly the blank part. */
  lemma LeadingSpacesOfBlank(g: string, t: string)
    requires Blank(g) && (t == [] || !IsSpace(t[0]))
    ensures LeadingSpaces(g + t) == |g|
  {
    var s := g + t;
    assert forall k | 0 <= k < |g| :: IsSpace(s[k]);
    assert |g| < |s| ==> !IsSpace(s[|g|]);
  }

  /** A word followed by nothing or by whitespace: its run of non-whitespace is exactly the word. */
  lemma WordLengthOfWord(w: string, r: string)
    requires forall i | 0 <= i < |w| :: !IsSpace(w[i])
    requires r == [] || IsSpace(r[0])
    ensures WordLength(w + r) == |w|
  {
    var t := w + r;
    assert forall k | 0 <= k < |w| :: !IsSpace(t[k]);
    assert |w| < |t| ==> IsSpace(t[|w|]);
  }

  /** Dropping the first gap and word keeps the rest separated, and what follows the first word starts with whitespace or is empty. */
  lemma SeparatesTail(gaps: seq<string>, words: seq<string>)
    requires Separates(gaps, words) && words != []
    requires forall w | w in words :: IsWord(w)
    ensures Separates(gaps[1..], words[1..])
    ensures var r := Interleave(gaps[1..], words[1..]); r == [] || IsSpace(r[0])
  {
    var r := Interleave(gaps[1..], words[1..]);
    if words[1..] != [] {
      assert r == gaps[1] + words[1..][0] + Interleave(gaps[1..][1..], words[1..][1..]);
      assert r[0] == gaps[1][0];
    }
    forall k | 0 < k < |words[1..]| ensures gaps[1..][k] != [] {
      assert gaps[1..][k] == gaps[k + 1];
    }
  }

  /** Splitting words separated by blank gaps gives back exactly those words. */
  lemma {:induction false} SplitInterleave(gaps: seq<string>, words: seq<string>)
    requires Separates(gaps, words)
    requires forall w | w in words :: IsWord(w)
    ensures Split(Interleave(gaps, words)) == words
    decreases words
  {
    var s := Interleave(gaps, words);
    if words == [] {
      LeadingSpacesOfBlank(s, []);
      assert s + [] == s;
    } else {
      var g0, w0 := gaps[0], words[0];
      var r := Interleave(gaps[1..], words[1..]);
      assert s == g0 + (w0 + r);
      assert w0 in words;
      LeadingSpacesOfBlank(g0, w0 + r);
      assert s[|g0|..] == w0 + r;
      SeparatesTail(gaps, words);
      WordLengthOfWord(w0, r);
      assert (w0 + r)[..|w0|] == w0 && (w0 + r)[|w0|..] == r;
      assert forall w | w in words[1..] :: w in words;
      SplitInterleave(gaps[1..], words[1..]);
      assert words == [w0] + words[1..];
    }
  }

  /** Splitting yields no words exactly for blank input. */
  lemma SplitEmptyIffBlank(s: string)
    ensures Split(s) == [] <==> Blank(s)
  {
    var i := LeadingSpaces(s);
    if i == |s| {
      assert s[..|s|] == s;
    } else {
      assert IsSpace(s[i]) == false;
    }
  }

  /** The regular-expression class `\w` on ASCII; other characters are counted as word characters. */
  predicate IsWordChar(c: char)
  {
    ('a' <= c <= 'z') || ('A' <= c <= 'Z') || ('0' <= c <= '9') || c == '_' || c > '\U{7F}'
  }

  /** `re.sub(r'[^\w\s]', ' ', s)`: every character that is neither a word character nor whitespace becomes a space. */
  function Clean(s: string): (r: string)
    ensures |r| == |s|
    ensures forall i | 0 <= i < |s| :: r[i] == s[i] || (r[i] == ' ' && !IsWordChar(s[i]) && !IsSpace(s[i]))
    ensures forall i | 0 <= i < |s| :: IsWordChar(s[i]) || IsSpace(s[i]) ==> r[i] == s[i]
    ensures forall i | 0 <= i < |s| :: !IsWordChar(s[i]) && !IsSpace(s[i]) ==> r[i] == ' '
  {
    seq(|s|, i requires 0 <= i < |s| => if IsWordChar(s[i]) || IsSpace(s[i]) then s[i] else ' ')
  }
}
