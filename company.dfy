/**
 * The firm-name normaliser `clean_company_name` of match_india.py:5-35: a missing value is
 * returned as it is; otherwise the name is stripped, fourteen legal-form suffix patterns
 * are deleted one after another (case-insensitively, each between word boundaries), ASCII
 * punctuation is deleted, whitespace runs become one space and the ends are stripped.
 *
 * A word character (`\w`) is modelled as an ASCII letter, digit or underscore; case-
 * insensitive comparison as ASCII lower-casing.
 */
module Company {

  import opened Wrappers
  import opened Text

  /** One alternative of a suffix pattern: a literal, optionally followed by `\.?`. */
  datatype Alternative = Alternative(word: string, optionalDot: bool)

  /** `\b(alt1|alt2|...)\b`: the alternatives in the order the regex tries them. */
  type SuffixPattern = seq<Alternative>

  /** The fourteen suffix patterns, in the order they are applied. */
  const Suffixes: seq<SuffixPattern> := [
    [Alternative("inc", true), Alternative("incorporated", false)],
    [Alternative("corp", true), Alternative("corporation", false)],
    [Alternative("co", true), Alternative("company", false)],
    [Alternative("ltd", true), Alternative("limited", false)],
    [Alternative("llc", false)],
    [Alternative("lp", false)],
    [Alternative("llp", false)],
    [Alternative("pllc", false)],
    [Alternative("pa", false)],
    [Alternative("pc", false)],
    [Alternative("dba", false)],
    [Alternative("and associates", false)],
    [Alternative("& associates", false)],
    [Alternative("associates", false)]
  ]

  /** A character of Python's `string.punctuation`: the ASCII symbols `!` to `/`, `:` to `@`, `[` to `` ` `` and `{` to `~`. */
  predicate IsPunctuation(c: char) {
    '!' <= c <= '/' || ':' <= c <= '@' || '[' <= c <= '`' || '{' <= c <= '~'
  }

  /** A character matched by `\w`. */
  predicate IsWordChar(c: char) {
    'a' <= c <= 'z' || 'A' <= c <= 'Z' || IsDigit(c) || c == '_'
  }

  /** Position `i` holds a word character (positions outside `s` do not). */
  predicate WordAt(s: string, i: int) {
    0 <= i < |s| && IsWordChar(s[i])
  }

  /** `\b` holds at position `i`: exactly one of its two neighbours is a word character. */
  predicate Boundary(s: string, i: int) {
    WordAt(s, i - 1) != WordAt(s, i)
  }

  /** `lit` occurs at `i` in `s`, ignoring the case of letters. */
  predicate OccursAtIgnoringCase(s: string, lit: string, i: int) {
    0 <= i && i + |lit| <= |s| && forall j :: 0 <= j < |lit| ==> LowerChar(s[i + j]) == LowerChar(lit[j])
  }

  /**
   * The length of the match of `alt` followed by `\b` at `i`: with the optional dot first,
   * then, backtracking, without it.
   */
  function AlternativeMatch(s: string, alt: Alternative, i: nat): (r: Option<nat>)
    ensures r.Some? ==> i + r.value <= |s| && Boundary(s, i + r.value)
    ensures r.Some? ==> r.value == |alt.word| || (alt.optionalDot && r.value == |alt.word| + 1)
    ensures r.Some? ==> OccursAtIgnoringCase(s, alt.word, i)
    ensures r.Some? && r.value > |alt.word| ==> s[i + |alt.word|] == '.'
    ensures r.None? ==> !(OccursAtIgnoringCase(s, alt.word, i) && Boundary(s, i + |alt.word|))
    ensures alt.optionalDot && OccursAtIgnoringCase(s, alt.word + ".", i) && Boundary(s, i + |alt.word| + 1) ==>
      r == Some(|alt.word| + 1)
  {
    if alt.optionalDot && OccursAtIgnoringCase(s, alt.word + ".", i) && Boundary(s, i + |alt.word| + 1) then
      assert forall j :: 0 <= j < |alt.word| ==> (alt.word + ".")[j] == alt.word[j];
      assert LowerChar(s[i + |alt.word|]) == LowerChar((alt.word + ".")[|alt.word|]);
      Some(|alt.word| + 1)
    else if OccursAtIgnoringCase(s, alt.word, i) && Boundary(s, i + |alt.word|) then Some(|alt.word|)
    else None
  }

  /** The match of the alternatives from `a` on at `i`: the first alternative that matches. */
  function AlternativesMatch(s: string, pattern: SuffixPattern, i: nat, a: nat): (r: Option<nat>)
    decreases |pattern| - a
    ensures r.Some? ==> i + r.value <= |s| && Boundary(s, i + r.value)
    ensures r.Some? ==>
      exists b :: a <= b < |pattern| && AlternativeMatch(s, pattern[b], i) == r &&
        forall b' :: a <= b' < b ==> AlternativeMatch(s, pattern[b'], i).None?
    ensures r.None? ==> forall b :: a <= b < |pattern| ==> AlternativeMatch(s, pattern[b], i).None?
  {
    if a >= |pattern| then None
    else match AlternativeMatch(s, pattern[a], i)
      case Some(n) => Some(n)
      case None => AlternativesMatch(s, pattern, i, a + 1)
  }

  /** The length of the match of the whole pattern `\b(...)\b` at `i`, if it matches there. */
  function MatchAt(s: string, pattern: SuffixPattern, i: nat): (r: Option<nat>)
    ensures r.Some? ==> Boundary(s, i) && Boundary(s, i + r.value) && i + r.value <= |s|
    ensures r.Some? ==>
      exists b :: 0 <= b < |pattern| && AlternativeMatch(s, pattern[b], i) == r &&
        forall b' :: 0 <= b' < b ==> AlternativeMatch(s, pattern[b'], i).None?
    ensures r.None? ==> !Boundary(s, i) || forall b :: 0 <= b < |pattern| ==> AlternativeMatch(s, pattern[b], i).None?
  {
    if Boundary(s, i) then AlternativesMatch(s, pattern, i, 0) else None
  }

  /**
   * `re.sub(pattern, '', s)` from position `i` on: a non-empty match is deleted and the scan
   * resumes after it; elsewhere the character is kept. Boundaries are judged on `s` itself.
   */
  function RemoveMatchesFrom(s: string, pattern: SuffixPattern, i: nat): (r: string)
    requires i <= |s|
    decreases |s| - i
    ensures |r| <= |s| - i
  {
    if i == |s| then ""
    else
      var m := MatchAt(s, pattern, i);
      if m.Some? && m.value > 0 then RemoveMatchesFrom(s, pattern, i + m.value)
      else [s[i]] + RemoveMatchesFrom(s, pattern, i + 1)
  }

  function RemoveMatches(s: string, pattern: SuffixPattern): string {
    RemoveMatchesFrom(s, pattern, 0)
  }

  /** The patterns applied one after another, the first one first. */
  function RemoveAll(s: string, patterns: seq<SuffixPattern>): string
    decreases |patterns|
  {
    if patterns == [] then s
    else RemoveMatches(RemoveAll(s, patterns[..|patterns| - 1]), patterns[|patterns| - 1])
  }

  /** `re.sub(f'[{re.escape(string.punctuation)}]', '', s)`. */
  function RemovePunctuation(s: string): string {
    if s == [] then [] else (if IsPunctuation(s[0]) then [] else [s[0]]) + RemovePunctuation(s[1..])
  }

  /** `clean_company_name` on a present value. */
  function CleanName(text: string): string {
    Strip(CollapseRuns(RemovePunctuation(RemoveAll(Strip(text), Suffixes)), Spaces))
  }

  /** `clean_company_name`: a missing value (`pd.isna`) is handed back unchanged. */
  function CompanyName(text: Option<string>): (r: Option<string>)
    ensures text.None? <==> r.None?
  {
    match text
    case None => None
    case Some(t) => Some(CleanName(t))
  }

  // ---- What a suffix removal deletes -------------------------------------------------

  /** Where nothing matches from `i` on, the scan keeps the rest of `s` as it is. */
  lemma {:induction false} RemoveNothingFrom(s: string, pattern: SuffixPattern, i: nat)
    requires i <= |s|
    requires forall j :: i <= j < |s| ==> MatchAt(s, pattern, j).None?
    decreases |s| - i
    ensures RemoveMatchesFrom(s, pattern, i) == s[i..]
  {
    if i < |s| {
      RemoveNothingFrom(s, pattern, i + 1);
      assert s[i..] == [s[i]] + s[i + 1..];
    }
  }

  /** A name in which no suffix pattern matches anywhere survives that pattern untouched. */
  lemma RemoveNothing(s: string, pattern: SuffixPattern)
    requires forall j :: 0 <= j < |s| ==> MatchAt(s, pattern, j).None?
    ensures RemoveMatches(s, pattern) == s
  {
    RemoveNothingFrom(s, pattern, 0);
  }

  /** Every character the scan keeps comes from `s`. */
  lemma {:induction false} RemoveKeepsCharactersFrom(s: string, pattern: SuffixPattern, i: nat, c: char)
    requires i <= |s| && c in RemoveMatchesFrom(s, pattern, i)
    decreases |s| - i
    ensures c in s
  {
    if i < |s| {
      var m := MatchAt(s, pattern, i);
      if m.Some? && m.value > 0 {
        RemoveKeepsCharactersFrom(s, pattern, i + m.value, c);
      } else if c != s[i] {
        var rest := RemoveMatchesFrom(s, pattern, i + 1);
        assert RemoveMatchesFrom(s, pattern, i) == [s[i]] + rest;
        assert c in rest;
        RemoveKeepsCharactersFrom(s, pattern, i + 1, c);
      }
    }
  }

  /** The suffix removals only delete characters: nothing new appears and nothing grows. */
  lemma {:induction false} RemoveAllKeepsCharacters(s: string, patterns: seq<SuffixPattern>, c: char)
    requires c in RemoveAll(s, patterns)
    decreases |patterns|
    ensures c in s && |RemoveAll(s, patterns)| <= |s|
  {
    if patterns != [] {
      var before := RemoveAll(s, patterns[..|patterns| - 1]);
      RemoveKeepsCharactersFrom(before, patterns[|patterns| - 1], 0, c);
      RemoveAllKeepsCharacters(s, patterns[..|patterns| - 1], c);
    }
  }

  lemma {:induction false} RemoveAllShorter(s: string, patterns: seq<SuffixPattern>)
    decreases |patterns|
    ensures |RemoveAll(s, patterns)| <= |s|
  {
    if patterns != [] {
      RemoveAllShorter(s, patterns[..|patterns| - 1]);
    }
  }

  // ---- Punctuation -------------------------------------------------------------------

  /** Punctuation removal deletes exactly the punctuation characters. */
  lemma {:induction false} RemovePunctuationIff(s: string, c: char)
    ensures c in RemovePunctuation(s) <==> c in s && !IsPunctuation(c)
    ensures |RemovePunctuation(s)| <= |s|
  {
    if s != [] {
      RemovePunctuationIff(s[1..], c);
      assert s == [s[0]] + s[1..];
    }
  }

  // ---- The cleaned name --------------------------------------------------------------

  /** Every character of the cleaned name other than a space is a non-punctuation input character. */
  lemma CleanNameCharacters(text: string, c: char)
    requires c != ' ' && c in CleanName(text)
    ensures c in text && !IsPunctuation(c)
  {
    var stripped := Strip(text);
    var kept := RemoveAll(stripped, Suffixes);
    var bare := RemovePunctuation(kept);
    var collapsed := CollapseRuns(bare, Spaces);
    StripKeepsCharacters(collapsed, c);
    CollapseShape(bare, Spaces);
    var k :| 0 <= k < |collapsed| && collapsed[k] == c;
    RemovePunctuationIff(kept, c);
    RemoveAllKeepsCharacters(stripped, Suffixes, c);
    StripKeepsCharacters(text, c);
  }

  /**
   * The cleaned name has single inner spaces and no edge whitespace, holds no punctuation,
   * only holds characters of the input, and is no longer than the stripped input.
   */
  lemma CleanNameShape(text: string)
    ensures Normalized(CleanName(text))
    ensures forall i :: 0 <= i < |CleanName(text)| ==> !IsPunctuation(CleanName(text)[i])
    ensures forall i :: 0 <= i < |CleanName(text)| && CleanName(text)[i] != ' ' ==> CleanName(text)[i] in text
    ensures |CleanName(text)| <= |Strip(text)|
  {
    var stripped := Strip(text);
    var kept := RemoveAll(stripped, Suffixes);
    var bare := RemovePunctuation(kept);
    var r := CleanName(text);
    CollapseStripNormalizes(bare);
    RemoveAllShorter(stripped, Suffixes);
    RemovePunctuationIff(kept, ' ');
    forall i | 0 <= i < |r| && r[i] != ' ' ensures !IsPunctuation(r[i]) && r[i] in text {
      CleanNameCharacters(text, r[i]);
    }
    assert |r| <= |CollapseRuns(bare, Spaces)| <= |bare|;
  }

  /** A present value gives a present, well-formed name; a missing one stays missing. */
  lemma CompanyNameShape(text: Option<string>)
    ensures CompanyName(text).Some? ==> Normalized(CompanyName(text).value)
    ensures CompanyName(text).Some? ==> forall c :: c in CompanyName(text).value ==> !IsPunctuation(c)
  {
    if text.Some? {
      CleanNameShape(text.value);
    }
  }

  // ---- The loop ----------------------------------------------------------------------

  /** `clean_company_name`, with its `for suffix in suffixes` loop. */
  method CleanCompanyName(text: Option<string>) returns (r: Option<string>)
    ensures r == CompanyName(text)
  {
    if text.None? {
      return text;
    }
    var t := Strip(text.value);
    ghost var stripped := t;
    for k := 0 to |Suffixes|
      invariant t == RemoveAll(stripped, Suffixes[..k])
    {
      assert Suffixes[..k + 1][..k] == Suffixes[..k];
      t := RemoveMatches(t, Suffixes[k]);
    }
    assert Suffixes[..|Suffixes|] == Suffixes;
    t := RemovePunctuation(t);
    t := CollapseRuns(t, Spaces);
    t := Strip(t);
    return Some(t);
  }
}
