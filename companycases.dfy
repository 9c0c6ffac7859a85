/**
 * Worked cases of `clean_company_name` (match_india.py:10-33), reduced to general lemmas
 * about positions at which no suffix pattern can match.
 */
module CompanyCases {

  import opened Wrappers
  import opened Text
  import opened Company

  /** Suffix word `w` cannot start at `j` of `t`: it does not fit, or one of its first two letters differs. */
  predicate CannotStart(t: string, j: nat, w: string) {
    |w| >= 2 && (j + 1 >= |t| || LowerChar(t[j]) != LowerChar(w[0]) || LowerChar(t[j + 1]) != LowerChar(w[1]))
  }

  lemma NoAlternativeAt(t: string, alt: Alternative, j: nat)
    requires CannotStart(t, j, alt.word)
    ensures AlternativeMatch(t, alt, j).None?
  {
    if j + |alt.word| <= |t| {
      assert LowerChar(t[j]) != LowerChar(alt.word[0]) || LowerChar(t[j + 1]) != LowerChar(alt.word[1]);
    }
  }

  /** A pattern none of whose words can start at `j` does not match there. */
  lemma NoMatchAt(t: string, p: SuffixPattern, j: nat)
    requires forall b :: 0 <= b < |p| ==> CannotStart(t, j, p[b].word)
    ensures MatchAt(t, p, j).None?
  {
    forall b | 0 <= b < |p| ensures AlternativeMatch(t, p[b], j).None? {
      NoAlternativeAt(t, p[b], j);
    }
  }

  /** Pattern `p` matches nowhere in `t`. */
  predicate Untouched(t: string, p: SuffixPattern) {
    forall j :: 0 <= j < |t| ==> MatchAt(t, p, j).None?
  }

  /** Where the pattern does not match, the scan keeps the character. */
  lemma KeepOne(s: string, p: SuffixPattern, j: nat)
    requires j < |s| && MatchAt(s, p, j).None?
    ensures RemoveMatchesFrom(s, p, j) == [s[j]] + RemoveMatchesFrom(s, p, j + 1)
  {
  }

  lemma SliceCons(s: string, i: nat, k: nat, after: string)
    requires i < k <= |s|
    ensures [s[i]] + (s[i + 1..k] + after) == s[i..k] + after
  {
    assert s[i..k] == [s[i]] + s[i + 1..k];
  }

  /**
   * A scan that meets no match from `i` to `k` and a match of length `n` at `k` keeps
   * `s[i..k]`, deletes the match and goes on after it.
   */
  lemma {:induction false} RemoveUpTo(s: string, p: SuffixPattern, i: nat, k: nat, n: nat)
    requires i <= k && k + n <= |s| && n > 0
    requires forall j :: i <= j < k ==> MatchAt(s, p, j).None?
    requires RemoveMatchesFrom(s, p, k) == RemoveMatchesFrom(s, p, k + n)
    decreases k - i
    ensures RemoveMatchesFrom(s, p, i) == s[i..k] + RemoveMatchesFrom(s, p, k + n)
  {
    if i < k {
      KeepOne(s, p, i);
      RemoveUpTo(s, p, i + 1, k, n);
      SliceCons(s, i, k, RemoveMatchesFrom(s, p, k + n));
    }
  }

  /** Applying one more pattern. */
  lemma RemoveAllStep(s: string, patterns: seq<SuffixPattern>, k: nat)
    requires k < |patterns|
    ensures RemoveAll(s, patterns[..k + 1]) == RemoveMatches(RemoveAll(s, patterns[..k]), patterns[k])
  {
    assert patterns[..k + 1][..k] == patterns[..k];
  }

  /** Patterns that match nowhere in the text reached so far leave it as it is. */
  lemma {:induction false} RemoveAllSkipping(s: string, patterns: seq<SuffixPattern>, lo: nat, hi: nat, t: string)
    requires lo <= hi <= |patterns| && RemoveAll(s, patterns[..lo]) == t
    requires forall q :: lo <= q < hi ==> Untouched(t, patterns[q])
    decreases hi - lo
    ensures RemoveAll(s, patterns[..hi]) == t
  {
    if lo < hi {
      RemoveAllStep(s, patterns, lo);
      RemoveNothing(t, patterns[lo]);
      RemoveAllSkipping(s, patterns, lo + 1, hi, t);
    }
  }

  /** Text without punctuation passes punctuation removal unchanged. */
  lemma {:induction false} NoPunctuationKept(s: string)
    requires forall i :: 0 <= i < |s| ==> !IsPunctuation(s[i])
    ensures RemovePunctuation(s) == s
  {
    if s != [] {
      NoPunctuationKept(s[1..]);
    }
  }

  /** Every suffix word has two letters or more, none starts with a space, and none with "ac". */
  lemma SuffixWordStarts()
    ensures forall q, b :: 0 <= q < |Suffixes| && 0 <= b < |Suffixes[q]| ==>
      |Suffixes[q][b].word| >= 2 && LowerChar(Suffixes[q][b].word[0]) != ' ' &&
      !(LowerChar(Suffixes[q][b].word[0]) == 'a' && LowerChar(Suffixes[q][b].word[1]) == 'c')
  {
  }

  /**
   * `\b(& associates)\b` can only match right after a word character: `&` is no word
   * character, so the boundary before it needs one on its left. After a space, as in
   * "Smith & Associates", it never matches; "Associates" is then removed by the last pattern
   * and the `&` by punctuation removal.
   */
  lemma AmpersandAssociatesNeedsWordBefore(t: string, j: nat)
    requires MatchAt(t, Suffixes[12], j).Some?
    ensures j > 0 && WordAt(t, j - 1) && t[j] == '&'
  {
    var b :| 0 <= b < |Suffixes[12]| && AlternativeMatch(t, Suffixes[12][b], j) == MatchAt(t, Suffixes[12], j);
    assert Suffixes[12][b].word == "& associates";
    assert LowerChar(t[j]) == LowerChar("& associates"[0]);
  }

  // ---- "Acme Corp" -------------------------------------------------------------------

  lemma AcmeCorpBoundaries()
    ensures forall j :: 0 <= j < 9 && Boundary("Acme Corp", j) ==> j == 0 || j == 4 || j == 5
  {
  }

  /** No pattern matches "Acme Corp" before the "Corp", and the first pattern matches nowhere in it. */
  lemma NothingBeforeCorp(q: nat, j: nat)
    requires q < |Suffixes| && (j < 5 || (q == 0 && j < 9))
    ensures MatchAt("Acme Corp", Suffixes[q], j).None?
  {
    AcmeCorpBoundaries();
    if Boundary("Acme Corp", j) {
      SuffixWordStarts();
      NoMatchAt("Acme Corp", Suffixes[q], j);
    }
  }

  lemma CorpMatched()
    ensures MatchAt("Acme Corp", Suffixes[1], 5) == Some(4)
  {
  }

  /** The second pattern cuts "Corp" off. */
  lemma CorpRemoved()
    ensures RemoveMatches("Acme Corp", Suffixes[1]) == "Acme "
  {
    forall j | 0 <= j < 5 ensures MatchAt("Acme Corp", Suffixes[1], j).None? {
      NothingBeforeCorp(1, j);
    }
    CorpMatched();
    RemoveUpTo("Acme Corp", Suffixes[1], 0, 5, 4);
  }

  lemma AcmeBoundaries()
    ensures forall j :: 0 <= j < 5 && Boundary("Acme ", j) ==> j == 0 || j == 4
  {
  }

  lemma NothingInAcme(q: nat, j: nat)
    requires q < |Suffixes| && j < 5
    ensures MatchAt("Acme ", Suffixes[q], j).None?
  {
    AcmeBoundaries();
    if Boundary("Acme ", j) {
      SuffixWordStarts();
      NoMatchAt("Acme ", Suffixes[q], j);
    }
  }

  /** No pattern matches "Acme " anywhere. */
  lemma AcmeUntouched(q: nat)
    requires q < |Suffixes|
    ensures Untouched("Acme ", Suffixes[q])
  {
    forall j | 0 <= j < 5 ensures MatchAt("Acme ", Suffixes[q], j).None? {
      NothingInAcme(q, j);
    }
  }

  /** The first pattern leaves "Acme Corp" as it is. */
  lemma IncUntouched()
    ensures Untouched("Acme Corp", Suffixes[0])
  {
    forall j | 0 <= j < 9 ensures MatchAt("Acme Corp", Suffixes[0], j).None? {
      NothingBeforeCorp(0, j);
    }
  }

  lemma IncApplied()
    ensures RemoveAll("Acme Corp", Suffixes[..1]) == "Acme Corp"
  {
    IncUntouched();
    assert Suffixes[..0] == [];
    RemoveAllSkipping("Acme Corp", Suffixes, 0, 1, "Acme Corp");
  }

  /** The first two patterns turn "Acme Corp" into "Acme ". */
  lemma IncAndCorpApplied()
    ensures RemoveAll("Acme Corp", Suffixes[..2]) == "Acme "
  {
    IncApplied();
    RemoveAllStep("Acme Corp", Suffixes, 1);
    CorpRemoved();
  }

  lemma AcmeCorpSuffixesRemoved()
    ensures RemoveAll("Acme Corp", Suffixes) == "Acme "
  {
    IncAndCorpApplied();
    forall q | 2 <= q < 14 ensures Untouched("Acme ", Suffixes[q]) {
      AcmeUntouched(q);
    }
    RemoveAllSkipping("Acme Corp", Suffixes, 2, 14, "Acme ");
    assert Suffixes[..14] == Suffixes;
  }

  lemma AcmeCorpStripped()
    ensures Strip("Acme Corp") == "Acme Corp"
  {
  }

  lemma AcmeFinish()
    ensures Strip(CollapseRuns(RemovePunctuation("Acme "), Spaces)) == "Acme"
  {
    NoPunctuationKept("Acme ");
    CollapseFixed("Acme ", Spaces);
    assert Strip("Acme ") == "Acme";
  }

  /** A legal-form suffix is deleted and the space before it stripped. */
  lemma AcmeCorp()
    ensures CompanyName(Some("Acme Corp")) == Some("Acme")
  {
    AcmeCorpStripped();
    AcmeCorpSuffixesRemoved();
    AcmeFinish();
  }
}
