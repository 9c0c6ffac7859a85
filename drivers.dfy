/**
 * The five driver scripts as configurations of the shared pipeline: each fixes the heading
 * keywords, whether the column detector skips "plan name"-style cells, whether row 0 is
 * skipped, whether titles are split off names (with which vocabulary) and which locator runs.
 */
module Drivers {

  import opened Document
  import opened Names
  import opened Pipeline
  import Text
  import AnchorScan

  /** The six plain heading keywords (def14Adebug.py:19-26, def14A.py:18-25). */
  const PlainKeywords: seq<string> := [
    "director compensation",
    "compensation of directors",
    "non-employee director compensation",
    "board compensation",
    "director remuneration",
    "compensation for directors"]

  /** The plain keywords and the two apostrophe forms (debug2.py:11-20, tableApproach.py:11-20). */
  const ApostropheKeywords: seq<string> := PlainKeywords + ["directors' compensation", "director's compensation"]

  /**
   * def14ARevised.py:8-23: the apostrophe forms twice over, then their `&#8217;` and `&rsquo;`
   * spellings, all compared literally with the lower-cased text.
   */
  const RevisedKeywords: seq<string> := ApostropheKeywords + [
    "directors' compensation",
    "director's compensation",
    "directors&#8217; compensation",
    "director&#8217;s compensation",
    "directors&rsquo; compensation",
    "director&rsquo;s compensation"]

  /** debug2.py: anchor scan, exclusions, every row read, titles split. */
  const Debug2 := Config(ApostropheKeywords, true, false, true, TitleWords, AnchorForward)

  /** def14ARevised.py: as debug2.py with the longer keyword list. */
  const Revised := Config(RevisedKeywords, true, false, true, TitleWords, AnchorForward)

  /** tableApproach.py: context-scored scan, exclusions, every row read, titles split. */
  const TableApproach := Config(ApostropheKeywords, true, false, true, TitleWords, ContextScored)

  /** def14Adebug.py: anchor scan, no exclusions, row 0 skipped, no title split. */
  const Def14ADebug := Config(PlainKeywords, false, true, false, [], AnchorForward)

  /** def14A.py: the same choices as def14Adebug.py. */
  const Def14A := Config(PlainKeywords, false, true, false, [], AnchorForward)

  /** No entry of the title vocabulary is empty, so each one is a real substring test. */
  lemma TitleWordsNonEmpty()
    ensures NonEmptyWords(TitleWords)
  {
    forall k | 0 <= k < |TitleWords| ensures TitleWords[k] != "" {
      assert |TitleWords[k]| >= 2;
    }
  }

  /**
   * The title-splitting drivers emit names longer than two characters, whitespace-normalised,
   * without `*`, `†` or `‡`, and holding no vocabulary word in lower case.
   */
  lemma SplittingDriversWellFormed(doc: Doc)
    ensures forall j :: 0 <= j < |DirectorNames(doc, Debug2)| ==> WellFormedName(DirectorNames(doc, Debug2)[j], true, TitleWords)
    ensures forall j :: 0 <= j < |DirectorNames(doc, Revised)| ==> WellFormedName(DirectorNames(doc, Revised)[j], true, TitleWords)
    ensures forall j :: 0 <= j < |DirectorNames(doc, TableApproach)| ==>
      WellFormedName(DirectorNames(doc, TableApproach)[j], true, TitleWords)
  {
    TitleWordsNonEmpty();
    DirectorNamesWellFormed(doc, Debug2);
    DirectorNamesWellFormed(doc, Revised);
    DirectorNamesWellFormed(doc, TableApproach);
  }

  /**
   * def14A.py and def14Adebug.py emit well-formed names, at most one per row after row 0 of
   * the located table, and row 0's content never changes them. The two scripts are modelled
   * by the same configuration (their four functions make the same choices), so the last
   * clause records that modelling claim rather than a separate proof.
   */
  lemma HeaderSkippingDrivers(doc: Doc, header: Row)
    ensures forall j :: 0 <= j < |DirectorNames(doc, Def14A)| ==> WellFormedName(DirectorNames(doc, Def14A)[j], false, [])
    ensures Located(doc, Def14A).Some? ==>
      var x := Located(doc, Def14A).value;
      x.table < |doc| && doc[x.table].TableTag? && doc[x.table].rows != [] ==>
        |DirectorNames(doc, Def14A)| <= |doc[x.table].rows| - 1 &&
        DirectorNames(doc, Def14A) ==
          ExtractedNames([header] + doc[x.table].rows[1..], x.column, true, false, [])
    ensures DirectorNames(doc, Def14ADebug) == DirectorNames(doc, Def14A)
  {
    DirectorNamesWellFormed(doc, Def14A);
    match Located(doc, Def14A)
    case None =>
    case Some(x) =>
      LocatedIsTable(doc, Def14A, x.table, x.column);
      if doc[x.table].rows != [] {
        HeaderRowIgnored(doc[x.table].rows, header, x.column, false, []);
      }
  }

  /**
   * Every heading that anchors the scan of debug2.py also anchors that of def14ARevised.py, and
   * every one of def14A.py anchors both: the keyword lists only grow.
   */
  lemma AnchorsGrowWithKeywords(n: Node)
    ensures AnchorScan.IsAnchor(n, PlainKeywords) ==> AnchorScan.IsAnchor(n, ApostropheKeywords)
    ensures AnchorScan.IsAnchor(n, ApostropheKeywords) ==> AnchorScan.IsAnchor(n, RevisedKeywords)
  {
    AnchorScan.IsAnchorIff(n, PlainKeywords);
    AnchorScan.IsAnchorIff(n, ApostropheKeywords);
    AnchorScan.IsAnchorIff(n, RevisedKeywords);
    if AnchorScan.IsAnchor(n, PlainKeywords) {
      var k :| 0 <= k < |PlainKeywords| && Text.Contains(AnchorScan.AnchorText(n), PlainKeywords[k]);
      assert ApostropheKeywords[k] == PlainKeywords[k];
    }
    if AnchorScan.IsAnchor(n, ApostropheKeywords) {
      var k :| 0 <= k < |ApostropheKeywords| && Text.Contains(AnchorScan.AnchorText(n), ApostropheKeywords[k]);
      assert RevisedKeywords[k] == ApostropheKeywords[k];
    }
  }
}
