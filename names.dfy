/**
 * The name extractor `extract_names_from_table`: the cells of the name column are cleaned,
 * filtered, stripped of footnote markers and HTML entities and, in the title-splitting
 * variant (debug2.py:156-229, def14ARevised.py:120-190, tableApproach.py:152-215), cut before
 * the first job-title word; the variant without title splitting (def14Adebug.py:135-177,
 * def14A.py:80-105) skips row 0 instead.
 */
module Names {

  import opened Wrappers
  import opened Text
  import opened Document

  /** `title_keywords`: the vocabulary a name is cut at. */
  const TitleWords: seq<string> := [
    "chief", "president", "ceo", "cfo", "coo", "executive",
    "chairman", "chair", "vice", "secretary", "treasurer",
    "officer", "controller", "manager", "lead", "head",
    "senior", "junior", "assistant", "emeritus",
    "independent", "non-employee", "employee",
    "audit", "compensation", "governance", "nominating",
    "committee", "retired", "former", "founder", "current", "and", "all"]

  /** Lower-cased cell texts starting with one of these are not names. */
  const RejectedPrefixes: seq<string> := [
    "total", "$", "—", "none", "fees", "stock", "award", "option", "incentive", "all other", "name"]

  // ---------------------------------------------------------------------------------------
  // The first filter
  // ---------------------------------------------------------------------------------------

  /** A character of the class `[\d,\$\.\s\-—]`. */
  predicate FigureChar(c: char) {
    IsDigit(c) || c == ',' || c == '$' || c == '.' || IsSpace(c) || c == '-' || c == '—'
  }

  /** `re.match(r'^[\d,\$\.\s\-—]+$', s)`: `s` is a non-empty run of figure characters. */
  predicate IsFigure(s: string) {
    s != [] && forall i :: 0 <= i < |s| ==> FigureChar(s[i])
  }

  /** The lower-cased text starts with one of the rejected prefixes. */
  predicate HasRejectedPrefix(lower: string) {
    exists p :: 0 <= p < |RejectedPrefixes| && StartsWith(lower, RejectedPrefixes[p])
  }

  /**
   * The first test on a cleaned cell: longer than two characters, no rejected prefix,
   * not a figure, not a dash.
   */
  predicate Plausible(name: string) {
    name != "" && |name| > 2 && !HasRejectedPrefix(Lower(name)) && !IsFigure(name) &&
    name != "—" && name != "&#8212;"
  }

  // ---------------------------------------------------------------------------------------
  // Marker and entity removal
  // ---------------------------------------------------------------------------------------

  /** The two patterns removed from a name, in this order. */
  datatype Pattern =
    | FootnoteMarker  // `\(\d+\)|\*+|†+|‡+|\[\d+\]|<sup>.*?</sup>`
    | HtmlEntity      // `&#\d+;`

  /** One past the run of digits starting at `i`. */
  function DigitsEnd(s: string, i: nat): (r: nat)
    requires i <= |s|
    decreases |s| - i
    ensures i <= r <= |s|
  {
    if i < |s| && IsDigit(s[i]) then DigitsEnd(s, i + 1) else i
  }

  /** One past the run of copies of `c` starting at `i`. */
  function RunEnd(s: string, i: nat, c: char): (r: nat)
    requires i <= |s|
    decreases |s| - i
    ensures i <= r <= |s|
  {
    if i < |s| && s[i] == c then RunEnd(s, i + 1, c) else i
  }

  /**
   * The lazy `.*?</sup>` from offset `k`: one past the first `</sup>` at or after `k`, or
   * None when a line break or the end of the text comes first.
   */
  function SupClose(s: string, k: nat): (r: Option<nat>)
    requires k <= |s|
    decreases |s| - k
    ensures r.Some? ==> k + 6 <= r.value <= |s|
  {
    if OccursAt(s, "</sup>", k) then Some(k + 6)
    else if k == |s| || s[k] == '\n' then None
    else SupClose(s, k + 1)
  }

  /** `open`, one or more digits and `close` at offset `i`: one past the match. */
  function BracketedDigits(s: string, i: nat, open: char, close: char): (r: Option<nat>)
    requires i < |s|
    ensures r.Some? ==> i < r.value <= |s|
  {
    if s[i] != open then None
    else
      var j := DigitsEnd(s, i + 1);
      if i + 1 < j < |s| && s[j] == close then Some(j + 1) else None
  }

  /** Where a match of `p` starting at offset `i` ends, or None when `p` does not match there. */
  function MatchEnd(p: Pattern, s: string, i: nat): (r: Option<nat>)
    requires i < |s|
    ensures r.Some? ==> i < r.value <= |s|
  {
    match p
    case FootnoteMarker =>
      if s[i] == '(' then BracketedDigits(s, i, '(', ')')
      else if s[i] == '*' || s[i] == '†' || s[i] == '‡' then Some(RunEnd(s, i, s[i]))
      else if s[i] == '[' then BracketedDigits(s, i, '[', ']')
      else if OccursAt(s, "<sup>", i) then SupClose(s, i + 5)
      else None
    case HtmlEntity =>
      if s[i] == '&' && i + 1 < |s| && s[i + 1] == '#' then
        var j := DigitsEnd(s, i + 2);
        if i + 2 < j < |s| && s[j] == ';' then Some(j + 1) else None
      else None
  }

  /** `re.sub(p, '', s[i..])`: every match, scanning left to right, deleted. */
  function RemoveFrom(p: Pattern, s: string, i: nat): (r: string)
    requires i <= |s|
    decreases |s| - i
    ensures |r| <= |s| - i
  {
    if i == |s| then ""
    else match MatchEnd(p, s, i)
      case Some(j) => RemoveFrom(p, s, j)
      case None => [s[i]] + RemoveFrom(p, s, i + 1)
  }

  /** `re.sub(p, '', s)`. */
  function Remove(p: Pattern, s: string): string {
    RemoveFrom(p, s, 0)
  }

  /** Removal only deletes: every character left was in the text. */
  lemma {:induction false} RemoveKeepsCharacters(p: Pattern, s: string, i: nat, c: char)
    requires i <= |s| && c in RemoveFrom(p, s, i)
    decreases |s| - i
    ensures c in s
  {
    var m := MatchEnd(p, s, i);
    if m.Some? {
      RemoveKeepsCharacters(p, s, m.value, c);
    } else if c != s[i] {
      assert c in RemoveFrom(p, s, i + 1);
      RemoveKeepsCharacters(p, s, i + 1, c);
    }
  }

  /** A character that footnote removal always deletes. */
  predicate FootnoteChar(c: char) {
    c == '*' || c == '†' || c == '‡'
  }

  /** After footnote removal no `*`, `†` or `‡` is left. */
  lemma {:induction false} RemoveFootnotesClears(s: string, i: nat, c: char)
    requires i <= |s| && FootnoteChar(c)
    decreases |s| - i
    ensures c !in RemoveFrom(FootnoteMarker, s, i)
  {
    if i < |s| {
      var m := MatchEnd(FootnoteMarker, s, i);
      if m.Some? {
        RemoveFootnotesClears(s, m.value, c);
      } else {
        RemoveFootnotesClears(s, i + 1, c);
      }
    }
  }

  /**
   * The second cleaning: footnote markers, then HTML entities removed, then `clean_text`
   * again.
   */
  function Scrub(name: string): string {
    CleanText(Remove(HtmlEntity, Remove(FootnoteMarker, name)))
  }

  /** A scrubbed name is normalised and holds no `*`, `†` or `‡`. */
  lemma ScrubShape(name: string)
    ensures Normalized(Scrub(name))
    ensures forall c :: FootnoteChar(c) ==> c !in Scrub(name)
  {
    CleanTextNormalized(Remove(HtmlEntity, Remove(FootnoteMarker, name)));
    forall c | FootnoteChar(c) ensures c !in Scrub(name) {
      RemoveFootnotesClears(name, 0, c);
      if c in Scrub(name) {
        CleanTextKeepsCharacters(Remove(HtmlEntity, Remove(FootnoteMarker, name)), c);
        RemoveKeepsCharacters(HtmlEntity, Remove(FootnoteMarker, name), 0, c);
      }
    }
  }

  // ---------------------------------------------------------------------------------------
  // Title splitting
  // ---------------------------------------------------------------------------------------

  /**
   * The loop over the vocabulary from entry `k` on, with `pos` the current `earliest_pos`
   * and `matched` the entry that set it (`matched_keyword`): an entry found strictly before
   * `pos` replaces both.
   */
  function EarliestFrom(lower: string, words: seq<string>, k: nat, pos: nat, matched: Option<nat>): (r: (nat, Option<nat>))
    requires k <= |words|
    decreases |words| - k
    ensures r.0 <= pos
  {
    if k == |words| then (pos, matched)
    else
      var p := Find(lower, words[k]);
      if 0 <= p < pos then EarliestFrom(lower, words, k + 1, p, Some(k))
      else EarliestFrom(lower, words, k + 1, pos, matched)
  }

  /** `earliest_pos` and `matched_keyword` after the whole vocabulary, starting from `len(name)`. */
  function Earliest(lower: string, words: seq<string>): (nat, Option<nat>) {
    EarliestFrom(lower, words, 0, |lower|, None)
  }

  /** Entry `k` of `words` does not occur in `lower` before offset `pos`. */
  predicate NotBefore(lower: string, words: seq<string>, k: int, pos: int) {
    0 <= k < |words| ==> Find(lower, words[k]) == -1 || Find(lower, words[k]) >= pos
  }

  /** The state the vocabulary loop keeps after `k` entries. */
  predicate EarliestState(lower: string, words: seq<string>, k: nat, pos: nat, matched: Option<nat>) {
    pos <= |lower| && (forall k' :: 0 <= k' < k ==> NotBefore(lower, words, k', pos)) &&
    match matched
    case None => pos == |lower|
    case Some(m) =>
      m < k && m < |words| && Find(lower, words[m]) == pos &&
      forall k' :: 0 <= k' < m ==> Find(lower, words[k']) != pos
  }

  lemma {:induction false} EarliestFromState(lower: string, words: seq<string>, k: nat, pos: nat, matched: Option<nat>)
    requires k <= |words| && EarliestState(lower, words, k, pos, matched)
    decreases |words| - k
    ensures var r := EarliestFrom(lower, words, k, pos, matched); EarliestState(lower, words, |words|, r.0, r.1)
  {
    if k < |words| {
      var p := Find(lower, words[k]);
      FindFromSpec(lower, words[k], 0);
      if 0 <= p < pos {
        forall k' | 0 <= k' < k ensures NotBefore(lower, words, k', p) && Find(lower, words[k']) != p {
          assert NotBefore(lower, words, k', pos);
        }
        assert NotBefore(lower, words, k, p);
        EarliestFromState(lower, words, k + 1, p, Some(k));
      } else {
        assert NotBefore(lower, words, k, pos);
        EarliestFromState(lower, words, k + 1, pos, matched);
      }
    }
  }

  /**
   * `earliest_pos` is at most the length; no vocabulary entry is found before it; when an
   * entry set it, `matched_keyword` is the first entry found exactly there (the strict `<`
   * keeps the earlier entry on a tie); otherwise no entry is found before the end.
   */
  lemma EarliestSpec(lower: string, words: seq<string>)
    ensures var r := Earliest(lower, words);
      r.0 <= |lower| &&
      (forall k :: 0 <= k < |words| ==> Find(lower, words[k]) == -1 || Find(lower, words[k]) >= r.0) &&
      (r.1.Some? ==> (r.1.value < |words| && Find(lower, words[r.1.value]) == r.0 &&
        forall k :: 0 <= k < r.1.value ==> Find(lower, words[k]) != r.0)) &&
      (r.1.None? ==> r.0 == |lower|)
  {
    EarliestFromState(lower, words, 0, |lower|, None);
    var r := Earliest(lower, words);
    forall k | 0 <= k < |words| ensures Find(lower, words[k]) == -1 || Find(lower, words[k]) >= r.0 {
      assert NotBefore(lower, words, k, r.0);
    }
  }

  /** No non-empty vocabulary entry occurs inside `lower[a..b]` when `b` is at most `earliest_pos`. */
  lemma NoWordBefore(lower: string, words: seq<string>, a: nat, b: nat, k: nat)
    requires a <= b <= Earliest(lower, words).0 && k < |words| && words[k] != ""
    ensures !Contains(lower[a..b], words[k])
  {
    EarliestSpec(lower, words);
    var w := words[k];
    if Contains(lower[a..b], w) {
      ContainsIff(lower[a..b], w);
      var q :| OccursAt(lower[a..b], w, q);
      assert OccursAt(lower, w, a + q) by {
        forall j | 0 <= j < |w| ensures lower[a + q + j] == w[j] {
          assert lower[a..b][q + j] == w[j];
        }
      }
      FindFromSpec(lower, w, 0);
    }
  }

  /** A character of the class `[,\-—()\s]`. */
  predicate TrailingPunct(c: char) {
    c == ',' || c == '-' || c == '—' || c == '(' || c == ')' || IsSpace(c)
  }

  /** `re.sub(r'[,\-—()\s]+$', '', s)`: the trailing run of those characters removed. */
  function DropTrailingPunct(s: string): (r: string)
    ensures |r| <= |s| && r == s[..|r|]
    ensures forall i :: |r| <= i < |s| ==> TrailingPunct(s[i])
    ensures r != [] ==> !TrailingPunct(r[|r| - 1])
  {
    if s != [] && TrailingPunct(s[|s| - 1]) then DropTrailingPunct(s[..|s| - 1]) else s
  }

  /** The part before `earliest_pos`, stripped, trailing punctuation dropped, stripped again. */
  function Cut(name: string, pos: nat): string
    requires pos <= |name|
  {
    Strip(DropTrailingPunct(Strip(name[..pos])))
  }

  /**
   * The title branch for a name containing a vocabulary word: the cut before the earliest
   * one, kept when it is longer than two characters and not a figure; nothing when the
   * earliest word is at offset 0.
   */
  function TitleSplit(name: string, words: seq<string>): Option<string> {
    var pos := Earliest(Lower(name), words).0;
    if pos > 0 then
      var cut := Cut(name, pos);
      if cut != "" && |cut| > 2 && !IsFigure(cut) then Some(cut) else None
    else None
  }

  /**
   * The title branch: a title word at offset 0 leaves nothing ("title only"); otherwise a
   * name is kept only when it is a slice of the name before the earliest title word, longer
   * than two characters, not a figure ("invalid after cleaning" otherwise) and not ending in
   * `,`, `-`, `—`, `(`, `)` or whitespace. For a normalised name (as every scrubbed name is)
   * the kept name is the prefix before the earliest title word with exactly its trailing run
   * of those characters removed; and a cut that passes both tests is always kept.
   */
  lemma TitleSplitSpec(name: string, words: seq<string>)
    ensures var pos := Earliest(Lower(name), words).0;
      pos <= |name| && (pos == 0 ==> TitleSplit(name, words).None?)
    ensures var pos := Earliest(Lower(name), words).0; var r := TitleSplit(name, words);
      r.Some? ==> (|r.value| > 2 && !IsFigure(r.value) && !TrailingPunct(r.value[|r.value| - 1]) &&
        exists a, b :: 0 <= a <= b <= pos && r.value == name[a..b])
    ensures var pos := Earliest(Lower(name), words).0; var r := TitleSplit(name, words);
      Normalized(name) && r.Some? ==>
        |r.value| <= pos && r.value == name[..|r.value|] &&
        forall i :: |r.value| <= i < pos ==> TrailingPunct(name[i])
    ensures var pos := Earliest(Lower(name), words).0;
      0 < pos <= |name| && |Cut(name, pos)| > 2 && !IsFigure(Cut(name, pos)) ==>
        TitleSplit(name, words) == Some(Cut(name, pos))
  {
    var lower := Lower(name);
    EarliestSpec(lower, words);
    var pos := Earliest(lower, words).0;
    if pos > 0 && TitleSplit(name, words).Some? {
      CutEnd(name, pos);
      var a, b := CutSlice(name, pos);
      if Normalized(name) {
        CutPrefix(name, pos);
      }
    }
  }

  /**
   * For a normalised name, the cut before `pos` is the prefix `name[..pos]` with its trailing
   * run of `,`, `-`, `—`, `(`, `)` and whitespace removed, and nothing else.
   */
  lemma CutPrefix(name: string, pos: nat)
    requires pos <= |name| && Normalized(name)
    ensures var c := Cut(name, pos);
      |c| <= pos && c == name[..|c|] && (forall i :: |c| <= i < pos ==> TrailingPunct(name[i])) &&
      (c != [] ==> !TrailingPunct(c[|c| - 1]))
  {
    var x := name[..pos];
    assert DropLeading(x, Spaces) == x by {
      if x != [] {
        assert x[0] == name[0];
      }
    }
    var y := Strip(x);
    DropTrailingPrefix(x, Spaces);
    var z := DropTrailingPunct(y);
    assert z == x[..|z|];
    assert forall i :: |z| <= i < pos ==> TrailingPunct(name[i]) by {
      forall i | |z| <= i < pos ensures TrailingPunct(name[i]) {
        assert x[i] == name[i];
        if i >= |y| {
          assert IsSpace(x[i]);
        } else {
          assert y[i] == x[i];
        }
      }
    }
    assert DropLeading(z, Spaces) == z by {
      if z != [] {
        assert z[0] == name[0];
      }
    }
    assert DropTrailing(z, Spaces) == z by {
      if z != [] {
        assert !TrailingPunct(z[|z| - 1]);
      }
    }
    assert Cut(name, pos) == z;
    assert z == name[..|z|];
  }

  /** The cut does not end in `,`, `-`, `—`, `(`, `)` or whitespace. */
  lemma CutEnd(name: string, pos: nat)
    requires pos <= |name| && Cut(name, pos) != []
    ensures !TrailingPunct(Cut(name, pos)[|Cut(name, pos)| - 1])
  {
    var d := DropTrailingPunct(Strip(name[..pos]));
    if d != [] {
      StripKeepsLast(d);
    }
  }

  /** The cut is a slice of the name before `pos`. */
  lemma CutSlice(name: string, pos: nat) returns (a: nat, b: nat)
    requires pos <= |name|
    ensures a <= b <= pos && Cut(name, pos) == name[a..b]
  {
    var x := name[..pos];
    var a1 := StripSlice(x);
    var y := Strip(x);
    var z := DropTrailingPunct(y);
    var a2 := StripSlice(z);
    var c := Strip(z);
    a := a1 + a2;
    b := a + |c|;
    forall i | 0 <= i < |c| ensures c[i] == name[a + i] {
      assert c[i] == z[a2 + i] == y[a2 + i] == x[a1 + a2 + i];
    }
    assert c == name[a..b];
  }

  /** A normalised name's cut is normalised. */
  lemma CutNormalized(name: string, pos: nat)
    requires pos <= |name| && Normalized(name)
    ensures Normalized(Cut(name, pos))
  {
    SliceSpacedSingly(name, 0, pos);
    var y := Strip(name[..pos]);
    StripNormalizes(name[..pos]);
    var z := DropTrailingPunct(y);
    SliceSpacedSingly(y, 0, |z|);
    StripNormalizes(z);
  }

  // ---------------------------------------------------------------------------------------
  // One cell, one table
  // ---------------------------------------------------------------------------------------

  /**
   * What one name-column cell contributes: its cleaned text must pass the first filter,
   * its scrubbed text must be longer than two characters, and with title splitting a name
   * holding a vocabulary word is cut (or dropped).
   */
  function NameOfCell(cell: string, splitTitles: bool, words: seq<string>): Option<string> {
    var name := CleanText(cell);
    if !Plausible(name) then None
    else
      var scrubbed := Scrub(name);
      if scrubbed == "" || |scrubbed| <= 2 then None
      else if !splitTitles || FirstContained(Lower(scrubbed), words, 0).None? then Some(scrubbed)
      else TitleSplit(scrubbed, words)
  }

  /** What row `rows[i]` contributes: nothing when it has too few cells for the name column. */
  function RowName(row: Row, column: nat, splitTitles: bool, words: seq<string>): seq<string> {
    if |row| > column then
      match NameOfCell(row[column], splitTitles, words)
      case Some(n) => [n]
      case None => []
    else []
  }

  /** The names of `rows[lo..hi]`, in row order. */
  function NamesBetween(rows: seq<Row>, column: nat, splitTitles: bool, words: seq<string>, lo: nat, hi: nat): (r: seq<string>)
    requires lo <= hi <= |rows|
    decreases hi - lo
    ensures |r| <= hi - lo
  {
    if lo == hi then []
    else NamesBetween(rows, column, splitTitles, words, lo, hi - 1) + RowName(rows[hi - 1], column, splitTitles, words)
  }

  /** The first row read: 1 when row 0 is skipped (and there is a row 0), else 0. */
  function FirstRow(rows: seq<Row>, skipHeaderRow: bool): (r: nat)
    ensures r <= |rows|
  {
    if skipHeaderRow && rows != [] then 1 else 0
  }

  /** `extract_names_from_table`. */
  function ExtractedNames(rows: seq<Row>, column: nat, skipHeaderRow: bool, splitTitles: bool, words: seq<string>): seq<string> {
    NamesBetween(rows, column, splitTitles, words, FirstRow(rows, skipHeaderRow), |rows|)
  }

  /** The vocabulary has no empty entry. */
  predicate NonEmptyWords(words: seq<string>) {
    forall k :: 0 <= k < |words| ==> words[k] != ""
  }

  /** What every emitted name is like. */
  predicate WellFormedName(n: string, splitTitles: bool, words: seq<string>) {
    |n| > 2 && Normalized(n) && (forall c :: FootnoteChar(c) ==> c !in n) &&
    (splitTitles ==> forall k :: 0 <= k < |words| ==> !Contains(Lower(n), words[k]))
  }

  /**
   * The title split of a normalised name without footnote characters is well formed: the
   * cut is a slice before the earliest vocabulary word, so it holds none of them.
   */
  lemma TitleSplitWellFormed(name: string, words: seq<string>)
    requires NonEmptyWords(words) && Normalized(name) && forall c :: FootnoteChar(c) ==> c !in name
    ensures TitleSplit(name, words).Some? ==> WellFormedName(TitleSplit(name, words).value, true, words)
  {
    var lower := Lower(name);
    var pos := Earliest(lower, words).0;
    EarliestSpec(lower, words);
    if pos > 0 {
      var cut := Cut(name, pos);
      var a, b := CutSlice(name, pos);
      CutNormalized(name, pos);
      LowerSlice(name, a, b);
      forall k | 0 <= k < |words| ensures !Contains(Lower(cut), words[k]) {
        NoWordBefore(lower, words, a, b, k);
      }
    }
  }

  /**
   * A name emitted for a cell is longer than two characters, whitespace-normalised, free of
   * `*`, `†` and `‡`, and, with title splitting, free of every vocabulary word.
   */
  lemma NameOfCellWellFormed(cell: string, splitTitles: bool, words: seq<string>)
    requires NonEmptyWords(words)
    ensures NameOfCell(cell, splitTitles, words).Some? ==>
      WellFormedName(NameOfCell(cell, splitTitles, words).value, splitTitles, words)
  {
    var name := CleanText(cell);
    var scrubbed := Scrub(name);
    ScrubShape(name);
    if splitTitles {
      FirstContainedSpec(Lower(scrubbed), words, 0);
      TitleSplitWellFormed(scrubbed, words);
    }
  }

  /** Every extracted name is well formed, and there is at most one per row read. */
  lemma {:induction false} NamesBetweenWellFormed(rows: seq<Row>, column: nat, splitTitles: bool, words: seq<string>, lo: nat, hi: nat)
    requires lo <= hi <= |rows| && NonEmptyWords(words)
    decreases hi - lo
    ensures forall j :: 0 <= j < |NamesBetween(rows, column, splitTitles, words, lo, hi)| ==>
      WellFormedName(NamesBetween(rows, column, splitTitles, words, lo, hi)[j], splitTitles, words)
  {
    if lo < hi {
      NamesBetweenWellFormed(rows, column, splitTitles, words, lo, hi - 1);
      if |rows[hi - 1]| > column {
        NameOfCellWellFormed(rows[hi - 1][column], splitTitles, words);
      }
    }
  }

  /**
   * The emitted names are well formed, and there are at most as many as rows read (at most
   * `len(rows) - 1` when row 0 is skipped).
   */
  lemma ExtractedNamesWellFormed(rows: seq<Row>, column: nat, skipHeaderRow: bool, splitTitles: bool, words: seq<string>)
    requires NonEmptyWords(words)
    ensures var r := ExtractedNames(rows, column, skipHeaderRow, splitTitles, words);
      |r| <= |rows| - FirstRow(rows, skipHeaderRow) &&
      forall j :: 0 <= j < |r| ==> WellFormedName(r[j], splitTitles, words)
  {
    NamesBetweenWellFormed(rows, column, splitTitles, words, FirstRow(rows, skipHeaderRow), |rows|);
  }

  /** Names only depend on the rows they are read from. */
  lemma {:induction false} NamesBetweenOfRows(rows: seq<Row>, rows': seq<Row>, column: nat, splitTitles: bool, words: seq<string>, lo: nat, hi: nat)
    requires lo <= hi <= |rows| && hi <= |rows'| && forall i :: lo <= i < hi ==> rows[i] == rows'[i]
    decreases hi - lo
    ensures NamesBetween(rows, column, splitTitles, words, lo, hi) == NamesBetween(rows', column, splitTitles, words, lo, hi)
  {
    if lo < hi {
      NamesBetweenOfRows(rows, rows', column, splitTitles, words, lo, hi - 1);
    }
  }

  /** When row 0 is skipped, its content never matters. */
  lemma HeaderRowIgnored(rows: seq<Row>, header: Row, column: nat, splitTitles: bool, words: seq<string>)
    requires rows != []
    ensures ExtractedNames(rows, column, true, splitTitles, words) ==
      ExtractedNames([header] + rows[1..], column, true, splitTitles, words)
  {
    var rows' := [header] + rows[1..];
    assert |rows'| == |rows|;
    assert forall i :: 1 <= i < |rows| ==> rows[i] == rows'[i];
    assert FirstRow(rows, true) == 1 && FirstRow(rows', true) == 1;
    NamesBetweenOfRows(rows, rows', column, splitTitles, words, 1, |rows|);
  }

  // ---------------------------------------------------------------------------------------
  // The loops
  // ---------------------------------------------------------------------------------------

  /** The `for keyword in title_keywords` loop: `earliest_pos` and `matched_keyword`. */
  method EarliestTitle(lower: string, words: seq<string>) returns (pos: nat, matched: Option<nat>)
    ensures (pos, matched) == Earliest(lower, words)
  {
    pos := |lower|;
    matched := None;
    for k := 0 to |words|
      invariant EarliestFrom(lower, words, k, pos, matched) == Earliest(lower, words)
    {
      var p := Find(lower, words[k]);
      FindFromSpec(lower, words[k], 0);
      if p != -1 && p < pos {
        pos := p;
        matched := Some(k);
      }
    }
  }

  /** The body of the row loop for one name-column cell. */
  method NameFromCell(cell: string, splitTitles: bool, words: seq<string>) returns (r: Option<string>)
    ensures r == NameOfCell(cell, splitTitles, words)
  {
    var name := CleanText(cell);
    if !Plausible(name) {
      return None;
    }
    name := CleanText(Remove(HtmlEntity, Remove(FootnoteMarker, name)));
    if name == "" || |name| <= 2 {
      return None;
    }
    if !splitTitles || FirstContained(Lower(name), words, 0).None? {
      return Some(name);
    }
    var earliest, _ := EarliestTitle(Lower(name), words);
    if earliest > 0 {
      var cleanName := Cut(name, earliest);
      if cleanName != "" && |cleanName| > 2 && !IsFigure(cleanName) {
        return Some(cleanName);
      }
    }
    return None;
  }

  /** `extract_names_from_table`: the row loop, appending to `names`. */
  method ExtractNames(rows: seq<Row>, column: nat, skipHeaderRow: bool, splitTitles: bool, words: seq<string>)
    returns (names: seq<string>)
    ensures names == ExtractedNames(rows, column, skipHeaderRow, splitTitles, words)
  {
    names := [];
    if rows == [] {
      return;
    }
    var start := if skipHeaderRow then 1 else 0;
    for i := start to |rows|
      invariant names == NamesBetween(rows, column, splitTitles, words, start, i)
    {
      var cells := rows[i];
      if |cells| > column {
        var name := NameFromCell(cells[column], splitTitles, words);
        if name.Some? {
          names := names + [name.value];
        }
      }
    }
  }
}
