/**
 * The context-scored locator of tableApproach.py: `get_text_around_table` (80-107),
 * `is_compensation_table` (112-124) and `find_compensation_table` (220-260). Every table is
 * considered in document order; it is accepted when a heading keyword occurs in the text of
 * the tags around it, it has a name column and it has numeric cells.
 */
module ContextScan {

  import opened Wrappers
  import opened Text
  import opened Document
  import opened Columns

  /** At most this many tags before a table are read. */
  const BeforeLimit := 50

  /** At most this many tags after a table are read. */
  const AfterLimit := 20

  /** Snippets of this length or longer are skipped as "huge blocks". */
  const MaxSnippetLength := 200

  /** `clean` applied to the text of every tag. */
  function MapTexts(doc: Doc, clean: string -> string): (r: seq<string>)
    ensures |r| == |doc|
  {
    if doc == [] then [] else [clean(doc[0].text)] + MapTexts(doc[1..], clean)
  }

  /** Entry `i` is `clean` of the text of tag `i`. */
  lemma {:induction false} MapTextsAt(doc: Doc, clean: string -> string, i: nat)
    requires i < |doc|
    decreases |doc|
    ensures MapTexts(doc, clean)[i] == clean(doc[i].text)
  {
    if i > 0 {
      MapTextsAt(doc[1..], clean, i - 1);
    }
  }

  /** Mapping a window of the document gives that window of the mapped texts. */
  lemma MapTextsOfSlice(doc: Doc, clean: string -> string, lo: nat, hi: nat)
    requires lo <= hi <= |doc|
    ensures MapTexts(doc[lo..hi], clean) == MapTexts(doc, clean)[lo..hi]
  {
    var a := MapTexts(doc[lo..hi], clean);
    var b := MapTexts(doc, clean)[lo..hi];
    forall i | 0 <= i < |a| ensures a[i] == b[i] {
      MapTextsSliceAt(doc, clean, lo, hi, i);
    }
  }

  /** One entry of `MapTextsOfSlice`. */
  lemma MapTextsSliceAt(doc: Doc, clean: string -> string, lo: nat, hi: nat, i: nat)
    requires lo <= hi <= |doc| && i < hi - lo
    ensures MapTexts(doc[lo..hi], clean)[i] == MapTexts(doc, clean)[lo + i]
  {
    MapTextsAt(doc[lo..hi], clean, i);
    MapTextsAt(doc, clean, lo + i);
    assert doc[lo..hi][i] == doc[lo + i];
  }

  /** The cleaned text of every tag. */
  function NodeTexts(doc: Doc): seq<string> {
    MapTexts(doc, CleanText)
  }

  /** Entry `i` of `NodeTexts` is the cleaned text of tag `i`. */
  lemma NodeTextAt(doc: Doc, i: nat)
    requires i < |doc|
    ensures NodeTexts(doc)[i] == CleanText(doc[i].text)
  {
    MapTextsAt(doc, CleanText, i);
  }

  /** The cleaned texts of a window of the document are that window of the cleaned texts. */
  lemma NodeTextsOfSlice(doc: Doc, lo: nat, hi: nat)
    requires lo <= hi <= |doc|
    ensures NodeTexts(doc[lo..hi]) == NodeTexts(doc)[lo..hi]
  {
    MapTextsOfSlice(doc, CleanText, lo, hi);
  }

  /** A snippet is kept when it is non-empty and short. */
  predicate Kept(s: string) {
    s != "" && |s| < MaxSnippetLength
  }

  /** The kept snippets among `texts[lo..hi]`, in order. */
  function Snippets(texts: seq<string>, lo: nat, hi: nat): seq<string>
    requires lo <= hi <= |texts|
    decreases hi - lo
  {
    if lo == hi then []
    else (if Kept(texts[lo]) then [texts[lo]] else []) + Snippets(texts, lo + 1, hi)
  }

  /** Extending the range by one text at its end appends that text, if kept. */
  lemma {:induction false} SnippetsSnoc(texts: seq<string>, lo: nat, hi: nat)
    requires lo <= hi < |texts|
    decreases hi - lo
    ensures Snippets(texts, lo, hi + 1) == Snippets(texts, lo, hi) + (if Kept(texts[hi]) then [texts[hi]] else [])
  {
    if lo < hi {
      SnippetsSnoc(texts, lo + 1, hi);
    }
  }

  /** Every snippet is kept and one of the texts of the range; there are at most as many as texts. */
  lemma {:induction false} SnippetsShape(texts: seq<string>, lo: nat, hi: nat)
    requires lo <= hi <= |texts|
    decreases hi - lo
    ensures |Snippets(texts, lo, hi)| <= hi - lo
    ensures forall k :: 0 <= k < |Snippets(texts, lo, hi)| ==>
      Kept(Snippets(texts, lo, hi)[k]) && exists j :: lo <= j < hi && Snippets(texts, lo, hi)[k] == texts[j]
  {
    if lo < hi {
      SnippetsShape(texts, lo + 1, hi);
      var r := Snippets(texts, lo, hi);
      var head := if Kept(texts[lo]) then [texts[lo]] else [];
      var rest := Snippets(texts, lo + 1, hi);
      assert r == head + rest;
      forall k | 0 <= k < |r| ensures Kept(r[k]) && exists j :: lo <= j < hi && r[k] == texts[j] {
        if k < |head| {
          assert r[k] == texts[lo];
        } else {
          assert r[k] == rest[k - |head|];
        }
      }
    }
  }

  /** Snippets only look at the texts of their range. */
  lemma {:induction false} SnippetsOfSlice(texts: seq<string>, lo: nat, hi: nat, i: nat, j: nat)
    requires lo <= i <= j <= hi <= |texts|
    decreases j - i
    ensures Snippets(texts[lo..hi], i - lo, j - lo) == Snippets(texts, i, j)
  {
    if i < j {
      SnippetsOfSlice(texts, lo, hi, i + 1, j);
      assert texts[lo..hi][i - lo] == texts[i];
    }
  }

  /** `s` in reverse order. */
  function Reverse<T>(s: seq<T>): (r: seq<T>)
    ensures |r| == |s|
    ensures forall i {:trigger r[i]} :: 0 <= i < |s| ==> r[i] == s[|s| - 1 - i]
  {
    if s == [] then [] else [s[|s| - 1]] + Reverse(s[..|s| - 1])
  }

  /** Reversing after appending puts the new element first. */
  lemma ReverseSnoc<T>(s: seq<T>, x: T)
    ensures Reverse(s + [x]) == [x] + Reverse(s)
  {
    assert (s + [x])[..|s|] == s;
  }

  /** The kept snippets among `texts[lo..hi]`, last first: the order of a backward walk. */
  function SnippetsBackward(texts: seq<string>, lo: nat, hi: nat): seq<string>
    requires lo <= hi <= |texts|
    decreases hi - lo
  {
    if lo == hi then []
    else SnippetsBackward(texts, lo + 1, hi) + (if Kept(texts[lo]) then [texts[lo]] else [])
  }

  /** Reversing the backward walk's list gives the snippets in document order. */
  lemma {:induction false} SnippetsBackwardReversed(texts: seq<string>, lo: nat, hi: nat)
    requires lo <= hi <= |texts|
    decreases hi - lo
    ensures Reverse(SnippetsBackward(texts, lo, hi)) == Snippets(texts, lo, hi)
  {
    if lo < hi {
      SnippetsBackwardReversed(texts, lo + 1, hi);
      var rest := SnippetsBackward(texts, lo + 1, hi);
      if Kept(texts[lo]) {
        ReverseSnoc(rest, texts[lo]);
        assert SnippetsBackward(texts, lo, hi) == rest + [texts[lo]];
        assert Snippets(texts, lo, hi) == [texts[lo]] + Snippets(texts, lo + 1, hi);
      } else {
        assert SnippetsBackward(texts, lo, hi) == rest;
        assert Snippets(texts, lo, hi) == Snippets(texts, lo + 1, hi);
      }
    }
  }

  /** The first tag read before table `t`. */
  function BeforeStart(t: nat): nat {
    if t >= BeforeLimit then t - BeforeLimit else 0
  }

  /** One past the last tag read after table `t`. */
  function AfterEnd(doc: Doc, t: nat): nat
    requires t < |doc|
  {
    if t + 1 + AfterLimit <= |doc| then t + 1 + AfterLimit else |doc|
  }

  /** `text_before`: the snippets of the up to 50 tags before the table, in document order. */
  function Before(doc: Doc, t: nat): string
    requires t < |doc|
  {
    Join(Snippets(NodeTexts(doc), BeforeStart(t), t))
  }

  /** `text_after`: the snippets of the up to 20 tags after the table. */
  function After(doc: Doc, t: nat): string
    requires t < |doc|
  {
    Join(Snippets(NodeTexts(doc), t + 1, AfterEnd(doc, t)))
  }

  /** Every tag's cleaned text is whitespace-normalised. */
  lemma NodeTextsNormalized(doc: Doc)
    ensures forall i :: 0 <= i < |doc| ==> Normalized(NodeTexts(doc)[i])
  {
    forall i | 0 <= i < |doc| ensures Normalized(NodeTexts(doc)[i]) {
      NodeTextAt(doc, i);
      CleanTextNormalized(doc[i].text);
    }
  }

  /** Snippets of normalised texts are non-empty and normalised. */
  lemma SnippetsNormalized(texts: seq<string>, lo: nat, hi: nat)
    requires lo <= hi <= |texts|
    requires forall i :: 0 <= i < |texts| ==> Normalized(texts[i])
    ensures forall k :: 0 <= k < |Snippets(texts, lo, hi)| ==>
      Snippets(texts, lo, hi)[k] != "" && Normalized(Snippets(texts, lo, hi)[k])
  {
    SnippetsShape(texts, lo, hi);
  }

  /** The context strings are whitespace-normalised. */
  lemma ContextNormalized(doc: Doc, t: nat)
    requires t < |doc|
    ensures Normalized(Before(doc, t)) && Normalized(After(doc, t))
  {
    var texts := NodeTexts(doc);
    NodeTextsNormalized(doc);
    SnippetsNormalized(texts, BeforeStart(t), t);
    JoinNormalized(Snippets(texts, BeforeStart(t), t));
    SnippetsNormalized(texts, t + 1, AfterEnd(doc, t));
    JoinNormalized(Snippets(texts, t + 1, AfterEnd(doc, t)));
  }

  /** The cleaned text of tag `i`, as read by each step of `get_text_around_table`. */
  method NodeText(doc: Doc, i: nat) returns (text: string)
    requires i < |doc|
    ensures text == NodeTexts(doc)[i]
    ensures Normalized(text)
  {
    text := CleanText(doc[i].text);
    NodeTextAt(doc, i);
    CleanTextNormalized(doc[i].text);
  }

  /** The first loop of `get_text_around_table`: up to 50 `find_previous()` steps. */
  method TextBefore(doc: Doc, t: nat) returns (before: string)
    requires t < |doc|
    ensures before == Before(doc, t)
  {
    ghost var texts := NodeTexts(doc);
    var textBefore: seq<string> := [];
    var current: nat := t;
    var k := 0;
    while k < BeforeLimit
      invariant 0 <= k <= BeforeLimit && current <= t && current == t - k
      invariant textBefore == SnippetsBackward(texts, current, t)
    {
      if current == 0 {
        break;
      }
      current := current - 1;
      var text := NodeText(doc, current);
      if Kept(text) {
        textBefore := textBefore + [text];
      }
      k := k + 1;
    }
    var lo := BeforeStart(t);
    assert current == lo;
    assert textBefore == SnippetsBackward(texts, lo, t);
    SnippetsBackwardReversed(texts, lo, t);
    before := Join(Reverse(textBefore));
  }

  /** The second loop of `get_text_around_table`: up to 20 `find_next()` steps. */
  method TextAfter(doc: Doc, t: nat) returns (after: string)
    requires t < |doc|
    ensures after == After(doc, t)
  {
    ghost var texts := NodeTexts(doc);
    var textAfter: seq<string> := [];
    var k := 0;
    while k < AfterLimit
      invariant 0 <= k <= AfterLimit && t + 1 + k <= |doc|
      invariant textAfter == Snippets(texts, t + 1, t + 1 + k)
    {
      if t + 1 + k == |doc| {
        break;
      }
      var text := NodeText(doc, t + 1 + k);
      SnippetsSnoc(texts, t + 1, t + 1 + k);
      if Kept(text) {
        textAfter := textAfter + [text];
      }
      k := k + 1;
    }
    assert t + 1 + k == AfterEnd(doc, t);
    after := Join(textAfter);
  }

  /** `get_text_around_table`: the context before and after table `t`. */
  method GetTextAround(doc: Doc, t: nat) returns (before: string, after: string)
    requires t < |doc|
    ensures before == Before(doc, t) && after == After(doc, t)
  {
    before := TextBefore(doc, t);
    after := TextAfter(doc, t);
  }

  /** The one character class `['`´]` replaced by an apostrophe. */
  function NormalizeQuotes(s: string): (r: string)
    ensures |r| == |s|
    ensures forall i {:trigger r[i]} :: 0 <= i < |s| ==>
      r[i] == (if s[i] == '`' || s[i] == '´' || s[i] == '\'' then '\'' else s[i])
  {
    if s == [] then []
    else [if s[0] == '`' || s[0] == '´' || s[0] == '\'' then '\'' else s[0]] + NormalizeQuotes(s[1..])
  }

  /** `combined_text_normalized`: both context strings, lower-cased, apostrophes unified. */
  function ContextText(before: string, after: string): string {
    NormalizeQuotes(Lower(before + " " + after))
  }

  /** `keyword_normalized`: apostrophes unified, then lower-cased. */
  function NormalizedKeyword(keyword: string): string {
    Lower(NormalizeQuotes(keyword))
  }

  /** The normalised form of every keyword. */
  function NormalizedKeywords(keywords: seq<string>): (r: seq<string>)
    ensures |r| == |keywords|
    ensures forall k {:trigger r[k]} :: 0 <= k < |keywords| ==> r[k] == NormalizedKeyword(keywords[k])
  {
    seq(|keywords|, k requires 0 <= k < |keywords| => NormalizedKeyword(keywords[k]))
  }

  /**
   * `is_compensation_table`: the index of the first keyword whose normalised form occurs in
   * the normalised context, or None.
   */
  function ContextMatch(before: string, after: string, keywords: seq<string>): Option<nat> {
    FirstContained(ContextText(before, after), NormalizedKeywords(keywords), 0)
  }

  /**
   * `is_compensation_table` reports the first keyword whose normalised form occurs in the
   * normalised context, and reports nothing only when no keyword occurs.
   */
  lemma ContextMatchSpec(before: string, after: string, keywords: seq<string>)
    ensures var r := ContextMatch(before, after, keywords);
      (r.Some? ==> r.value < |keywords| && Contains(ContextText(before, after), NormalizedKeyword(keywords[r.value]))) &&
      forall k :: 0 <= k < (if r.Some? then r.value else |keywords|) ==>
        !Contains(ContextText(before, after), NormalizedKeyword(keywords[k]))
  {
    var words := NormalizedKeywords(keywords);
    FirstContainedSpec(ContextText(before, after), words, 0);
    assert forall k :: 0 <= k < |keywords| ==> words[k] == NormalizedKeyword(keywords[k]);
  }

  /** `is_compensation_table` as the loop of the source. */
  method IsCompensationTable(before: string, after: string, keywords: seq<string>) returns (r: Option<nat>)
    ensures r == ContextMatch(before, after, keywords)
  {
    var combined := NormalizeQuotes(Lower(before + " " + after));
    ghost var words := NormalizedKeywords(keywords);
    var k := 0;
    while k < |keywords|
      invariant k <= |keywords|
      invariant ContextMatch(before, after, keywords) == FirstContained(combined, words, k)
    {
      var keyword := Lower(NormalizeQuotes(keywords[k]));
      assert keyword == words[k];
      if Contains(combined, keyword) {
        return Some(k);
      }
      k := k + 1;
    }
    return None;
  }

  /**
   * Table `t` is accepted: a keyword occurs in its context, it has a name column and it has
   * numeric cells.
   */
  predicate Accepted(doc: Doc, keywords: seq<string>, exclude: bool, t: int) {
    0 <= t < |doc| && doc[t].TableTag? &&
    ContextMatch(Before(doc, t), After(doc, t), keywords).Some? &&
    NameColumn(doc[t].rows, exclude).Some? &&
    HasNumericCells(doc[t].rows)
  }

  /** The verdict for every tag. */
  function AcceptedFlags(doc: Doc, keywords: seq<string>, exclude: bool): (r: seq<bool>)
    ensures |r| == |doc|
    ensures forall t :: 0 <= t < |doc| ==> r[t] == Accepted(doc, keywords, exclude, t)
  {
    seq(|doc|, t requires 0 <= t < |doc| => Accepted(doc, keywords, exclude, t))
  }

  /** `find_compensation_table` of tableApproach.py: the first accepted table and its name column. */
  function Locate(doc: Doc, keywords: seq<string>, exclude: bool): Option<Candidate> {
    match FirstSet(AcceptedFlags(doc, keywords, exclude), 0)
    case None => None
    case Some(t) => Some(Candidate(t, NameColumn(doc[t].rows, exclude).value))
  }

  /**
   * The located table is the first accepted table in document order, reported with its name
   * column.
   */
  lemma LocateIsFirstAccepted(doc: Doc, keywords: seq<string>, exclude: bool, t: nat, c: nat)
    ensures Locate(doc, keywords, exclude) == Some(Candidate(t, c)) <==>
      Accepted(doc, keywords, exclude, t) && NameColumn(doc[t].rows, exclude) == Some(c) &&
      forall u :: 0 <= u < t ==> !Accepted(doc, keywords, exclude, u)
  {
    FirstSetIff(AcceptedFlags(doc, keywords, exclude), t);
  }

  /** Nothing is located exactly when no table is accepted. */
  lemma LocateNone(doc: Doc, keywords: seq<string>, exclude: bool)
    ensures Locate(doc, keywords, exclude) == None <==> forall t :: !Accepted(doc, keywords, exclude, t)
  {
    var flags := AcceptedFlags(doc, keywords, exclude);
    if FirstSet(flags, 0).None? {
      forall t ensures !Accepted(doc, keywords, exclude, t) {
        if 0 <= t < |doc| {
          assert !flags[t];
        }
      }
    }
  }

  /** The text before table `t` is the same when read in the window around it. */
  lemma BeforeIsLocal(doc: Doc, t: nat)
    requires t < |doc|
    ensures Before(doc[BeforeStart(t)..AfterEnd(doc, t)], t - BeforeStart(t)) == Before(doc, t)
  {
    var lo := BeforeStart(t);
    var hi := AfterEnd(doc, t);
    NodeTextsOfSlice(doc, lo, hi);
    SnippetsOfSlice(NodeTexts(doc), lo, hi, lo, t);
    assert BeforeStart(t - lo) == 0;
  }

  /** The text after table `t` is the same when read in the window around it. */
  lemma AfterIsLocal(doc: Doc, t: nat)
    requires t < |doc|
    ensures After(doc[BeforeStart(t)..AfterEnd(doc, t)], t - BeforeStart(t)) == After(doc, t)
  {
    var lo := BeforeStart(t);
    var hi := AfterEnd(doc, t);
    NodeTextsOfSlice(doc, lo, hi);
    SnippetsOfSlice(NodeTexts(doc), lo, hi, t + 1, hi);
    assert AfterEnd(doc[lo..hi], t - lo) == hi - lo;
  }

  /**
   * Whether table `t` is accepted depends only on the tags from 50 before it to 20 after
   * it: cutting the document down to that window gives the same verdict.
   */
  lemma AcceptedIsLocal(doc: Doc, keywords: seq<string>, exclude: bool, t: nat)
    requires t < |doc|
    ensures Accepted(doc, keywords, exclude, t) ==
      Accepted(doc[BeforeStart(t)..AfterEnd(doc, t)], keywords, exclude, t - BeforeStart(t))
  {
    BeforeIsLocal(doc, t);
    AfterIsLocal(doc, t);
    assert doc[BeforeStart(t)..AfterEnd(doc, t)][t - BeforeStart(t)] == doc[t];
  }

  /** `find_compensation_table` as the loop of the source. */
  method FindCompensationTable(doc: Doc, keywords: seq<string>, exclude: bool) returns (r: Option<Candidate>)
    ensures r == Locate(doc, keywords, exclude)
  {
    ghost var flags := AcceptedFlags(doc, keywords, exclude);
    var t := 0;
    while t < |doc|
      invariant t <= |doc|
      invariant FirstSet(flags, 0) == FirstSet(flags, t)
    {
      if doc[t].TableTag? {
        var before, after := GetTextAround(doc, t);
        var matched := IsCompensationTable(before, after, keywords);
        if matched.Some? {
          var column := HasNameColumn(doc[t].rows, exclude);
          if column.Some? {
            var numeric := HasNumericColumns(doc[t].rows);
            if numeric {
              assert flags[t];
              return Some(Candidate(t, column.value));
            }
          }
        }
      }
      assert !flags[t];
      t := t + 1;
    }
    return None;
  }
}
