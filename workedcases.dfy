/**
 * Worked examples of the cell filters and the title split of def14ARevised.py:150-188
 * (shared by def14A.py:92-103), as lemmas about `NameOfCell` with the shared title
 * vocabulary. The example cells are chosen for the model; the scripts contain none. Each
 * concrete case is reduced to a general lemma about cells of one shape, so that the verifier
 * only checks character facts about the literal itself.
 */
module WorkedCases {

  import opened Wrappers
  import opened Text
  import opened Names

  // ---------------------------------------------------------------------------------------
  // Cells of a known shape
  // ---------------------------------------------------------------------------------------

  /** A normalised cell whose lower-cased text starts with rejected prefix `p` yields nothing. */
  lemma CellDroppedByPrefix(cell: string, p: nat, splitTitles: bool, words: seq<string>)
    requires Normalized(cell) && p < |RejectedPrefixes| && |RejectedPrefixes[p]| <= |cell|
    requires forall i :: 0 <= i < |RejectedPrefixes[p]| ==> LowerChar(cell[i]) == RejectedPrefixes[p][i]
    ensures NameOfCell(cell, splitTitles, words) == None
  {
    CleanTextFixesNormalized(cell);
    var q := RejectedPrefixes[p];
    assert Lower(cell)[..|q|] == q;
  }

  /** A lower-cased text whose first two letters rule out every rejected prefix. */
  lemma NoRejectedPrefix(l: string)
    requires |l| >= 2 && l[0] != 't' && l[0] != '$' && l[0] != '—' && l[0] != 'n' && l[0] != 'f' &&
      l[0] != 's' && l[0] != 'o' && l[0] != 'i' && (l[0] == 'a' ==> l[1] != 'w' && l[1] != 'l')
    ensures !HasRejectedPrefix(l)
  {
    forall p | 0 <= p < |RejectedPrefixes| ensures !StartsWith(l, RejectedPrefixes[p]) {
      var q := RejectedPrefixes[p];
      assert l[0] != q[0] || (|q| >= 2 && l[1] != q[1]);
      assert |q| <= |l| ==> l[..|q|][0] == l[0] && (|q| >= 2 ==> l[..|q|][1] == l[1]);
    }
  }

  /** A character at which a footnote marker or an HTML entity could start. */
  predicate MarkerStart(c: char) {
    c == '(' || c == '*' || c == '†' || c == '‡' || c == '[' || c == '<' || c == '&'
  }

  /** Text in which no marker could start. */
  predicate Unmarked(s: string) {
    forall j :: 0 <= j < |s| ==> !MarkerStart(s[j])
  }

  /** Text with no place a marker could start is left alone by marker removal. */
  lemma {:induction false} RemoveFromPlain(p: Pattern, s: string, i: nat)
    requires i <= |s| && forall j :: i <= j < |s| ==> !MarkerStart(s[j])
    decreases |s| - i
    ensures RemoveFrom(p, s, i) == s[i..]
  {
    if i < |s| {
      assert !OccursAt(s, "<sup>", i) by {
        assert s[i] != "<sup>"[0];
      }
      RemoveFromPlain(p, s, i + 1);
      assert s[i..] == [s[i]] + s[i + 1..];
    }
  }

  /** A normalised text without marker characters comes out of the second cleaning unchanged. */
  lemma PlainScrubbed(s: string)
    requires Normalized(s) && Unmarked(s)
    ensures Scrub(s) == s
  {
    RemoveFromPlain(FootnoteMarker, s, 0);
    RemoveFromPlain(HtmlEntity, s, 0);
    CleanTextFixesNormalized(s);
  }

  /**
   * What a plain cell looks like: normalised, longer than two characters, without marker
   * characters, not starting with a figure character, and with a lower-cased start that no
   * rejected prefix shares.
   */
  predicate PlainShape(cell: string, lower: string) {
    Normalized(cell) && |cell| > 2 && |lower| >= 2 && cell != "&#8212;" &&
    Unmarked(cell) && !FigureChar(cell[0]) &&
    lower[0] != 't' && lower[0] != '$' && lower[0] != '—' && lower[0] != 'n' && lower[0] != 'f' &&
    lower[0] != 's' && lower[0] != 'o' && lower[0] != 'i' && (lower[0] == 'a' ==> lower[1] != 'w' && lower[1] != 'l')
  }

  /** A plain cell and its lower-cased text. */
  predicate PlainName(cell: string, lower: string) {
    Lower(cell) == lower && PlainShape(cell, lower)
  }

  /** `lower` is the lower-cased `cell`, character by character. */
  predicate LowerChars(cell: string, lower: string) {
    |lower| == |cell| && forall i :: 0 <= i < |cell| ==> LowerChar(cell[i]) == lower[i]
  }

  lemma PlainNameOfChars(cell: string, lower: string)
    requires LowerChars(cell, lower) && PlainShape(cell, lower)
    ensures PlainName(cell, lower)
  {
    LowerIs(cell, lower);
  }

  /** A plain cell passes the first filter and comes out of the second cleaning unchanged. */
  lemma PlainNameScrubbed(cell: string, lower: string)
    requires PlainName(cell, lower)
    ensures CleanText(cell) == cell && Plausible(cell) && Scrub(cell) == cell
  {
    CleanTextFixesNormalized(cell);
    NoRejectedPrefix(lower);
    PlainScrubbed(cell);
  }

  /** `w` does not start at any offset of `s` before `pos`: its first three characters already differ. */
  predicate StartsNowhereBefore(s: string, w: string, pos: int) {
    |w| >= 3 && forall i :: 0 <= i < pos && i + 2 < |s| ==> s[i] != w[0] || s[i + 1] != w[1] || s[i + 2] != w[2]
  }

  lemma NotOccurringBefore(s: string, w: string, pos: int, i: int)
    requires StartsNowhereBefore(s, w, pos) && 0 <= i < pos
    ensures !OccursAt(s, w, i)
  {
    if i + |w| <= |s| {
      assert s[i] != w[0] || s[i + 1] != w[1] || s[i + 2] != w[2];
    }
  }

  /** No vocabulary entry starts in `lower` before `pos`. */
  predicate NoWordStartsBefore(lower: string, words: seq<string>, pos: int) {
    forall k :: 0 <= k < |words| ==> StartsNowhereBefore(lower, words[k], pos)
  }

  /** A plain cell holding no vocabulary entry is emitted as it is. */
  lemma PlainCellKept(cell: string, lower: string, words: seq<string>)
    requires PlainName(cell, lower) && NoWordStartsBefore(lower, words, |lower|)
    ensures NameOfCell(cell, true, words) == Some(cell)
  {
    PlainNameScrubbed(cell, lower);
    forall k | 0 <= k < |words| ensures !Contains(lower, words[k]) {
      ContainsIff(lower, words[k]);
      forall i | 0 <= i ensures !OccursAt(lower, words[k], i) {
        if i < |lower| {
          NotOccurringBefore(lower, words[k], |lower|, i);
        }
      }
    }
    FirstContainedSpec(lower, words, 0);
  }

  /** The earliest vocabulary entry in `lower` starts at `pos` when entry `m` starts there and none starts before. */
  lemma EarliestIs(lower: string, words: seq<string>, m: nat, pos: nat)
    requires m < |words| && OccursAt(lower, words[m], pos) && NoWordStartsBefore(lower, words, pos)
    ensures Earliest(lower, words).0 == pos && Contains(lower, words[m])
  {
    EarliestSpec(lower, words);
    FindFromSpec(lower, words[m], 0);
    ContainsIff(lower, words[m]);
    var r := Earliest(lower, words);
    if r.1.Some? {
      var k := r.1.value;
      FindFromSpec(lower, words[k], 0);
      if r.0 < pos {
        NotOccurringBefore(lower, words[k], pos, r.0);
      }
    }
  }

  /** Cutting a normalised name just after a space that follows a letter keeps the part before the space. */
  lemma CutAtSpace(name: string, pos: nat)
    requires Normalized(name) && 2 <= pos <= |name| && name[pos - 1] == ' ' && !TrailingPunct(name[pos - 2])
    ensures Cut(name, pos) == name[..pos - 1]
  {
    var x := name[..pos];
    var y := name[..pos - 1];
    assert DropLeading(x, Spaces) == x;
    assert x[..|x| - 1] == y;
    assert DropTrailing(x, Spaces) == DropTrailing(y, Spaces) == y;
    assert DropTrailingPunct(y) == y;
    assert DropLeading(y, Spaces) == y;
  }

  /**
   * A plain cell in which entry `m` is the earliest vocabulary word, starting at `pos` right
   * after a space, is cut to the part before that space.
   */
  lemma TitledCellCut(cell: string, lower: string, words: seq<string>, m: nat, pos: nat)
    requires PlainName(cell, lower) && m < |words| && OccursAt(lower, words[m], pos) &&
      NoWordStartsBefore(lower, words, pos)
    requires 4 <= pos && cell[pos - 1] == ' ' && !TrailingPunct(cell[pos - 2])
    ensures NameOfCell(cell, true, words) == Some(cell[..pos - 1])
  {
    PlainNameScrubbed(cell, lower);
    EarliestIs(lower, words, m, pos);
    FirstContainedSpec(lower, words, 0);
    CutAtSpace(cell, pos);
    assert !FigureChar(cell[..pos - 1][0]);
  }

  /**
   * A plain cell in which entry `m` is the earliest vocabulary word, starting at `pos` right
   * after ", " (as in "John Doe, Chief Executive Officer"), is cut to the part before the comma.
   */
  lemma TitledCellCutAfterComma(cell: string, lower: string, words: seq<string>, m: nat, pos: nat)
    requires PlainName(cell, lower) && m < |words| && OccursAt(lower, words[m], pos) &&
      NoWordStartsBefore(lower, words, pos)
    requires 5 <= pos && cell[pos - 1] == ' ' && cell[pos - 2] == ',' && !TrailingPunct(cell[pos - 3])
    ensures NameOfCell(cell, true, words) == Some(cell[..pos - 2])
  {
    PlainNameScrubbed(cell, lower);
    EarliestIs(lower, words, m, pos);
    FirstContainedSpec(lower, words, 0);
    CutPrefix(cell, pos);
    var c := Cut(cell, pos);
    assert c == cell[..pos - 2];
    assert !FigureChar(c[0]);
  }

  /** A plain cell that starts with vocabulary entry `m` is dropped. */
  lemma TitledCellDropped(cell: string, lower: string, words: seq<string>, m: nat)
    requires PlainName(cell, lower) && m < |words| && OccursAt(lower, words[m], 0)
    ensures NameOfCell(cell, true, words) == None
  {
    PlainNameScrubbed(cell, lower);
    EarliestSpec(lower, words);
    FindFromSpec(lower, words[m], 0);
    ContainsIff(lower, words[m]);
    FirstContainedSpec(lower, words, 0);
  }

  // ---------------------------------------------------------------------------------------
  // Cells assembled from pieces
  // ---------------------------------------------------------------------------------------

  /** A piece of a cell: no doubled or non-blank whitespace, no marker character, no space at its end. */
  predicate Piece(b: string, lb: string) {
    b != [] && SpacedSingly(b) && !IsSpace(b[|b| - 1]) && Unmarked(b) && LowerChars(b, lb)
  }

  /** A plain cell followed by a piece is still plain. */
  lemma ShapeConcat(a: string, b: string, la: string, lb: string)
    requires PlainShape(a, la) && LowerChars(a, la) && Piece(b, lb)
    ensures PlainShape(a + b, la + lb) && LowerChars(a + b, la + lb)
  {
    var s := a + b;
    assert s[|a| - 1] == a[|a| - 1] && s[|s| - 1] == b[|b| - 1];
    forall i | 0 <= i < |s| - 1 && s[i] == ' ' ensures s[i + 1] != ' ' {
      if i + 1 < |a| {
        assert s[i] == a[i] && s[i + 1] == a[i + 1];
      } else if |a| <= i {
        assert s[i] == b[i - |a|] && s[i + 1] == b[i + 1 - |a|];
      }
    }
    assert (la + lb)[0] == la[0] && (la + lb)[1] == la[1];
  }

  /** Characters past `pos + 2` play no part in whether a word starts before `pos`. */
  lemma NoWordStartsBeforeExtended(s: string, t: string, words: seq<string>, pos: int)
    requires NoWordStartsBefore(s, words, pos) && pos + 2 <= |s|
    ensures NoWordStartsBefore(s + t, words, pos)
  {
    forall k, i | 0 <= k < |words| && 0 <= i < pos && i + 2 < |s + t|
      ensures (s + t)[i] != words[k][0] || (s + t)[i + 1] != words[k][1] || (s + t)[i + 2] != words[k][2]
    {
      assert StartsNowhereBefore(s, words[k], pos);
      assert (s + t)[i] == s[i] && (s + t)[i + 1] == s[i + 1] && (s + t)[i + 2] == s[i + 2];
    }
  }

  lemma NoWordStartsBeforeConcat(lower: string, a: seq<string>, b: seq<string>, pos: int)
    requires NoWordStartsBefore(lower, a, pos) && NoWordStartsBefore(lower, b, pos)
    ensures NoWordStartsBefore(lower, a + b, pos)
  {
    forall k | 0 <= k < |a + b| ensures StartsNowhereBefore(lower, (a + b)[k], pos) {
      if k < |a| {
        assert (a + b)[k] == a[k];
      } else {
        assert (a + b)[k] == b[k - |a|];
      }
    }
  }

  // The title vocabulary in groups of three consecutive entries.
  const Titles1: seq<string> := ["chief", "president", "ceo"]
  const Titles2: seq<string> := ["cfo", "coo", "executive"]
  const Titles3: seq<string> := ["chairman", "chair", "vice"]
  const Titles4: seq<string> := ["secretary", "treasurer", "officer"]
  const Titles5: seq<string> := ["controller", "manager", "lead"]
  const Titles6: seq<string> := ["head", "senior", "junior"]
  const Titles7: seq<string> := ["assistant", "emeritus", "independent"]
  const Titles8: seq<string> := ["non-employee", "employee", "audit"]
  const Titles9: seq<string> := ["compensation", "governance", "nominating"]
  const Titles10: seq<string> := ["committee", "retired", "former"]
  const Titles11: seq<string> := ["founder", "current", "and"]
  const Titles12: seq<string> := ["all"]

  lemma TitleGroupsFront() ensures TitleWords[..18] == Titles1 + Titles2 + Titles3 + Titles4 + Titles5 + Titles6 { }
  lemma TitleGroupsBack() ensures TitleWords[18..] == Titles7 + Titles8 + Titles9 + Titles10 + Titles11 + Titles12 { }
  lemma TitleWordsSplit() ensures TitleWords == TitleWords[..18] + TitleWords[18..] { }

  lemma NoTitleGroup1(lower: string, pos: int)
    requires StartsNowhereBefore(lower, "chief", pos) && StartsNowhereBefore(lower, "president", pos) && StartsNowhereBefore(lower, "ceo", pos)
    ensures NoWordStartsBefore(lower, Titles1, pos)
  {
  }

  lemma NoTitleGroup2(lower: string, pos: int)
    requires StartsNowhereBefore(lower, "cfo", pos) && StartsNowhereBefore(lower, "coo", pos) && StartsNowhereBefore(lower, "executive", pos)
    ensures NoWordStartsBefore(lower, Titles2, pos)
  {
  }

  lemma NoTitleGroup3(lower: string, pos: int)
    requires StartsNowhereBefore(lower, "chairman", pos) && StartsNowhereBefore(lower, "chair", pos) && StartsNowhereBefore(lower, "vice", pos)
    ensures NoWordStartsBefore(lower, Titles3, pos)
  {
  }

  lemma NoTitleGroup4(lower: string, pos: int)
    requires StartsNowhereBefore(lower, "secretary", pos) && StartsNowhereBefore(lower, "treasurer", pos) && StartsNowhereBefore(lower, "officer", pos)
    ensures NoWordStartsBefore(lower, Titles4, pos)
  {
  }

  lemma NoTitleGroup5(lower: string, pos: int)
    requires StartsNowhereBefore(lower, "controller", pos) && StartsNowhereBefore(lower, "manager", pos) && StartsNowhereBefore(lower, "lead", pos)
    ensures NoWordStartsBefore(lower, Titles5, pos)
  {
  }

  lemma NoTitleGroup6(lower: string, pos: int)
    requires StartsNowhereBefore(lower, "head", pos) && StartsNowhereBefore(lower, "senior", pos) && StartsNowhereBefore(lower, "junior", pos)
    ensures NoWordStartsBefore(lower, Titles6, pos)
  {
  }

  lemma NoTitleGroup7(lower: string, pos: int)
    requires StartsNowhereBefore(lower, "assistant", pos) && StartsNowhereBefore(lower, "emeritus", pos) && StartsNowhereBefore(lower, "independent", pos)
    ensures NoWordStartsBefore(lower, Titles7, pos)
  {
  }

  lemma NoTitleGroup8(lower: string, pos: int)
    requires StartsNowhereBefore(lower, "non-employee", pos) && StartsNowhereBefore(lower, "employee", pos) && StartsNowhereBefore(lower, "audit", pos)
    ensures NoWordStartsBefore(lower, Titles8, pos)
  {
  }

  lemma NoTitleGroup9(lower: string, pos: int)
    requires StartsNowhereBefore(lower, "compensation", pos) && StartsNowhereBefore(lower, "governance", pos) && StartsNowhereBefore(lower, "nominating", pos)
    ensures NoWordStartsBefore(lower, Titles9, pos)
  {
  }

  lemma NoTitleGroup10(lower: string, pos: int)
    requires StartsNowhereBefore(lower, "committee", pos) && StartsNowhereBefore(lower, "retired", pos) && StartsNowhereBefore(lower, "former", pos)
    ensures NoWordStartsBefore(lower, Titles10, pos)
  {
  }

  lemma NoTitleGroup11(lower: string, pos: int)
    requires StartsNowhereBefore(lower, "founder", pos) && StartsNowhereBefore(lower, "current", pos) && StartsNowhereBefore(lower, "and", pos)
    ensures NoWordStartsBefore(lower, Titles11, pos)
  {
  }

  lemma NoTitleGroup12(lower: string, pos: int)
    requires StartsNowhereBefore(lower, "all", pos)
    ensures NoWordStartsBefore(lower, Titles12, pos)
  {
  }

  /** No title word starts before `pos` when no word of any group does. */
  lemma NoTitleWordStartsBefore(lower: string, pos: int)
    requires NoWordStartsBefore(lower, Titles1, pos) && NoWordStartsBefore(lower, Titles2, pos) && NoWordStartsBefore(lower, Titles3, pos)
    requires NoWordStartsBefore(lower, Titles4, pos) && NoWordStartsBefore(lower, Titles5, pos) && NoWordStartsBefore(lower, Titles6, pos)
    requires NoWordStartsBefore(lower, Titles7, pos) && NoWordStartsBefore(lower, Titles8, pos) && NoWordStartsBefore(lower, Titles9, pos)
    requires NoWordStartsBefore(lower, Titles10, pos) && NoWordStartsBefore(lower, Titles11, pos) && NoWordStartsBefore(lower, Titles12, pos)
    ensures NoWordStartsBefore(lower, TitleWords, pos)
  {
    TitleGroupsFront();
    TitleGroupsBack();
    TitleWordsSplit();
    NoWordStartsBeforeConcat(lower, Titles1, Titles2, pos);
    NoWordStartsBeforeConcat(lower, Titles1 + Titles2, Titles3, pos);
    NoWordStartsBeforeConcat(lower, Titles1 + Titles2 + Titles3, Titles4, pos);
    NoWordStartsBeforeConcat(lower, Titles1 + Titles2 + Titles3 + Titles4, Titles5, pos);
    NoWordStartsBeforeConcat(lower, Titles1 + Titles2 + Titles3 + Titles4 + Titles5, Titles6, pos);
    NoWordStartsBeforeConcat(lower, Titles7, Titles8, pos);
    NoWordStartsBeforeConcat(lower, Titles7 + Titles8, Titles9, pos);
    NoWordStartsBeforeConcat(lower, Titles7 + Titles8 + Titles9, Titles10, pos);
    NoWordStartsBeforeConcat(lower, Titles7 + Titles8 + Titles9 + Titles10, Titles11, pos);
    NoWordStartsBeforeConcat(lower, Titles7 + Titles8 + Titles9 + Titles10 + Titles11, Titles12, pos);
    NoWordStartsBeforeConcat(lower, Titles1 + Titles2 + Titles3 + Titles4 + Titles5 + Titles6, Titles7 + Titles8 + Titles9 + Titles10 + Titles11 + Titles12, pos);
  }

  // ---------------------------------------------------------------------------------------
  // The cases
  // ---------------------------------------------------------------------------------------

  /** An em dash is no name. */
  lemma DashDropped(splitTitles: bool, words: seq<string>)
    ensures NameOfCell("—", splitTitles, words) == None
  {
  }

  /** A "Total" row is no name. */
  lemma TotalDropped(splitTitles: bool, words: seq<string>)
    ensures NameOfCell("Total", splitTitles, words) == None
  {
    CellDroppedByPrefix("Total", 0, splitTitles, words);
  }

  /** A dollar amount is no name. */
  lemma AmountDropped(splitTitles: bool, words: seq<string>)
    ensures NameOfCell("$125,000", splitTitles, words) == None
  {
    CellDroppedByPrefix("$125,000", 1, splitTitles, words);
  }

  /** A compensation column heading is no name. */
  lemma AllOtherCompensationDropped(splitTitles: bool, words: seq<string>)
    ensures NameOfCell("All Other Compensation", splitTitles, words) == None
  {
    CellDroppedByPrefix("All Other Compensation", 9, splitTitles, words);
  }

  /** A "Name" header cell, read as row 0 by the title-splitting extractors, is no name. */
  lemma NameHeaderDropped(splitTitles: bool, words: seq<string>)
    ensures NameOfCell("Name", splitTitles, words) == None
  {
    CellDroppedByPrefix("Name", 10, splitTitles, words);
  }

  // "Audit Committee Chair", piece by piece.
  lemma AuditHead() ensures PlainShape("Audit", "audit") { }
  lemma AuditHeadChars() ensures LowerChars("Audit", "audit") { }
  lemma CommitteeSpaced() ensures SpacedSingly(" Committee") { }
  lemma CommitteeChars() ensures LowerChars(" Committee", " committee") { }
  lemma CommitteeUnmarked() ensures Unmarked(" Committee") { }
  lemma ChairSpaced() ensures SpacedSingly(" Chair") { }
  lemma ChairChars() ensures LowerChars(" Chair", " chair") { }
  lemma ChairUnmarked() ensures Unmarked(" Chair") { }

  lemma AuditText() ensures "Audit" + " Committee" + " Chair" == "Audit Committee Chair" { }
  lemma AuditAtStart() ensures OccursAt("audit" + " committee" + " chair", "audit", 0) { }

  lemma AuditPlain()
    ensures PlainName("Audit Committee Chair", "audit" + " committee" + " chair")
  {
    AuditHead(); AuditHeadChars();
    CommitteeSpaced(); CommitteeChars(); CommitteeUnmarked();
    ChairSpaced(); ChairChars(); ChairUnmarked();
    ShapeConcat("Audit", " Committee", "audit", " committee");
    ShapeConcat("Audit" + " Committee", " Chair", "audit" + " committee", " chair");
    AuditText();
    PlainNameOfChars("Audit Committee Chair", "audit" + " committee" + " chair");
  }

  lemma AuditIsTitle()
    ensures OccursAt("audit" + " committee" + " chair", TitleWords[23], 0)
  {
    AuditAtStart();
    assert TitleWords[23] == "audit";
  }

  /** A committee role with no name before it is dropped. */
  lemma AuditCommitteeChairDropped()
    ensures NameOfCell("Audit Committee Chair", true, TitleWords) == None
  {
    AuditPlain();
    AuditIsTitle();
    TitledCellDropped("Audit Committee Chair", "audit" + " committee" + " chair", TitleWords, 23);
  }

  // "Robert Lee", piece by piece.
  lemma RobertHead() ensures PlainShape("Robert", "robert") { }
  lemma RobertHeadChars() ensures LowerChars("Robert", "robert") { }
  lemma LeeSpaced() ensures SpacedSingly(" Lee") { }
  lemma LeeChars() ensures LowerChars(" Lee", " lee") { }
  lemma LeeUnmarked() ensures Unmarked(" Lee") { }

  lemma RobertText() ensures "Robert" + " Lee" == "Robert Lee" { }

  lemma NoChiefInRobertLee() ensures StartsNowhereBefore("robert" + " lee", "chief", 10) { }
  lemma NoPresidentInRobertLee() ensures StartsNowhereBefore("robert" + " lee", "president", 10) { }
  lemma NoCeoInRobertLee() ensures StartsNowhereBefore("robert" + " lee", "ceo", 10) { }
  lemma NoCfoInRobertLee() ensures StartsNowhereBefore("robert" + " lee", "cfo", 10) { }
  lemma NoCooInRobertLee() ensures StartsNowhereBefore("robert" + " lee", "coo", 10) { }
  lemma NoExecutiveInRobertLee() ensures StartsNowhereBefore("robert" + " lee", "executive", 10) { }
  lemma NoChairmanInRobertLee() ensures StartsNowhereBefore("robert" + " lee", "chairman", 10) { }
  lemma NoChairInRobertLee() ensures StartsNowhereBefore("robert" + " lee", "chair", 10) { }
  lemma NoViceInRobertLee() ensures StartsNowhereBefore("robert" + " lee", "vice", 10) { }
  lemma NoSecretaryInRobertLee() ensures StartsNowhereBefore("robert" + " lee", "secretary", 10) { }
  lemma NoTreasurerInRobertLee() ensures StartsNowhereBefore("robert" + " lee", "treasurer", 10) { }
  lemma NoOfficerInRobertLee() ensures StartsNowhereBefore("robert" + " lee", "officer", 10) { }
  lemma NoControllerInRobertLee() ensures StartsNowhereBefore("robert" + " lee", "controller", 10) { }
  lemma NoManagerInRobertLee() ensures StartsNowhereBefore("robert" + " lee", "manager", 10) { }
  lemma NoLeadInRobertLee() ensures StartsNowhereBefore("robert" + " lee", "lead", 10) { }
  lemma NoHeadInRobertLee() ensures StartsNowhereBefore("robert" + " lee", "head", 10) { }
  lemma NoSeniorInRobertLee() ensures StartsNowhereBefore("robert" + " lee", "senior", 10) { }
  lemma NoJuniorInRobertLee() ensures StartsNowhereBefore("robert" + " lee", "junior", 10) { }
  lemma NoAssistantInRobertLee() ensures StartsNowhereBefore("robert" + " lee", "assistant", 10) { }
  lemma NoEmeritusInRobertLee() ensures StartsNowhereBefore("robert" + " lee", "emeritus", 10) { }
  lemma NoIndependentInRobertLee() ensures StartsNowhereBefore("robert" + " lee", "independent", 10) { }
  lemma NoNonEmployeeInRobertLee() ensures StartsNowhereBefore("robert" + " lee", "non-employee", 10) { }
  lemma NoEmployeeInRobertLee() ensures StartsNowhereBefore("robert" + " lee", "employee", 10) { }
  lemma NoAuditInRobertLee() ensures StartsNowhereBefore("robert" + " lee", "audit", 10) { }
  lemma NoCompensationInRobertLee() ensures StartsNowhereBefore("robert" + " lee", "compensation", 10) { }
  lemma NoGovernanceInRobertLee() ensures StartsNowhereBefore("robert" + " lee", "governance", 10) { }
  lemma NoNominatingInRobertLee() ensures StartsNowhereBefore("robert" + " lee", "nominating", 10) { }
  lemma NoCommitteeInRobertLee() ensures StartsNowhereBefore("robert" + " lee", "committee", 10) { }
  lemma NoRetiredInRobertLee() ensures StartsNowhereBefore("robert" + " lee", "retired", 10) { }
  lemma NoFormerInRobertLee() ensures StartsNowhereBefore("robert" + " lee", "former", 10) { }
  lemma NoFounderInRobertLee() ensures StartsNowhereBefore("robert" + " lee", "founder", 10) { }
  lemma NoCurrentInRobertLee() ensures StartsNowhereBefore("robert" + " lee", "current", 10) { }
  lemma NoAndInRobertLee() ensures StartsNowhereBefore("robert" + " lee", "and", 10) { }
  lemma NoAllInRobertLee() ensures StartsNowhereBefore("robert" + " lee", "all", 10) { }

  /** No title word occurs in "robert lee". */
  lemma NoTitleInRobertLee()
    ensures NoWordStartsBefore("robert" + " lee", TitleWords, 10)
  {
    NoChiefInRobertLee(); NoPresidentInRobertLee(); NoCeoInRobertLee(); NoTitleGroup1("robert" + " lee", 10);
    NoCfoInRobertLee(); NoCooInRobertLee(); NoExecutiveInRobertLee(); NoTitleGroup2("robert" + " lee", 10);
    NoChairmanInRobertLee(); NoChairInRobertLee(); NoViceInRobertLee(); NoTitleGroup3("robert" + " lee", 10);
    NoSecretaryInRobertLee(); NoTreasurerInRobertLee(); NoOfficerInRobertLee(); NoTitleGroup4("robert" + " lee", 10);
    NoControllerInRobertLee(); NoManagerInRobertLee(); NoLeadInRobertLee(); NoTitleGroup5("robert" + " lee", 10);
    NoHeadInRobertLee(); NoSeniorInRobertLee(); NoJuniorInRobertLee(); NoTitleGroup6("robert" + " lee", 10);
    NoAssistantInRobertLee(); NoEmeritusInRobertLee(); NoIndependentInRobertLee(); NoTitleGroup7("robert" + " lee", 10);
    NoNonEmployeeInRobertLee(); NoEmployeeInRobertLee(); NoAuditInRobertLee(); NoTitleGroup8("robert" + " lee", 10);
    NoCompensationInRobertLee(); NoGovernanceInRobertLee(); NoNominatingInRobertLee(); NoTitleGroup9("robert" + " lee", 10);
    NoCommitteeInRobertLee(); NoRetiredInRobertLee(); NoFormerInRobertLee(); NoTitleGroup10("robert" + " lee", 10);
    NoFounderInRobertLee(); NoCurrentInRobertLee(); NoAndInRobertLee(); NoTitleGroup11("robert" + " lee", 10);
    NoAllInRobertLee(); NoTitleGroup12("robert" + " lee", 10);
    NoTitleWordStartsBefore("robert" + " lee", 10);
  }

  /** A name without a title is kept as it is. */
  lemma RobertLeeKept()
    ensures NameOfCell("Robert Lee", true, TitleWords) == Some("Robert Lee")
  {
    RobertHead(); RobertHeadChars();
    LeeSpaced(); LeeChars(); LeeUnmarked();
    ShapeConcat("Robert", " Lee", "robert", " lee");
    RobertText();
    PlainNameOfChars("Robert Lee", "robert" + " lee");
    NoTitleInRobertLee();
    PlainCellKept("Robert Lee", "robert" + " lee", TitleWords);
  }

  // "Jane A. Smith Chairman of the Board", piece by piece.
  lemma JaneHead() ensures PlainShape("Jane", "jane") { }
  lemma JaneHeadChars() ensures LowerChars("Jane", "jane") { }
  lemma InitialSpaced() ensures SpacedSingly(" A.") { }
  lemma InitialChars() ensures LowerChars(" A.", " a.") { }
  lemma InitialUnmarked() ensures Unmarked(" A.") { }
  lemma SmithSpaced() ensures SpacedSingly(" Smith") { }
  lemma SmithChars() ensures LowerChars(" Smith", " smith") { }
  lemma SmithUnmarked() ensures Unmarked(" Smith") { }
  lemma ChaSpaced() ensures SpacedSingly(" Cha") { }
  lemma ChaChars() ensures LowerChars(" Cha", " cha") { }
  lemma ChaUnmarked() ensures Unmarked(" Cha") { }
  lemma IrmanSpaced() ensures SpacedSingly("irman") { }
  lemma IrmanChars() ensures LowerChars("irman", "irman") { }
  lemma IrmanUnmarked() ensures Unmarked("irman") { }
  lemma OfSpaced() ensures SpacedSingly(" of") { }
  lemma OfChars() ensures LowerChars(" of", " of") { }
  lemma OfUnmarked() ensures Unmarked(" of") { }
  lemma TheSpaced() ensures SpacedSingly(" the") { }
  lemma TheChars() ensures LowerChars(" the", " the") { }
  lemma TheUnmarked() ensures Unmarked(" the") { }
  lemma BoardSpaced() ensures SpacedSingly(" Board") { }
  lemma BoardChars() ensures LowerChars(" Board", " board") { }
  lemma BoardUnmarked() ensures Unmarked(" Board") { }

  lemma JaneText() ensures "Jane" + " A." + " Smith" + " Cha" + "irman" + " of" + " the" + " Board" == "Jane A. Smith Chairman of the Board" { }
  lemma JaneNameEnd()
    ensures "Jane A. Smith Chairman of the Board"[13] == ' ' && !TrailingPunct("Jane A. Smith Chairman of the Board"[12])
  {
  }
  lemma JaneName() ensures "Jane A. Smith Chairman of the Board"[..13] == "Jane A. Smith" { }
  lemma JaneChairmanAt() ensures OccursAt("jane" + " a." + " smith" + " cha" + "irman" + " of" + " the" + " board", "chairman", 14) { }

  lemma NoChiefInJaneSmith() ensures StartsNowhereBefore("jane" + " a." + " smith" + " cha", "chief", 14) { }
  lemma NoPresidentInJaneSmith() ensures StartsNowhereBefore("jane" + " a." + " smith" + " cha", "president", 14) { }
  lemma NoCeoInJaneSmith() ensures StartsNowhereBefore("jane" + " a." + " smith" + " cha", "ceo", 14) { }
  lemma NoCfoInJaneSmith() ensures StartsNowhereBefore("jane" + " a." + " smith" + " cha", "cfo", 14) { }
  lemma NoCooInJaneSmith() ensures StartsNowhereBefore("jane" + " a." + " smith" + " cha", "coo", 14) { }
  lemma NoExecutiveInJaneSmith() ensures StartsNowhereBefore("jane" + " a." + " smith" + " cha", "executive", 14) { }
  lemma NoChairmanInJaneSmith() ensures StartsNowhereBefore("jane" + " a." + " smith" + " cha", "chairman", 14) { }
  lemma NoChairInJaneSmith() ensures StartsNowhereBefore("jane" + " a." + " smith" + " cha", "chair", 14) { }
  lemma NoViceInJaneSmith() ensures StartsNowhereBefore("jane" + " a." + " smith" + " cha", "vice", 14) { }
  lemma NoSecretaryInJaneSmith() ensures StartsNowhereBefore("jane" + " a." + " smith" + " cha", "secretary", 14) { }
  lemma NoTreasurerInJaneSmith() ensures StartsNowhereBefore("jane" + " a." + " smith" + " cha", "treasurer", 14) { }
  lemma NoOfficerInJaneSmith() ensures StartsNowhereBefore("jane" + " a." + " smith" + " cha", "officer", 14) { }
  lemma NoControllerInJaneSmith() ensures StartsNowhereBefore("jane" + " a." + " smith" + " cha", "controller", 14) { }
  lemma NoManagerInJaneSmith() ensures StartsNowhereBefore("jane" + " a." + " smith" + " cha", "manager", 14) { }
  lemma NoLeadInJaneSmith() ensures StartsNowhereBefore("jane" + " a." + " smith" + " cha", "lead", 14) { }
  lemma NoHeadInJaneSmith() ensures StartsNowhereBefore("jane" + " a." + " smith" + " cha", "head", 14) { }
  lemma NoSeniorInJaneSmith() ensures StartsNowhereBefore("jane" + " a." + " smith" + " cha", "senior", 14) { }
  lemma NoJuniorInJaneSmith() ensures StartsNowhereBefore("jane" + " a." + " smith" + " cha", "junior", 14) { }
  lemma NoAssistantInJaneSmith() ensures StartsNowhereBefore("jane" + " a." + " smith" + " cha", "assistant", 14) { }
  lemma NoEmeritusInJaneSmith() ensures StartsNowhereBefore("jane" + " a." + " smith" + " cha", "emeritus", 14) { }
  lemma NoIndependentInJaneSmith() ensures StartsNowhereBefore("jane" + " a." + " smith" + " cha", "independent", 14) { }
  lemma NoNonEmployeeInJaneSmith() ensures StartsNowhereBefore("jane" + " a." + " smith" + " cha", "non-employee", 14) { }
  lemma NoEmployeeInJaneSmith() ensures StartsNowhereBefore("jane" + " a." + " smith" + " cha", "employee", 14) { }
  lemma NoAuditInJaneSmith() ensures StartsNowhereBefore("jane" + " a." + " smith" + " cha", "audit", 14) { }
  lemma NoCompensationInJaneSmith() ensures StartsNowhereBefore("jane" + " a." + " smith" + " cha", "compensation", 14) { }
  lemma NoGovernanceInJaneSmith() ensures StartsNowhereBefore("jane" + " a." + " smith" + " cha", "governance", 14) { }
  lemma NoNominatingInJaneSmith() ensures StartsNowhereBefore("jane" + " a." + " smith" + " cha", "nominating", 14) { }
  lemma NoCommitteeInJaneSmith() ensures StartsNowhereBefore("jane" + " a." + " smith" + " cha", "committee", 14) { }
  lemma NoRetiredInJaneSmith() ensures StartsNowhereBefore("jane" + " a." + " smith" + " cha", "retired", 14) { }
  lemma NoFormerInJaneSmith() ensures StartsNowhereBefore("jane" + " a." + " smith" + " cha", "former", 14) { }
  lemma NoFounderInJaneSmith() ensures StartsNowhereBefore("jane" + " a." + " smith" + " cha", "founder", 14) { }
  lemma NoCurrentInJaneSmith() ensures StartsNowhereBefore("jane" + " a." + " smith" + " cha", "current", 14) { }
  lemma NoAndInJaneSmith() ensures StartsNowhereBefore("jane" + " a." + " smith" + " cha", "and", 14) { }
  lemma NoAllInJaneSmith() ensures StartsNowhereBefore("jane" + " a." + " smith" + " cha", "all", 14) { }

  /** No title word starts in "jane a. smith chairman of the board" before "chairman". */
  lemma NoTitleBeforeChairman()
    ensures NoWordStartsBefore("jane" + " a." + " smith" + " cha" + "irman" + " of" + " the" + " board", TitleWords, 14)
  {
    NoChiefInJaneSmith(); NoPresidentInJaneSmith(); NoCeoInJaneSmith(); NoTitleGroup1("jane" + " a." + " smith" + " cha", 14);
    NoCfoInJaneSmith(); NoCooInJaneSmith(); NoExecutiveInJaneSmith(); NoTitleGroup2("jane" + " a." + " smith" + " cha", 14);
    NoChairmanInJaneSmith(); NoChairInJaneSmith(); NoViceInJaneSmith(); NoTitleGroup3("jane" + " a." + " smith" + " cha", 14);
    NoSecretaryInJaneSmith(); NoTreasurerInJaneSmith(); NoOfficerInJaneSmith(); NoTitleGroup4("jane" + " a." + " smith" + " cha", 14);
    NoControllerInJaneSmith(); NoManagerInJaneSmith(); NoLeadInJaneSmith(); NoTitleGroup5("jane" + " a." + " smith" + " cha", 14);
    NoHeadInJaneSmith(); NoSeniorInJaneSmith(); NoJuniorInJaneSmith(); NoTitleGroup6("jane" + " a." + " smith" + " cha", 14);
    NoAssistantInJaneSmith(); NoEmeritusInJaneSmith(); NoIndependentInJaneSmith(); NoTitleGroup7("jane" + " a." + " smith" + " cha", 14);
    NoNonEmployeeInJaneSmith(); NoEmployeeInJaneSmith(); NoAuditInJaneSmith(); NoTitleGroup8("jane" + " a." + " smith" + " cha", 14);
    NoCompensationInJaneSmith(); NoGovernanceInJaneSmith(); NoNominatingInJaneSmith(); NoTitleGroup9("jane" + " a." + " smith" + " cha", 14);
    NoCommitteeInJaneSmith(); NoRetiredInJaneSmith(); NoFormerInJaneSmith(); NoTitleGroup10("jane" + " a." + " smith" + " cha", 14);
    NoFounderInJaneSmith(); NoCurrentInJaneSmith(); NoAndInJaneSmith(); NoTitleGroup11("jane" + " a." + " smith" + " cha", 14);
    NoAllInJaneSmith(); NoTitleGroup12("jane" + " a." + " smith" + " cha", 14);
    NoTitleWordStartsBefore("jane" + " a." + " smith" + " cha", 14);
    NoWordStartsBeforeExtended("jane" + " a." + " smith" + " cha", "irman", TitleWords, 14);
    NoWordStartsBeforeExtended("jane" + " a." + " smith" + " cha" + "irman", " of", TitleWords, 14);
    NoWordStartsBeforeExtended("jane" + " a." + " smith" + " cha" + "irman" + " of", " the", TitleWords, 14);
    NoWordStartsBeforeExtended("jane" + " a." + " smith" + " cha" + "irman" + " of" + " the", " board", TitleWords, 14);
  }

  lemma JanePlain()
    ensures PlainName("Jane A. Smith Chairman of the Board", "jane" + " a." + " smith" + " cha" + "irman" + " of" + " the" + " board")
  {
    JaneHead(); JaneHeadChars();
    InitialSpaced(); InitialChars(); InitialUnmarked(); SmithSpaced(); SmithChars(); SmithUnmarked(); ChaSpaced(); ChaChars(); ChaUnmarked(); IrmanSpaced(); IrmanChars(); IrmanUnmarked(); OfSpaced(); OfChars(); OfUnmarked(); TheSpaced(); TheChars(); TheUnmarked(); BoardSpaced(); BoardChars(); BoardUnmarked();
    ShapeConcat("Jane", " A.", "jane", " a.");
    ShapeConcat("Jane" + " A.", " Smith", "jane" + " a.", " smith");
    ShapeConcat("Jane" + " A." + " Smith", " Cha", "jane" + " a." + " smith", " cha");
    ShapeConcat("Jane" + " A." + " Smith" + " Cha", "irman", "jane" + " a." + " smith" + " cha", "irman");
    ShapeConcat("Jane" + " A." + " Smith" + " Cha" + "irman", " of", "jane" + " a." + " smith" + " cha" + "irman", " of");
    ShapeConcat("Jane" + " A." + " Smith" + " Cha" + "irman" + " of", " the", "jane" + " a." + " smith" + " cha" + "irman" + " of", " the");
    ShapeConcat("Jane" + " A." + " Smith" + " Cha" + "irman" + " of" + " the", " Board", "jane" + " a." + " smith" + " cha" + "irman" + " of" + " the", " board");
    JaneText();
    PlainNameOfChars("Jane A. Smith Chairman of the Board", "jane" + " a." + " smith" + " cha" + "irman" + " of" + " the" + " board");
  }

  lemma JaneChairman()
    ensures OccursAt("jane" + " a." + " smith" + " cha" + "irman" + " of" + " the" + " board", TitleWords[6], 14)
  {
    JaneChairmanAt();
    assert TitleWords[6] == "chairman";
  }

  /** A plain cell whose earliest title word is "chairman" at offset 14, after a space, keeps its first 13 characters. */
  lemma CutBeforeChairman(cell: string, lower: string)
    requires PlainName(cell, lower) && OccursAt(lower, TitleWords[6], 14) && NoWordStartsBefore(lower, TitleWords, 14)
    requires |cell| > 14 && cell[13] == ' ' && !TrailingPunct(cell[12])
    ensures NameOfCell(cell, true, TitleWords) == Some(cell[..13])
  {
    TitledCellCut(cell, lower, TitleWords, 6, 14);
  }

  lemma JaneCutAtChairman()
    ensures NameOfCell("Jane A. Smith Chairman of the Board", true, TitleWords) ==
      Some("Jane A. Smith Chairman of the Board"[..13])
  {
    JanePlain();
    JaneChairman();
    NoTitleBeforeChairman();
    JaneNameEnd();
    CutBeforeChairman("Jane A. Smith Chairman of the Board", "jane" + " a." + " smith" + " cha" + "irman" + " of" + " the" + " board");
  }

  /** A name followed by a board title keeps the name. */
  lemma JaneSmithChairmanCut()
    ensures NameOfCell("Jane A. Smith Chairman of the Board", true, TitleWords) == Some("Jane A. Smith")
  {
    JaneCutAtChairman();
    JaneName();
  }
}
