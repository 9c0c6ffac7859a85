/**
 * The column detector `has_name_column` (debug2.py:49-97, with the exclusion list; the same
 * in def14ARevised.py:38-76 and tableApproach.py:48-75; without it in def14Adebug.py:39-82
 * and def14A.py:36-53) and the numeric-column confirmation `has_numeric_columns`
 * (tableApproach.py:129-147).
 */
module Columns {

  import opened Wrappers
  import opened Text
  import opened Document

  /** Only the first five rows are searched for a header cell. */
  const HeaderRowLimit := 5

  /** Cells naming something other than a person. */
  const ExcludedPhrases := ["plan name", "award name", "grant name", "program name"]

  /**
   * The test applied to each cell: its cleaned, lower-cased text is non-empty, contains
   * "name" and, when exclusions apply, none of the excluded phrases.
   */
  predicate IsNameHeader(cell: string, exclude: bool) {
    var t := Lower(CleanText(cell));
    t != "" && Contains(t, "name") &&
    !(exclude && exists j :: 0 <= j < |ExcludedPhrases| && Contains(t, ExcludedPhrases[j]))
  }

  /** The header test applied to every cell of a row. */
  function RowFlags(cells: Row, exclude: bool): (r: seq<bool>)
    ensures |r| == |cells|
    ensures forall c {:trigger r[c]} :: 0 <= c < |cells| ==> r[c] == IsNameHeader(cells[c], exclude)
  {
    seq(|cells|, c requires 0 <= c < |cells| => IsNameHeader(cells[c], exclude))
  }

  /** The header test applied to every cell of a table. */
  function HeaderFlags(rows: seq<Row>, exclude: bool): (r: seq<seq<bool>>)
    ensures |r| == |rows|
    ensures forall i {:trigger r[i]} :: 0 <= i < |rows| ==> r[i] == RowFlags(rows[i], exclude)
  {
    seq(|rows|, i requires 0 <= i < |rows| => RowFlags(rows[i], exclude))
  }

  /** The leftmost set flag in `flags[from..]`. */
  function FirstSet(flags: seq<bool>, from: nat): (r: Option<nat>)
    requires from <= |flags|
    decreases |flags| - from
    ensures r.Some? ==> from <= r.value < |flags| && flags[r.value]
    ensures forall j :: from <= j < (if r.Some? then r.value else |flags|) ==> !flags[j]
  {
    if from == |flags| then None
    else if flags[from] then Some(from)
    else FirstSet(flags, from + 1)
  }

  /** `FirstSet` from the start finds `t` exactly when `t` is the first set flag. */
  lemma FirstSetIff(flags: seq<bool>, t: int)
    ensures FirstSet(flags, 0) == Some(t) <==> 0 <= t < |flags| && flags[t] && forall u :: 0 <= u < t ==> !flags[u]
  {
  }

  /** Row `i` is one the detector reads: among the first five and with at least two cells. */
  predicate Scanned(flags: seq<seq<bool>>, i: int) {
    0 <= i < |flags| && i < HeaderRowLimit && |flags[i]| >= 2
  }

  /** Flag `c` of a row the detector reads is set. */
  predicate SetAt(flags: seq<seq<bool>>, i: int, c: int) {
    Scanned(flags, i) && 0 <= c < |flags[i]| && flags[i][c]
  }

  /** The detector's answer when it starts at row `i`. */
  function NameColumnFrom(flags: seq<seq<bool>>, i: nat): Option<nat>
    requires i <= |flags|
    decreases |flags| - i
  {
    if i == |flags| || i >= HeaderRowLimit then None
    else if |flags[i]| >= 2 && FirstSet(flags[i], 0).Some? then FirstSet(flags[i], 0)
    else NameColumnFrom(flags, i + 1)
  }

  /** `has_name_column`: the column of the first name header in row-major order, if any. */
  function NameColumn(rows: seq<Row>, exclude: bool): Option<nat> {
    NameColumnFrom(HeaderFlags(rows, exclude), 0)
  }

  /** Cell `c` of row `i` is a name header in a row the detector reads. */
  predicate NameCellAt(rows: seq<Row>, exclude: bool, i: int, c: int) {
    0 <= i < |rows| && i < HeaderRowLimit && |rows[i]| >= 2 && 0 <= c < |rows[i]| && IsNameHeader(rows[i][c], exclude)
  }

  lemma {:induction false} NameColumnFromIff(flags: seq<seq<bool>>, i: nat, c: int)
    requires i <= |flags|
    decreases |flags| - i
    ensures NameColumnFrom(flags, i) == Some(c) <==>
      exists r :: i <= r && SetAt(flags, r, c) &&
        (forall c' :: 0 <= c' < c ==> !SetAt(flags, r, c')) &&
        (forall r', c' :: i <= r' < r ==> !SetAt(flags, r', c'))
  {
    if i < |flags| && i < HeaderRowLimit {
      var first := FirstSet(flags[i], 0);
      if |flags[i]| >= 2 && first.Some? {
        if NameColumnFrom(flags, i) == Some(c) {
          assert SetAt(flags, i, c);
        }
        forall r | i <= r && SetAt(flags, r, c) &&
            (forall c' :: 0 <= c' < c ==> !SetAt(flags, r, c')) &&
            (forall r', c' :: i <= r' < r ==> !SetAt(flags, r', c'))
          ensures Some(c) == first
        {
          assert SetAt(flags, i, first.value);
          assert r == i;
          assert flags[i][c];
        }
      } else {
        NameColumnFromIff(flags, i + 1, c);
        forall c' ensures !SetAt(flags, i, c') {
          if first.None? && 0 <= c' < |flags[i]| {
            assert !flags[i][c'];
          }
        }
      }
    }
  }

  /** The flags of a table mark exactly its name headers in the rows the detector reads. */
  lemma FlagsMarkNameCells(rows: seq<Row>, exclude: bool, i: int, c: int)
    ensures SetAt(HeaderFlags(rows, exclude), i, c) == NameCellAt(rows, exclude, i, c)
  {
    if 0 <= i < |rows| {
      assert HeaderFlags(rows, exclude)[i] == RowFlags(rows[i], exclude);
    }
  }

  /**
   * A result of `has_name_column` is exactly a name header in one of the first five rows
   * having at least two cells, with no name header before it in row-major order.
   */
  lemma NameColumnIsFirst(rows: seq<Row>, exclude: bool, c: int)
    ensures NameColumn(rows, exclude) == Some(c) <==>
      exists r :: NameCellAt(rows, exclude, r, c) &&
        (forall c' :: 0 <= c' < c ==> !NameCellAt(rows, exclude, r, c')) &&
        (forall r', c' :: 0 <= r' < r ==> !NameCellAt(rows, exclude, r', c'))
  {
    var flags := HeaderFlags(rows, exclude);
    NameColumnFromIff(flags, 0, c);
    forall r, c' ensures SetAt(flags, r, c') == NameCellAt(rows, exclude, r, c') {
      FlagsMarkNameCells(rows, exclude, r, c');
    }
  }

  /** `has_name_column` gives None exactly when no scanned cell is a name header. */
  lemma NameColumnNone(rows: seq<Row>, exclude: bool)
    ensures NameColumn(rows, exclude) == None <==> forall r, c :: !NameCellAt(rows, exclude, r, c)
  {
    var flags := HeaderFlags(rows, exclude);
    if NameColumn(rows, exclude) == None {
      forall r, c ensures !NameCellAt(rows, exclude, r, c) {
        FlagsMarkNameCells(rows, exclude, r, c);
        if SetAt(flags, r, c) {
          NameColumnFromSome(flags, 0, r, c);
        }
      }
    } else {
      var c := NameColumn(rows, exclude).value;
      NameColumnIsFirst(rows, exclude, c);
    }
  }

  /** A set flag at or after row `i` makes the detector succeed from row `i`. */
  lemma {:induction false} NameColumnFromSome(flags: seq<seq<bool>>, i: nat, r: int, c: int)
    requires i <= r && i <= |flags| && SetAt(flags, r, c)
    decreases |flags| - i
    ensures NameColumnFrom(flags, i).Some?
  {
    if FirstSet(flags[i], 0).None? || |flags[i]| < 2 {
      if FirstSet(flags[i], 0).None? && c < |flags[i]| {
        assert !flags[i][c];
      }
      NameColumnFromSome(flags, i + 1, r, c);
    }
  }

  /** Rows after the fifth never affect `has_name_column`. */
  lemma NameColumnIgnoresLaterRows(rows: seq<Row>, exclude: bool)
    ensures |rows| > HeaderRowLimit ==> NameColumn(rows, exclude) == NameColumn(rows[..HeaderRowLimit], exclude)
  {
    if |rows| > HeaderRowLimit {
      var flags := HeaderFlags(rows, exclude);
      NameColumnFromPrefix(flags, 0);
      assert HeaderFlags(rows[..HeaderRowLimit], exclude) == flags[..HeaderRowLimit];
    }
  }

  lemma {:induction false} NameColumnFromPrefix(flags: seq<seq<bool>>, i: nat)
    requires i <= |flags|
    decreases |flags| - i
    ensures i <= HeaderRowLimit && |flags| > HeaderRowLimit ==>
      NameColumnFrom(flags, i) == NameColumnFrom(flags[..HeaderRowLimit], i)
  {
    if i < HeaderRowLimit && |flags| > HeaderRowLimit {
      NameColumnFromPrefix(flags, i + 1);
      assert flags[..HeaderRowLimit][i] == flags[i];
    }
  }

  /** The inner loop of `has_name_column`: the first header cell of one row, if any. */
  method FindNameCell(cells: Row, exclude: bool) returns (r: Option<nat>)
    ensures r == FirstSet(RowFlags(cells, exclude), 0)
  {
    var j := 0;
    while j < |cells|
      invariant 0 <= j <= |cells|
      invariant FirstSet(RowFlags(cells, exclude), 0) == FirstSet(RowFlags(cells, exclude), j)
    {
      if IsNameHeader(cells[j], exclude) {
        return Some(j);
      }
      j := j + 1;
    }
    return None;
  }

  /** `has_name_column` as the loops of the source: stops at the first header cell. */
  method HasNameColumn(rows: seq<Row>, exclude: bool) returns (r: Option<nat>)
    ensures r == NameColumn(rows, exclude)
  {
    if |rows| == 0 {
      return None;
    }
    ghost var flags := HeaderFlags(rows, exclude);
    var i := 0;
    while i < |rows| && i < HeaderRowLimit
      invariant 0 <= i <= |rows|
      invariant NameColumn(rows, exclude) == NameColumnFrom(flags, i)
    {
      var cells := rows[i];
      assert flags[i] == RowFlags(cells, exclude);
      if |cells| >= 2 {
        var found := FindNameCell(cells, exclude);
        if found.Some? {
          return found;
        }
      }
      i := i + 1;
    }
    return None;
  }

  predicate DigitOrComma(c: char) {
    IsDigit(c) || c == ','
  }

  /** `[\d,]+\.\d{2}` matches with its dot at offset `i`. */
  predicate AmountAt(s: string, i: int) {
    1 <= i && i + 2 < |s| && DigitOrComma(s[i - 1]) && s[i] == '.' && IsDigit(s[i + 1]) && IsDigit(s[i + 2])
  }

  /** `[\d,]{4,}` matches at offset `i`. */
  predicate FigureAt(s: string, i: int) {
    0 <= i && i + 3 < |s| &&
    DigitOrComma(s[i]) && DigitOrComma(s[i + 1]) && DigitOrComma(s[i + 2]) && DigitOrComma(s[i + 3])
  }

  /** `re.search(r'\$|[\d,]+\.\d{2}|[\d,]{4,}', s)` finds a match. */
  predicate LooksNumeric(s: string) {
    '$' in s || (exists i :: 0 <= i < |s| && AmountAt(s, i)) || (exists i :: 0 <= i < |s| && FigureAt(s, i))
  }

  /** Only the data rows before this one are inspected for numbers. */
  const NumericRowLimit := 4

  /** A data row with at least two cells, some cell after the first of which looks numeric. */
  predicate NumericRow(cells: Row) {
    |cells| >= 2 && exists c :: 1 <= c < |cells| && LooksNumeric(CleanText(cells[c]))
  }

  /** Some inspected row, among rows 1 to 3, holds a dollar sign, a two-decimal amount or a 4+ digit figure. */
  predicate HasNumericCells(rows: seq<Row>) {
    exists i :: 1 <= i < |rows| && i < NumericRowLimit && NumericRow(rows[i])
  }

  /** The inner loop of `has_numeric_columns`: one row's cells after the first. */
  method NumericCells(cells: Row) returns (r: bool)
    ensures r == NumericRow(cells)
  {
    if |cells| < 2 {
      return false;
    }
    var j := 1;
    while j < |cells|
      invariant 1 <= j <= |cells|
      invariant forall c :: 1 <= c < j ==> !LooksNumeric(CleanText(cells[c]))
    {
      if LooksNumeric(CleanText(cells[j])) {
        return true;
      }
      j := j + 1;
    }
    return false;
  }

  /** `has_numeric_columns`: early return on the first numeric cell of rows 1 to 3. */
  method HasNumericColumns(rows: seq<Row>) returns (r: bool)
    ensures r == HasNumericCells(rows)
    ensures |rows| < 2 ==> !r
  {
    if |rows| < 2 {
      return false;
    }
    var i := 1;
    while i < |rows| && i < NumericRowLimit
      invariant 1 <= i <= |rows|
      invariant forall i' :: 1 <= i' < i ==> !NumericRow(rows[i'])
    {
      var found := NumericCells(rows[i]);
      if found {
        return true;
      }
      i := i + 1;
    }
    return false;
  }
}
