/**
 * Character classes, substring search and the whitespace normaliser `clean_text`
 * (debug2.py:37-44; identical in def14ARevised.py:31-36, tableApproach.py:37-43,
 * def14Adebug.py:30-37 and def14A.py:29-34).
 *
 * Python's `\s`, `str.isspace()` and `str.strip()` are modelled on ASCII whitespace plus
 * NEL (U+0085) and NO-BREAK SPACE (U+00A0); `str.lower()` on ASCII letters.
 */
module Text {

  import opened Wrappers

  /** A whitespace character in the sense of `\s` and `str.strip()`. */
  predicate IsSpace(c: char) {
    c == ' ' || ('\t' <= c <= '\r') || ('\U{1C}' <= c <= '\U{1F}') || c == '\U{85}' || c == '\U{A0}'
  }

  /** The character class `[\n\r\t]`. */
  predicate IsBreak(c: char) {
    c == '\n' || c == '\r' || c == '\t'
  }

  predicate IsDigit(c: char) {
    '0' <= c <= '9'
  }

  function LowerChar(c: char): char {
    if 'A' <= c <= 'Z' then (c as int + 32) as char else c
  }

  /** `s.lower()`: lower-cases ASCII letters and keeps every other character in place. */
  function Lower(s: string): (r: string)
    ensures |r| == |s|
    ensures forall i {:trigger r[i]} :: 0 <= i < |s| ==> r[i] == LowerChar(s[i])
  {
    if s == [] then [] else [LowerChar(s[0])] + Lower(s[1..])
  }

  /** `l` is the lower-cased `s`. */
  lemma LowerIs(s: string, l: string)
    requires |s| == |l| && forall i :: 0 <= i < |s| ==> LowerChar(s[i]) == l[i]
    ensures Lower(s) == l
  {
  }

  /** `s` begins with `p` (`str.startswith`). */
  predicate StartsWith(s: string, p: string) {
    |p| <= |s| && s[..|p|] == p
  }

  /** `sub` occurs in `s` at offset `i`. */
  predicate OccursAt(s: string, sub: string, i: int) {
    0 <= i && i + |sub| <= |s| && forall j :: 0 <= j < |sub| ==> s[i + j] == sub[j]
  }

  /** `s.find(sub, from)`: the first offset at or after `from` where `sub` occurs, or -1. */
  function FindFrom(s: string, sub: string, from: nat): int
    requires from <= |s|
    decreases |s| - from
  {
    if OccursAt(s, sub, from) then from
    else if from == |s| then -1
    else FindFrom(s, sub, from + 1)
  }

  /** `FindFrom` gives an occurrence with none before it, or -1 when there is none at all. */
  lemma {:induction false} FindFromSpec(s: string, sub: string, from: nat)
    requires from <= |s|
    decreases |s| - from
    ensures var r := FindFrom(s, sub, from);
      (r == -1 || (from <= r <= |s| && OccursAt(s, sub, r))) &&
      forall j :: from <= j < (if r == -1 then |s| + 1 else r) ==> !OccursAt(s, sub, j)
  {
    if !OccursAt(s, sub, from) && from < |s| {
      FindFromSpec(s, sub, from + 1);
    }
  }

  /** `s.find(sub)`. */
  function Find(s: string, sub: string): int {
    FindFrom(s, sub, 0)
  }

  /** `sub in s`. */
  predicate Contains(s: string, sub: string) {
    Find(s, sub) >= 0
  }

  /** `sub in s` holds exactly when `sub` occurs somewhere in `s`. */
  lemma ContainsIff(s: string, sub: string)
    ensures Contains(s, sub) <==> exists i :: OccursAt(s, sub, i)
  {
    FindFromSpec(s, sub, 0);
    if exists i :: OccursAt(s, sub, i) {
      var i :| OccursAt(s, sub, i);
      assert i <= |s|;
    }
  }

  /** The two character classes that `clean_text` collapses: `[\n\r\t]` and `\s`. */
  datatype CharClass = Breaks | Spaces

  predicate In(cls: CharClass, c: char) {
    match cls
    case Breaks => IsBreak(c)
    case Spaces => IsSpace(c)
  }

  /**
   * The index of the first of `words[from..]` that occurs in `text`: the
   * `for keyword in keywords: if keyword in text: ...` search with the first match winning.
   */
  function FirstContained(text: string, words: seq<string>, from: nat): Option<nat>
    requires from <= |words|
    decreases |words| - from
  {
    if from == |words| then None
    else if Contains(text, words[from]) then Some(from)
    else FirstContained(text, words, from + 1)
  }

  /** `FirstContained` finds a word contained in `text` with none before it, or None when there is none. */
  lemma {:induction false} FirstContainedSpec(text: string, words: seq<string>, from: nat)
    requires from <= |words|
    decreases |words| - from
    ensures var r := FirstContained(text, words, from);
      (r.Some? ==> from <= r.value < |words| && Contains(text, words[r.value])) &&
      forall j :: from <= j < (if r.Some? then r.value else |words|) ==> !Contains(text, words[j])
  {
    if from < |words| && !Contains(text, words[from]) {
      FirstContainedSpec(text, words, from + 1);
    }
  }

  /** Drops the leading characters of class `cls`. */
  function DropLeading(s: string, cls: CharClass): (r: string)
    ensures |r| <= |s|
    ensures r != [] ==> !In(cls, r[0])
  {
    if s != [] && In(cls, s[0]) then DropLeading(s[1..], cls) else s
  }

  /** Drops the trailing characters of class `cls`. */
  function DropTrailing(s: string, cls: CharClass): (r: string)
    ensures |r| <= |s|
    ensures r != [] ==> !In(cls, r[|r| - 1])
  {
    if s != [] && In(cls, s[|s| - 1]) then DropTrailing(s[..|s| - 1], cls) else s
  }

  /** What `DropLeading` keeps is a suffix of its input, and what it drops is all of class `cls`. */
  lemma {:induction false} DropLeadingSuffix(s: string, cls: CharClass)
    ensures DropLeading(s, cls) == s[|s| - |DropLeading(s, cls)|..]
    ensures forall i :: 0 <= i < |s| - |DropLeading(s, cls)| ==> In(cls, s[i])
  {
    if s != [] && In(cls, s[0]) {
      DropLeadingSuffix(s[1..], cls);
      assert s[1..][|s| - 1 - |DropLeading(s, cls)|..] == s[|s| - |DropLeading(s, cls)|..];
    }
  }

  /** What `DropTrailing` keeps is a prefix of its input, and what it drops is all of class `cls`. */
  lemma {:induction false} DropTrailingPrefix(s: string, cls: CharClass)
    ensures DropTrailing(s, cls) == s[..|DropTrailing(s, cls)|]
    ensures forall i :: |DropTrailing(s, cls)| <= i < |s| ==> In(cls, s[i])
  {
    if s != [] && In(cls, s[|s| - 1]) {
      DropTrailingPrefix(s[..|s| - 1], cls);
      assert s[..|s| - 1][..|DropTrailing(s, cls)|] == s[..|DropTrailing(s, cls)|];
    }
  }

  /** `s.strip()`. */
  function Strip(s: string): string {
    DropTrailing(DropLeading(s, Spaces), Spaces)
  }

  /** Stripping text that does not end in whitespace keeps its last character last. */
  lemma StripKeepsLast(s: string)
    requires s != [] && !IsSpace(s[|s| - 1])
    ensures Strip(s) != [] && Strip(s)[|Strip(s)| - 1] == s[|s| - 1]
  {
    var t := DropLeading(s, Spaces);
    DropLeadingSuffix(s, Spaces);
    assert |t| > 0 && t[|t| - 1] == s[|s| - 1];
    DropTrailingPrefix(t, Spaces);
  }

  /**
   * `re.sub(r'[...]+', ' ', s)` for the character class `p`: every maximal run of
   * characters satisfying `p` becomes one space; every other character is kept.
   */
  function CollapseRuns(s: string, cls: CharClass): (r: string)
    decreases |s|
    ensures |r| <= |s|
    ensures r == [] <==> s == []
    ensures s != [] ==> r[0] == (if In(cls, s[0]) then ' ' else s[0])
  {
    if s == [] then []
    else if In(cls, s[0]) then [' '] + CollapseRuns(DropLeading(s[1..], cls), cls)
    else [s[0]] + CollapseRuns(s[1..], cls)
  }

  /**
   * `clean_text`: runs of `\n\r\t` become one space, then runs of whitespace become one
   * space, then the ends are stripped. Empty input gives "" (the `if not text` branch).
   */
  function CleanText(s: string): string {
    Strip(CollapseRuns(CollapseRuns(s, Breaks), Spaces))
  }

  /** Inside `s` the only whitespace is a single space between two other characters. */
  predicate SpacedSingly(s: string) {
    (forall i :: 0 <= i < |s| && IsSpace(s[i]) ==> s[i] == ' ') &&
    (forall i :: 0 <= i < |s| - 1 && s[i] == ' ' ==> s[i + 1] != ' ')
  }

  /** Whitespace-normalised text: single inner spaces, no other whitespace, no edge spaces. */
  predicate Normalized(s: string) {
    SpacedSingly(s) && (s != [] ==> !IsSpace(s[0]) && !IsSpace(s[|s| - 1]))
  }

  /** `s.strip()` is the slice of `s` starting at offset `a`. */
  lemma StripSlice(s: string) returns (a: nat)
    ensures a + |Strip(s)| <= |s| && Strip(s) == s[a..a + |Strip(s)|]
  {
    var d := DropLeading(s, Spaces);
    DropLeadingSuffix(s, Spaces);
    DropTrailingPrefix(d, Spaces);
    a := |s| - |d|;
  }

  /** Lower-casing commutes with slicing. */
  lemma LowerSlice(s: string, a: nat, b: nat)
    requires a <= b <= |s|
    ensures Lower(s[a..b]) == Lower(s)[a..b]
  {
    var l := Lower(s[a..b]);
    var m := Lower(s)[a..b];
    forall k | 0 <= k < b - a ensures l[k] == m[k] {
      assert l[k] == LowerChar(s[a + k]);
    }
  }

  /** Every slice of singly spaced text is singly spaced. */
  lemma SliceSpacedSingly(s: string, i: nat, j: nat)
    requires i <= j <= |s|
    requires SpacedSingly(s)
    ensures SpacedSingly(s[i..j])
  {
    var t := s[i..j];
    forall k | 0 <= k < |t| - 1 && t[k] == ' ' ensures t[k + 1] != ' ' {
      assert s[i + k] == ' ';
    }
  }

  /** Stripping singly spaced text gives normalised text. */
  lemma StripNormalizes(s: string)
    requires SpacedSingly(s)
    ensures Normalized(Strip(s))
  {
    var a := DropLeading(s, Spaces);
    DropLeadingSuffix(s, Spaces);
    SliceSpacedSingly(s, |s| - |a|, |s|);
    var b := DropTrailing(a, Spaces);
    DropTrailingPrefix(a, Spaces);
    SliceSpacedSingly(a, 0, |b|);
    assert b != [] ==> b[0] == a[0];
  }

  /**
   * What collapsing produces: every character is a space or a character of `s` outside the
   * class, and when the class contains the space a space is never followed by a class member.
   */
  lemma {:induction false} CollapseShape(s: string, cls: CharClass)
    decreases |s|
    ensures forall i :: 0 <= i < |CollapseRuns(s, cls)| ==>
      CollapseRuns(s, cls)[i] == ' ' || (!In(cls, CollapseRuns(s, cls)[i]) && CollapseRuns(s, cls)[i] in s)
    ensures In(cls, ' ') ==> forall i :: 0 <= i < |CollapseRuns(s, cls)| - 1 && CollapseRuns(s, cls)[i] == ' ' ==>
      !In(cls, CollapseRuns(s, cls)[i + 1])
  {
    if s != [] {
      var r := CollapseRuns(s, cls);
      var rest := if In(cls, s[0]) then DropLeading(s[1..], cls) else s[1..];
      CollapseShape(rest, cls);
      var tail := CollapseRuns(rest, cls);
      assert r == [r[0]] + tail;
      if In(cls, s[0]) {
        DropLeadingSuffix(s[1..], cls);
      }
      forall c | c in rest ensures c in s {
        var k :| 0 <= k < |rest| && rest[k] == c;
        assert s[|s| - |rest| + k] == c;
      }
      if In(cls, ' ') {
        forall i | 0 <= i < |r| - 1 && r[i] == ' ' ensures !In(cls, r[i + 1]) {
          if i == 0 {
            assert r[1] == tail[0];
            assert In(cls, s[0]);
          } else {
            assert r[i] == tail[i - 1];
          }
        }
      }
    }
  }

  /** Collapsing whitespace runs and stripping gives normalised text. */
  lemma CollapseStripNormalizes(s: string)
    ensures Normalized(Strip(CollapseRuns(s, Spaces)))
  {
    var c := CollapseRuns(s, Spaces);
    CollapseShape(s, Spaces);
    forall i | 0 <= i < |c| - 1 && c[i] == ' ' ensures c[i + 1] != ' ' {
      assert !IsSpace(c[i + 1]);
    }
    StripNormalizes(c);
  }

  /**
   * The result of `clean_text` is normalised: no `\n`, `\r` or `\t`, no two adjacent
   * spaces, no leading or trailing whitespace, and "" for "".
   */
  lemma CleanTextNormalized(s: string)
    ensures Normalized(CleanText(s))
    ensures forall i :: 0 <= i < |CleanText(s)| ==> !IsBreak(CleanText(s)[i])
    ensures s == [] ==> CleanText(s) == []
  {
    var c := CleanText(s);
    CollapseStripNormalizes(CollapseRuns(s, Breaks));
    forall i | 0 <= i < |c| ensures !IsBreak(c[i]) {
      if IsSpace(c[i]) {
        assert c[i] == ' ';
      }
    }
  }

  /** Collapsing leaves text alone whose `p`-characters are lone spaces. */
  lemma {:induction false} CollapseFixed(s: string, cls: CharClass)
    requires forall i :: 0 <= i < |s| && In(cls, s[i]) ==> s[i] == ' ' && (i + 1 == |s| || !In(cls, s[i + 1]))
    ensures CollapseRuns(s, cls) == s
  {
    if s != [] {
      var t := s[1..];
      assert forall i :: 0 <= i < |t| && In(cls, t[i]) ==> t[i] == ' ' && (i + 1 == |t| || !In(cls, t[i + 1])) by {
        forall i | 0 <= i < |t| && In(cls, t[i]) ensures t[i] == ' ' && (i + 1 == |t| || !In(cls, t[i + 1])) {
          assert s[i + 1] == t[i];
        }
      }
      CollapseFixed(t, cls);
      if In(cls, s[0]) {
        assert DropLeading(t, cls) == t by {
          if t != [] { assert !In(cls, t[0]); }
        }
      }
    }
  }

  /** `clean_text` leaves normalised text unchanged. */
  lemma CleanTextFixesNormalized(s: string)
    requires Normalized(s)
    ensures CleanText(s) == s
  {
    forall i | 0 <= i < |s| ensures !IsBreak(s[i]) {
      if IsSpace(s[i]) {
        assert s[i] == ' ';
      }
    }
    CollapseFixed(s, Breaks);
    forall i | 0 <= i < |s| && IsSpace(s[i])
      ensures s[i] == ' ' && (i + 1 == |s| || !IsSpace(s[i + 1]))
    {
      assert s[i] == ' ';
      assert i + 1 < |s| ==> s[i + 1] != ' ';
    }
    CollapseFixed(s, Spaces);
    assert DropLeading(s, Spaces) == s;
    assert DropTrailing(s, Spaces) == s;
  }

  /** `clean_text(clean_text(s)) == clean_text(s)`. */
  lemma CleanTextIdempotent(s: string)
    ensures CleanText(CleanText(s)) == CleanText(s)
  {
    CleanTextNormalized(s);
    CleanTextFixesNormalized(CleanText(s));
  }

  /** Stripping keeps only characters of its input. */
  lemma StripKeepsCharacters(s: string, c: char)
    requires c in Strip(s)
    ensures c in s
  {
    var a := DropLeading(s, Spaces);
    var b := Strip(s);
    DropLeadingSuffix(s, Spaces);
    DropTrailingPrefix(a, Spaces);
    var k :| 0 <= k < |b| && b[k] == c;
    assert a[k] == c;
    assert s[|s| - |a| + k] == c;
  }

  /** `clean_text` introduces no character other than a space. */
  lemma CleanTextKeepsCharacters(s: string, c: char)
    requires c != ' ' && c in CleanText(s)
    ensures c in s
  {
    var a := CollapseRuns(s, Breaks);
    var b := CollapseRuns(a, Spaces);
    StripKeepsCharacters(b, c);
    CollapseShape(a, Spaces);
    CollapseShape(s, Breaks);
    var k :| 0 <= k < |b| && b[k] == c;
    assert c in a;
    var m :| 0 <= m < |a| && a[m] == c;
  }

  /** `' '.join(parts)`. */
  function Join(parts: seq<string>): string {
    if parts == [] then "" else if |parts| == 1 then parts[0] else parts[0] + " " + Join(parts[1..])
  }

  /**
   * Joining non-empty normalised pieces with single spaces gives normalised text, which is
   * non-empty when there is a piece.
   */
  lemma {:induction false} JoinNormalized(parts: seq<string>)
    requires forall k :: 0 <= k < |parts| ==> parts[k] != "" && Normalized(parts[k])
    ensures Normalized(Join(parts))
    ensures parts != [] ==> Join(parts) != ""
  {
    if |parts| >= 2 {
      var a := parts[0];
      var j := Join(parts[1..]);
      JoinNormalized(parts[1..]);
      var x := a + " " + j;
      assert x == Join(parts);
      forall i | 0 <= i < |x| ensures IsSpace(x[i]) ==> x[i] == ' ' {
        if i < |a| {
          assert x[i] == a[i];
        } else if i > |a| {
          assert x[i] == j[i - |a| - 1];
        }
      }
      forall i | 0 <= i < |x| - 1 ensures x[i] == ' ' ==> x[i + 1] != ' ' {
        if i < |a| - 1 {
          assert x[i] == a[i] && x[i + 1] == a[i + 1];
        } else if i == |a| - 1 {
          assert x[i] == a[|a| - 1] && !IsSpace(a[|a| - 1]);
        } else if i == |a| {
          assert x[i + 1] == j[0] && !IsSpace(j[0]);
        } else {
          assert x[i] == j[i - |a| - 1] && x[i + 1] == j[i - |a|];
        }
      }
      assert x[|x| - 1] == j[|j| - 1];
    }
  }
}
