/**
 * The anchor-forward-scan locator `find_compensation_table` of debug2.py:102-151 (the same
 * in def14ARevised.py:78-118, def14Adebug.py:84-133 and def14A.py:55-78): every tag whose
 * short cleaned text contains a heading keyword is an anchor, and the tags after it are
 * scanned for the first table with a name column.
 */
module AnchorScan {

  import opened Wrappers
  import opened Text
  import opened Document
  import opened Columns

  /** At most this many tags are looked at after an anchor. */
  const MaxSteps := 100

  /** At most this many tables are tried after an anchor. */
  const MaxTables := 5

  /** A heading's cleaned text is shorter than this. */
  const MaxAnchorLength := 200

  /** The lower-cased, cleaned text of a tag, as compared with the keywords. */
  function AnchorText(n: Node): string {
    Lower(CleanText(n.text))
  }

  /** A tag whose short cleaned text contains one of the keywords. */
  predicate IsAnchor(n: Node, keywords: seq<string>) {
    |AnchorText(n)| < MaxAnchorLength && FirstContained(AnchorText(n), keywords, 0).Some?
  }

  /** A tag is an anchor exactly when its short text contains some keyword. */
  lemma IsAnchorIff(n: Node, keywords: seq<string>)
    ensures IsAnchor(n, keywords) <==>
      |AnchorText(n)| < MaxAnchorLength &&
      exists k :: 0 <= k < |keywords| && Contains(AnchorText(n), keywords[k])
  {
    FirstContainedSpec(AnchorText(n), keywords, 0);
  }

  /**
   * The scan after the anchor at `a`, once `step` tags have been looked at and `checked`
   * tables without a name column have been passed: tag `a + 1 + step` is looked at next.
   */
  function Probe(doc: Doc, a: nat, step: nat, checked: nat, exclude: bool): Option<Candidate>
    decreases MaxSteps - step
  {
    if step >= MaxSteps || a + 1 + step >= |doc| then None
    else
      var p := a + 1 + step;
      if !doc[p].TableTag? then Probe(doc, a, step + 1, checked, exclude)
      else match NameColumn(doc[p].rows, exclude)
        case Some(c) => Some(Candidate(p, c))
        case None => if checked + 1 >= MaxTables then None else Probe(doc, a, step + 1, checked + 1, exclude)
  }

  /**
   * Table `t` with name column `c` is what the scan finds from tag `a + 1 + step` on: it lies
   * within the step budget, fewer than `MaxTables - checked` tables come before it, and none
   * of those has a name column.
   */
  predicate ProbeHitFrom(doc: Doc, a: nat, step: nat, checked: nat, exclude: bool, t: nat, c: nat) {
    a + 1 + step <= t <= a + MaxSteps && t < |doc| && doc[t].TableTag? &&
    NameColumn(doc[t].rows, exclude) == Some(c) &&
    checked + TableCount(doc, a + 1 + step, t) < MaxTables &&
    forall u :: a + 1 + step <= u < t && doc[u].TableTag? ==> NameColumn(doc[u].rows, exclude).None?
  }

  /** What the scan after anchor `a` finds, stated without the scan. */
  predicate ProbeHit(doc: Doc, a: nat, exclude: bool, t: nat, c: nat) {
    ProbeHitFrom(doc, a, 0, 0, exclude, t, c)
  }

  /** Passing a tag that is not a hit, and not the last table allowed, moves the hit condition one tag on. */
  lemma HitFromShift(doc: Doc, a: nat, step: nat, checked: nat, exclude: bool, t: nat, c: nat)
    requires step < MaxSteps && a + 1 + step < |doc|
    requires var p := a + 1 + step;
      !(doc[p].TableTag? && NameColumn(doc[p].rows, exclude).Some?) && !(doc[p].TableTag? && checked + 1 >= MaxTables)
    ensures var p := a + 1 + step;
      ProbeHitFrom(doc, a, step, checked, exclude, t, c) <==>
      ProbeHitFrom(doc, a, step + 1, if doc[p].TableTag? then checked + 1 else checked, exclude, t, c)
  {
    var p := a + 1 + step;
    if p < t < |doc| {
      assert TableCount(doc, p, t) == (if doc[p].TableTag? then 1 else 0) + TableCount(doc, p + 1, t);
    }
  }

  lemma {:induction false} ProbeFromIff(doc: Doc, a: nat, step: nat, checked: nat, exclude: bool, t: nat, c: nat)
    requires checked < MaxTables
    decreases MaxSteps - step
    ensures Probe(doc, a, step, checked, exclude) == Some(Candidate(t, c)) <==>
      ProbeHitFrom(doc, a, step, checked, exclude, t, c)
  {
    var p := a + 1 + step;
    if step < MaxSteps && p < |doc| {
      if doc[p].TableTag? && NameColumn(doc[p].rows, exclude).Some? {
        if ProbeHitFrom(doc, a, step, checked, exclude, t, c) {
          assert t == p;
        }
      } else if doc[p].TableTag? && checked + 1 >= MaxTables {
        if p < t < |doc| {
          assert TableCount(doc, p, t) == 1 + TableCount(doc, p + 1, t);
        }
      } else {
        var checked' := if doc[p].TableTag? then checked + 1 else checked;
        ProbeFromIff(doc, a, step + 1, checked', exclude, t, c);
        HitFromShift(doc, a, step, checked, exclude, t, c);
      }
    }
  }

  /**
   * The scan after anchor `a` returns table `t` with column `c` exactly when `t` is a table
   * with a name column at most 100 tags after the anchor, at most four tables come between,
   * and none of them has a name column.
   */
  lemma ProbeIff(doc: Doc, a: nat, exclude: bool, t: nat, c: nat)
    ensures Probe(doc, a, 0, 0, exclude) == Some(Candidate(t, c)) <==> ProbeHit(doc, a, exclude, t, c)
  {
    ProbeFromIff(doc, a, 0, 0, exclude, t, c);
  }

  /** The scan after anchor `a` comes back empty exactly when no table qualifies. */
  lemma ProbeNone(doc: Doc, a: nat, exclude: bool)
    ensures Probe(doc, a, 0, 0, exclude) == None <==> forall t, c :: !ProbeHit(doc, a, exclude, t, c)
  {
    var r := Probe(doc, a, 0, 0, exclude);
    if r == None {
      forall t, c ensures !ProbeHit(doc, a, exclude, t, c) {
        ProbeIff(doc, a, exclude, t, c);
      }
    } else {
      ProbeIff(doc, a, exclude, r.value.table, r.value.column);
    }
  }

  /** Node `a` is an anchor whose scan finds a table. */
  predicate Productive(doc: Doc, keywords: seq<string>, exclude: bool, a: int) {
    0 <= a < |doc| && IsAnchor(doc[a], keywords) && Probe(doc, a, 0, 0, exclude).Some?
  }

  /** Whether each tag is a productive anchor. */
  function ProductiveFlags(doc: Doc, keywords: seq<string>, exclude: bool): (r: seq<bool>)
    ensures |r| == |doc|
    ensures forall a :: 0 <= a < |doc| ==> r[a] == Productive(doc, keywords, exclude, a)
  {
    seq(|doc|, a requires 0 <= a < |doc| => Productive(doc, keywords, exclude, a))
  }

  /** `find_compensation_table`: the find of the first anchor whose scan finds anything. */
  function Locate(doc: Doc, keywords: seq<string>, exclude: bool): Option<Candidate> {
    match FirstSet(ProductiveFlags(doc, keywords, exclude), 0)
    case None => None
    case Some(a) => Probe(doc, a, 0, 0, exclude)
  }

  /**
   * The located table is the one found by the scan after the first anchor whose scan finds
   * anything: the result is the earliest productive anchor's find, and only that.
   */
  lemma LocateIsFirstAnchor(doc: Doc, keywords: seq<string>, exclude: bool, x: Candidate)
    ensures Locate(doc, keywords, exclude) == Some(x) <==>
      exists a :: Productive(doc, keywords, exclude, a) && Probe(doc, a, 0, 0, exclude) == Some(x) &&
        forall a' :: 0 <= a' < a ==> !Productive(doc, keywords, exclude, a')
  {
    var flags := ProductiveFlags(doc, keywords, exclude);
    var first := FirstSet(flags, 0);
    if first.Some? {
      FirstSetIff(flags, first.value);
    }
    if exists a :: Productive(doc, keywords, exclude, a) && Probe(doc, a, 0, 0, exclude) == Some(x) &&
        forall a' :: 0 <= a' < a ==> !Productive(doc, keywords, exclude, a')
    {
      var a :| Productive(doc, keywords, exclude, a) && Probe(doc, a, 0, 0, exclude) == Some(x) &&
        forall a' :: 0 <= a' < a ==> !Productive(doc, keywords, exclude, a');
      FirstSetIff(flags, a);
    }
  }

  /**
   * What is located is a table with the reported name column, lying after an anchor, at
   * most 100 tags after it, with at most four tables in between, none with a name column.
   */
  lemma LocateSound(doc: Doc, keywords: seq<string>, exclude: bool, t: nat, c: nat)
    requires Locate(doc, keywords, exclude) == Some(Candidate(t, c))
    ensures 0 <= t < |doc| && doc[t].TableTag? && NameColumn(doc[t].rows, exclude) == Some(c)
    ensures exists a :: 0 <= a < t && IsAnchor(doc[a], keywords) && ProbeHit(doc, a, exclude, t, c)
  {
    LocateIsFirstAnchor(doc, keywords, exclude, Candidate(t, c));
    var a :| Productive(doc, keywords, exclude, a) && Probe(doc, a, 0, 0, exclude) == Some(Candidate(t, c));
    ProbeIff(doc, a, exclude, t, c);
  }

  /** Nothing is located exactly when no anchor's scan finds a table. */
  lemma LocateNone(doc: Doc, keywords: seq<string>, exclude: bool)
    ensures Locate(doc, keywords, exclude) == None <==>
      forall a, t, c :: 0 <= a < |doc| && IsAnchor(doc[a], keywords) ==> !ProbeHit(doc, a, exclude, t, c)
  {
    var flags := ProductiveFlags(doc, keywords, exclude);
    var first := FirstSet(flags, 0);
    if first.None? {
      forall a, t, c | 0 <= a < |doc| && IsAnchor(doc[a], keywords) ensures !ProbeHit(doc, a, exclude, t, c) {
        assert !flags[a];
        ProbeIff(doc, a, exclude, t, c);
      }
    } else {
      var a := first.value;
      assert flags[a];
      var x := Probe(doc, a, 0, 0, exclude).value;
      ProbeIff(doc, a, exclude, x.table, x.column);
    }
  }

  /** The look-ahead loop after one anchor (`for step in range(100)`). */
  method ProbeTables(doc: Doc, a: nat, exclude: bool) returns (r: Option<Candidate>)
    ensures r == Probe(doc, a, 0, 0, exclude)
  {
    var step := 0;
    var checked := 0;
    while step < MaxSteps
      invariant 0 <= step <= MaxSteps && checked < MaxTables
      invariant Probe(doc, a, 0, 0, exclude) == Probe(doc, a, step, checked, exclude)
    {
      var p := a + 1 + step;
      if p >= |doc| {
        return None;
      }
      if doc[p].TableTag? {
        checked := checked + 1;
        var column := HasNameColumn(doc[p].rows, exclude);
        if column.Some? {
          return Some(Candidate(p, column.value));
        }
        if checked >= MaxTables {
          return None;
        }
      }
      step := step + 1;
    }
    return None;
  }

  /** `find_compensation_table`: every tag in document order, each keyword in turn. */
  method FindCompensationTable(doc: Doc, keywords: seq<string>, exclude: bool) returns (r: Option<Candidate>)
    ensures r == Locate(doc, keywords, exclude)
  {
    ghost var flags := ProductiveFlags(doc, keywords, exclude);
    var e := 0;
    while e < |doc|
      invariant e <= |doc|
      invariant FirstSet(flags, 0) == FirstSet(flags, e)
    {
      var text := Lower(CleanText(doc[e].text));
      assert text == AnchorText(doc[e]);
      var k := 0;
      while k < |keywords|
        invariant k <= |keywords|
        invariant forall k' :: 0 <= k' < k ==> !(Contains(text, keywords[k']) && |text| < MaxAnchorLength)
      {
        if Contains(text, keywords[k]) && |text| < MaxAnchorLength {
          IsAnchorIff(doc[e], keywords);
          var found := ProbeTables(doc, e, exclude);
          if found.Some? {
            assert flags[e];
            return found;
          }
          break;
        }
        k := k + 1;
      }
      IsAnchorIff(doc[e], keywords);
      assert !flags[e];
      e := e + 1;
    }
    return None;
  }
}
