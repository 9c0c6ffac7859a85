/**
 * The "Plan Name" header cell of def14Adebug.py:65-79 and def14ARevised.py:59-73: without
 * the exclusion list it is taken as the name column, with it it is passed over.
 */
module ColumnCases {

  import opened Text
  import opened Columns

  /** The header test of a cell, given its cleaned lower-cased text `t`. */
  lemma HeaderTestOf(cell: string, t: string, exclude: bool)
    requires Lower(CleanText(cell)) == t
    ensures IsNameHeader(cell, exclude) <==>
      t != "" && Contains(t, "name") && !(exclude && exists j :: 0 <= j < |ExcludedPhrases| && Contains(t, ExcludedPhrases[j]))
  {
  }

  /** An occurrence at a known offset makes `sub in s` true. */
  lemma ContainsAt(s: string, sub: string, i: int)
    requires OccursAt(s, sub, i)
    ensures Contains(s, sub)
  {
    ContainsIff(s, sub);
  }

  lemma PlanNameNormalized()
    ensures Normalized("Plan Name")
  {
  }

  lemma PlanNameLower()
    ensures Lower("Plan Name") == "plan name"
  {
    LowerIs("Plan Name", "plan name");
  }

  lemma NameInPlanName()
    ensures Contains("plan name", "name")
  {
    assert "plan name"[5..9] == "name";
    ContainsAt("plan name", "name", 5);
  }

  /** "Plan Name" is already normalised and lower-cases to "plan name". */
  lemma PlanNameText()
    ensures Lower(CleanText("Plan Name")) == "plan name"
  {
    PlanNameNormalized();
    CleanTextFixesNormalized("Plan Name");
    PlanNameLower();
  }

  /** Without the exclusion list a "Plan Name" cell is a name header. */
  lemma PlanNameAcceptedWithoutExclusions()
    ensures IsNameHeader("Plan Name", false)
  {
    PlanNameText();
    NameInPlanName();
    HeaderTestOf("Plan Name", "plan name", false);
  }

  /** With the exclusion list a "Plan Name" cell is not a name header. */
  lemma PlanNameExcluded()
    ensures !IsNameHeader("Plan Name", true)
  {
    PlanNameText();
    ContainsAt("plan name", ExcludedPhrases[0], 0);
    HeaderTestOf("Plan Name", "plan name", true);
  }
}
