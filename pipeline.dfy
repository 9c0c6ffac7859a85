/**
 * One filing through a driver script (debug2.py:265-271, def14ARevised.py:220-226,
 * tableApproach.py:296-302, def14Adebug.py:218-227, def14A.py:133-139): the configured
 * locator finds the compensation table and its name column, and the extractor reads the
 * director names out of that column. Without a table the filing yields no name.
 */
module Pipeline {

  import opened Wrappers
  import opened Document
  import opened Columns
  import opened Names
  import AnchorScan
  import ContextScan

  /** The table and name column the configured locator finds. */
  function Located(doc: Doc, cfg: Config): Option<Candidate> {
    match cfg.strategy
    case AnchorForward => AnchorScan.Locate(doc, cfg.keywords, cfg.excludeNonPersonNames)
    case ContextScored => ContextScan.Locate(doc, cfg.keywords, cfg.excludeNonPersonNames)
  }

  /** Either locator reports a table of the document together with that table's name column. */
  lemma LocatedIsTable(doc: Doc, cfg: Config, t: nat, c: nat)
    requires Located(doc, cfg) == Some(Candidate(t, c))
    ensures t < |doc| && doc[t].TableTag? && NameColumn(doc[t].rows, cfg.excludeNonPersonNames) == Some(c)
  {
    match cfg.strategy
    case AnchorForward =>
      AnchorScan.LocateSound(doc, cfg.keywords, cfg.excludeNonPersonNames, t, c);
    case ContextScored =>
      ContextScan.LocateIsFirstAccepted(doc, cfg.keywords, cfg.excludeNonPersonNames, t, c);
  }

  /** The director names one filing yields: those of the located table, or none. */
  function DirectorNames(doc: Doc, cfg: Config): seq<string> {
    match Located(doc, cfg)
    case None => []
    case Some(x) =>
      LocatedIsTable(doc, cfg, x.table, x.column);
      ExtractedNames(doc[x.table].rows, x.column, cfg.skipHeaderRow, cfg.splitTitles, cfg.titleWords)
  }

  /**
   * Every name a filing yields is well formed for the configuration, there are no more names
   * than rows read from the located table, and without a located table there are none.
   */
  lemma DirectorNamesWellFormed(doc: Doc, cfg: Config)
    requires NonEmptyWords(cfg.titleWords)
    ensures forall j :: 0 <= j < |DirectorNames(doc, cfg)| ==>
      WellFormedName(DirectorNames(doc, cfg)[j], cfg.splitTitles, cfg.titleWords)
    ensures Located(doc, cfg).None? ==> DirectorNames(doc, cfg) == []
    ensures Located(doc, cfg).Some? ==>
      var t := Located(doc, cfg).value.table;
      t < |doc| && doc[t].TableTag? &&
      |DirectorNames(doc, cfg)| <= |doc[t].rows| - FirstRow(doc[t].rows, cfg.skipHeaderRow)
  {
    match Located(doc, cfg)
    case None =>
    case Some(x) =>
      LocatedIsTable(doc, cfg, x.table, x.column);
      ExtractedNamesWellFormed(doc[x.table].rows, x.column, cfg.skipHeaderRow, cfg.splitTitles, cfg.titleWords);
  }

  /**
   * A filing yields names only when a table with a name column was located, and the names are
   * those of that table's name column.
   */
  lemma NamesComeFromLocatedTable(doc: Doc, cfg: Config)
    requires DirectorNames(doc, cfg) != []
    ensures Located(doc, cfg).Some?
    ensures var x := Located(doc, cfg).value;
      x.table < |doc| && doc[x.table].TableTag? &&
      NameColumn(doc[x.table].rows, cfg.excludeNonPersonNames) == Some(x.column) &&
      DirectorNames(doc, cfg) ==
        ExtractedNames(doc[x.table].rows, x.column, cfg.skipHeaderRow, cfg.splitTitles, cfg.titleWords)
  {
    var x := Located(doc, cfg).value;
    LocatedIsTable(doc, cfg, x.table, x.column);
  }

  /**
   * The body of the driver loop for one fetched filing: `find_compensation_table`, then,
   * when a table and a name column came back, `extract_names_from_table`.
   */
  method ProcessFiling(doc: Doc, cfg: Config) returns (names: seq<string>)
    ensures names == DirectorNames(doc, cfg)
  {
    var found: Option<Candidate>;
    match cfg.strategy {
      case AnchorForward =>
        found := AnchorScan.FindCompensationTable(doc, cfg.keywords, cfg.excludeNonPersonNames);
      case ContextScored =>
        found := ContextScan.FindCompensationTable(doc, cfg.keywords, cfg.excludeNonPersonNames);
    }
    if found.None? {
      return [];
    }
    var x := found.value;
    LocatedIsTable(doc, cfg, x.table, x.column);
    names := ExtractNames(doc[x.table].rows, x.column, cfg.skipHeaderRow, cfg.splitTitles, cfg.titleWords);
  }
}
