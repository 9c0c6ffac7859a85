/**
 * The parsed filing. The markup tree is given as the pre-order sequence of its tags. Called
 * without arguments, BeautifulSoup's `find_next()` / `find_previous()` return the next or
 * previous tag and pass over text strings, so they are index + 1 / index - 1 here, and the
 * tags right after a tag are its own descendants. Each tag carries the `get_text()` of its
 * subtree; a table also carries, for each of its `tr` rows, the `get_text()` of the row's
 * direct `th`/`td` cells.
 */
module Document {

  /** The texts of one row's cells, left to right. */
  type Row = seq<string>

  datatype Node =
    | TableTag(text: string, rows: seq<Row>)  // a `<table>` tag
    | OtherTag(text: string)                  // any other tag

  type Doc = seq<Node>

  /** A located table: its position in the document and the index of its name column. */
  datatype Candidate = Candidate(table: nat, column: nat)

  /** The two table locators: anchor-forward-scan and context-scored-scan. */
  datatype Strategy = AnchorForward | ContextScored

  /**
   * What distinguishes the five driver scripts: the heading keywords, whether the column
   * detector skips "plan name"-style cells, whether the extractor drops row 0, whether it
   * splits titles off names (and with which vocabulary), and which locator is used.
   */
  datatype Config = Config(
    keywords: seq<string>,
    excludeNonPersonNames: bool,
    skipHeaderRow: bool,
    splitTitles: bool,
    titleWords: seq<string>,
    strategy: Strategy)

  /** The number of tables among `doc[lo..hi]`. */
  function TableCount(doc: Doc, lo: nat, hi: nat): nat
    requires lo <= hi <= |doc|
    decreases hi - lo
  {
    if lo == hi then 0 else (if doc[lo].TableTag? then 1 else 0) + TableCount(doc, lo + 1, hi)
  }
}
