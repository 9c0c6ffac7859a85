# Director names from proxy-statement compensation tables

This project models the heuristic pipeline that a set of scripts use to pull director names
out of the "Director Compensation" table of an SEC DEF 14A proxy filing, and the small
firm-name cleaner used to match companies. The pipeline has four steps:

- **Normalise whitespace** (`clean_text`).
- **Locate the compensation table.** There are two strategies:
  - *anchor forward scan*: find a short heading that contains a compensation keyword, then look ahead a bounded number of tags for the first table with a name column;
  - *context-scored scan*: accept the first table whose surrounding text holds a keyword and which has both a name column and numeric cells.
- **Find the table's name column** (`has_name_column`).
- **Read the names out of that column** (`extract_names_from_table`). Prefix, figure and dash filters apply; footnote markers and HTML entities are removed; optionally the name is cut before the first job-title word.

The five driver scripts differ only in a few choices. The model has one shared core, and
each script is a `Config` value (module `Drivers`) that fixes:

- the keyword list;
- whether "plan name"-style header cells are excluded;
- whether row 0 is skipped;
- whether titles are split off, and with which vocabulary;
- which locator runs.

The parsed filing is the flat pre-order sequence of its tags (module `Document`). Called
without arguments, BeautifulSoup's `find_next()` / `find_previous()` return the next or
previous tag and pass over text strings, so they are index + 1 / index − 1 in it. Every tag carries the
text of its subtree. A table also carries the cell texts of each of its rows.

The loops of the source are methods (`HasNameColumn`, `ProbeTables`,
`FindCompensationTable`, `TextBefore`, `ExtractNames`, `EarliestTitle`, `CleanCompanyName`,
and others). Each method is proved equal to a specification function. The lemmas then state
what the source promises about those functions, as bounds, first-match characterisations,
round-trips of the normaliser and well-formedness of every emitted name. Worked examples of
the cell filters, the title split (def14ARevised.py:150-188) and the company suffix cleaner
(match_india.py:10-33) are proved as concrete lemmas about that code. The example values are
chosen for the model and do not come from the scripts.

Modules, in dependency order:

- `Wrappers`
- `Text`: whitespace, substring search, `clean_text`.
- `Document`
- `Columns`: the name-column detector and the numeric-column check.
- `AnchorScan`
- `ContextScan`
- `Names`: the extractor.
- `Pipeline`
- `Drivers`
- `Company`: `clean_company_name`.
- Worked cases: `WorkedCases`, `ColumnCases` and `CompanyCases`.

## Model

| member | source | states |
|---|---|---|
| Text.Lower | debug2.py:190 | `lower()` keeps the length and lower-cases each ASCII letter in place |
| Text.FindFromSpec | debug2.py:212 | `find` returns the first occurrence at or after the start, with none before it, or −1 when there is none |
| Text.ContainsIff | debug2.py:206 | `sub in s` holds exactly when `sub` occurs at some offset of `s` |
| Text.FirstContainedSpec | debug2.py:117-118 | the keyword search reports the first keyword contained in the text, with none before it, or nothing when none is contained |
| Text.DropLeading | debug2.py:44 | left stripping never lengthens and never leaves a leading whitespace character |
| Text.DropTrailing | debug2.py:44 | right stripping never lengthens and never leaves a trailing whitespace character |
| Text.DropLeadingSuffix | debug2.py:44 | left stripping keeps a suffix and removes only whitespace |
| Text.DropTrailingPrefix | debug2.py:44 | right stripping keeps a prefix and removes only whitespace |
| Text.StripKeepsLast | debug2.py:217-218 | stripping text that does not end in whitespace keeps its last character last |
| Text.CollapseRuns | debug2.py:42-43 | a run substitution is empty only on empty input and never lengthens; its first character is a space or the input's first |
| Text.StripSlice | debug2.py:44 | `strip()` returns a contiguous slice of its input |
| Text.LowerSlice | debug2.py:216-217 | lower-casing commutes with slicing |
| Text.SliceSpacedSingly | debug2.py:217 | a slice of singly spaced text is singly spaced |
| Text.StripNormalizes | debug2.py:217 | stripping singly spaced text gives normalised text |
| Text.CollapseShape | debug2.py:42-43 | after collapsing, every character is a space or an input character outside the class, and no space is followed by a class member |
| Text.CollapseStripNormalizes | debug2.py:43-44 | collapsing whitespace runs and stripping gives normalised text |
| Text.CleanTextNormalized | debug2.py:37-44 | `clean_text` output has no `\n\r\t`, no two adjacent spaces and no edge whitespace; empty input gives "" |
| Text.CollapseFixed | debug2.py:42-43 | collapsing leaves text alone whose class characters are lone spaces |
| Text.CleanTextFixesNormalized | debug2.py:37-44 | `clean_text` is the identity on normalised text |
| Text.CleanTextIdempotent | debug2.py:42-44 | `clean_text(clean_text(s)) == clean_text(s)` |
| Text.StripKeepsCharacters | debug2.py:44 | stripping introduces no character |
| Text.CleanTextKeepsCharacters | debug2.py:37-44 | `clean_text` introduces no character other than a space |
| Text.JoinNormalized | tableApproach.py:107 | joining non-empty normalised snippets with spaces gives non-empty normalised text |
| Columns.FirstSet | debug2.py:75-94 | the leftmost set flag, with none before it, or nothing |
| Columns.FirstSetIff | debug2.py:75-94 | the first set flag is found exactly when it is set and no earlier flag is |
| Columns.NameColumnFromIff | debug2.py:58-94 | the detector from row `i` returns `c` iff `c` is the first header in some scanned row `r >= i` and no scanned row between `i` and `r` has one |
| Columns.FlagsMarkNameCells | debug2.py:58-88 | the flags mark exactly the name-header cells in the first five rows having at least two cells |
| Columns.NameColumnIsFirst | debug2.py:58-94 | `has_name_column` returns `c` iff cell `c` is the first name header in row-major order among the first five rows with at least two cells |
| Columns.NameColumnNone | debug2.py:49-97 | `has_name_column` returns None iff no scanned cell is a name header (so for a table without rows) |
| Columns.NameColumnFromSome | debug2.py:58-94 | when any scanned cell is a header, the detector finds one |
| Columns.NameColumnIgnoresLaterRows | debug2.py:58 | rows after the fifth never affect the result |
| Columns.NameColumnFromPrefix | debug2.py:58 | the detector from any of the first five rows gives the same answer on the first five rows alone |
| Columns.FindNameCell | debug2.py:75-94 | the inner cell loop returns the first header cell of the row |
| Columns.HasNameColumn | debug2.py:49-97 | the nested loops with early return compute `NameColumn` |
| Columns.NumericCells | tableApproach.py:138-145 | a row counts when it has at least two cells and a cell after the first holds `$`, a two-decimal amount or a run of four or more digits and commas |
| Columns.HasNumericColumns | tableApproach.py:129-147 | the loop is true exactly when one of rows 1 to 3 counts, and is false for fewer than two rows |
| AnchorScan.IsAnchorIff | debug2.py:112-118 | a tag is an anchor iff its cleaned lower-case text is under 200 characters and contains a keyword |
| AnchorScan.HitFromShift | debug2.py:127-147 | passing a tag that is neither a hit nor the fifth table moves the hit condition forward one tag |
| AnchorScan.ProbeFromIff | debug2.py:127-147 | the look-ahead from a given step and table count finds table `t`, column `c` iff `t` qualifies within the remaining step and table budgets |
| AnchorScan.ProbeIff | debug2.py:125-147 | the scan after an anchor finds `t`, `c` iff `t` is a table within 100 tags after the anchor, its name column is `c`, fewer than five tables come before it and none of those has a name column |
| AnchorScan.ProbeNone | debug2.py:125-147 | the scan after an anchor finds nothing iff no table qualifies |
| AnchorScan.ProductiveFlags | debug2.py:112-148 | flag `a` is set iff tag `a` is an anchor whose scan finds a table |
| AnchorScan.LocateIsFirstAnchor | debug2.py:112-151 | the result is the find of the earliest anchor whose scan finds anything, and only that |
| AnchorScan.LocateSound | debug2.py:112-140 | a located table is a table with the reported name column, reached by an anchor's bounded scan |
| AnchorScan.LocateNone | debug2.py:145-151 | nothing is located iff no anchor's scan finds a table |
| AnchorScan.ProbeTables | debug2.py:125-147 | the step loop with its table counter, break and early return computes the scan |
| AnchorScan.FindCompensationTable | debug2.py:102-151 | the element loop, with the first-keyword break, computes `Locate` |
| ContextScan.SnippetsSnoc | tableApproach.py:103-105 | reading one more tag appends its text when it is kept |
| ContextScan.SnippetsShape | tableApproach.py:93-105 | every snippet is non-empty, under 200 characters and the text of a tag in the range; there are at most as many snippets as tags read |
| ContextScan.SnippetsOfSlice | tableApproach.py:87-105 | snippets depend only on the tags of their range |
| ContextScan.Reverse | tableApproach.py:107 | `reversed` keeps the length and mirrors the indices |
| ContextScan.ReverseSnoc | tableApproach.py:107 | reversing after appending puts the new element first |
| ContextScan.SnippetsBackwardReversed | tableApproach.py:86-107 | reversing the backward walk's list gives the snippets in document order |
| ContextScan.NodeTextsNormalized | tableApproach.py:92 | every cleaned tag text is normalised |
| ContextScan.SnippetsNormalized | tableApproach.py:93-94 | every snippet of normalised texts is non-empty and normalised |
| ContextScan.ContextNormalized | tableApproach.py:80-107 | both context strings are normalised |
| ContextScan.NodeText | tableApproach.py:91-92 | one read of a tag's cleaned text, which is whitespace-normalised |
| ContextScan.TextBefore | tableApproach.py:86-94 | the `find_previous` loop collects the kept snippets of the up to 50 preceding tags, joined in document order |
| ContextScan.TextAfter | tableApproach.py:97-105 | the `find_next` loop collects the kept snippets of the up to 20 following tags |
| ContextScan.GetTextAround | tableApproach.py:80-107 | both context strings of a table |
| ContextScan.NormalizeQuotes | tableApproach.py:116 | backtick, acute accent and apostrophe become an apostrophe; every other character is kept in place |
| ContextScan.ContextMatchSpec | tableApproach.py:112-124 | the first keyword whose normalised form occurs in the normalised combined context is reported, and nothing only when none occurs |
| ContextScan.IsCompensationTable | tableApproach.py:112-124 | the keyword loop with early return computes `ContextMatch` |
| ContextScan.AcceptedFlags | tableApproach.py:227-251 | flag `t` is set iff tag `t` is a table with a context keyword, a name column and numeric cells |
| ContextScan.LocateIsFirstAccepted | tableApproach.py:227-251 | the result is the first accepted table in document order, with its name column |
| ContextScan.LocateNone | tableApproach.py:227-260 | nothing is located iff no table is accepted |
| ContextScan.BeforeIsLocal | tableApproach.py:86-94 | the text before a table is the same when read in the window around it |
| ContextScan.AfterIsLocal | tableApproach.py:97-105 | the text after a table is the same when read in the window around it |
| ContextScan.AcceptedIsLocal | tableApproach.py:80-147 | whether a table is accepted depends only on the tags from 50 before it to 20 after it |
| ContextScan.FindCompensationTable | tableApproach.py:220-260 | the table loop with early return computes `Locate` |
| Names.SupClose | debug2.py:200 | the lazy `.*?</sup>` ends after a complete closing tag inside the text, or fails |
| Names.BracketedDigits | debug2.py:200 | a bracketed number match is non-empty and inside the text |
| Names.MatchEnd | debug2.py:200-201 | a marker or entity match is non-empty and inside the text |
| Names.RemoveFrom | debug2.py:200-201 | removing matches never lengthens the text |
| Names.RemoveKeepsCharacters | debug2.py:200-201 | marker and entity removal introduce no character |
| Names.RemoveFootnotesClears | debug2.py:200 | after footnote removal no `*`, `†` or `‡` is left |
| Names.ScrubShape | debug2.py:200-202 | the scrubbed name is normalised and holds no `*`, `†` or `‡` |
| Names.EarliestFrom | debug2.py:211-214 | the vocabulary loop never raises `earliest_pos` |
| Names.EarliestFromState | def14ARevised.py:169-173 | the loop keeps its invariant up to the end of the vocabulary |
| Names.EarliestSpec | def14ARevised.py:166-173 | `earliest_pos` is at most the length; no word is found before it; `matched_keyword` is the first word found exactly there (the strict `<` keeps the earlier entry on ties); without a match it is the length |
| Names.NoWordBefore | debug2.py:209-217 | no vocabulary word occurs in any slice ending at or before `earliest_pos` |
| Names.DropTrailingPunct | debug2.py:218 | the trailing-punctuation substitution keeps a prefix that does not end in `, - — ( )` or whitespace, and every character it removes is one of those |
| Names.TitleSplitSpec | def14ARevised.py:175-185 | a title at offset 0 drops the row; a kept name is a slice before the earliest title word, longer than two characters, not a figure and not ending in punctuation or whitespace; for a normalised name it is exactly the prefix before that word less its trailing `, - — ( )`/whitespace run; a cut longer than two characters that is not a figure is always kept |
| Names.CutPrefix | debug2.py:217-218 | for a normalised name the cut is the prefix before `earliest_pos` with exactly its trailing run of `, - — ( )` and whitespace removed |
| Names.CutSlice | debug2.py:217-218 | the cut is a slice of the name before `earliest_pos` |
| Names.CutEnd | debug2.py:217-218 | a non-empty cut does not end in `, - — ( )` or whitespace |
| Names.CutNormalized | debug2.py:217-218 | the cut of a normalised name is normalised |
| Names.NamesBetween | debug2.py:181-185 | at most one name per row read |
| Names.TitleSplitWellFormed | debug2.py:209-224 | a title-split name is well formed and contains no vocabulary word |
| Names.NameOfCellWellFormed | debug2.py:185-227 | a name emitted for a cell is longer than two characters, normalised, free of `*`, `†` and `‡` and, with title splitting, of every vocabulary word |
| Names.NamesBetweenWellFormed | debug2.py:181-227 | every name of a row range is well formed |
| Names.ExtractedNamesWellFormed | def14A.py:80-105 | every extracted name is well formed, and there are at most as many as rows read (`len(rows) - 1` when row 0 is skipped) |
| Names.NamesBetweenOfRows | debug2.py:181-185 | names depend only on the rows read |
| Names.HeaderRowIgnored | def14A.py:86 | when row 0 is skipped, its content never changes the names |
| Names.EarliestTitle | def14ARevised.py:166-173 | the vocabulary loop computes `earliest_pos` and `matched_keyword` |
| Names.NameFromCell | debug2.py:185-227 | the row body computes the cell's contribution |
| Names.ExtractNames | debug2.py:156-229 | the row loop appends exactly the extracted names, in row order |
| Pipeline.LocatedIsTable | debug2.py:267-269 | either locator reports a table of the document with that table's name column |
| Pipeline.DirectorNamesWellFormed | debug2.py:265-272 | every name a filing yields is well formed, bounded by the rows read, and none without a located table |
| Pipeline.NamesComeFromLocatedTable | debug2.py:267-270 | names are yielded only from a located table's name column |
| Pipeline.ProcessFiling | debug2.py:265-270 | locating and then extracting gives `DirectorNames` |
| Drivers.TitleWordsNonEmpty | debug2.py:160-168 | no title word is empty |
| Drivers.SplittingDriversWellFormed | tableApproach.py:173-213 | the three title-splitting drivers emit only well-formed names free of title words |
| Drivers.HeaderSkippingDrivers | def14Adebug.py:150-177 | def14A.py and def14Adebug.py emit well-formed names, at most `len(rows) - 1`, independent of row 0, and agree with each other |
| Drivers.AnchorsGrowWithKeywords | def14ARevised.py:8-23 | every anchor of the plain list is one of the apostrophe list, and every one of that list is one of the entity-spelling list |
| Company.AlternativeMatch | match_india.py:11-24 | an alternative matches iff its word occurs at the position ignoring case, followed by a word boundary; when the word with its optional dot is followed by a boundary, the dot is taken |
| Company.AlternativesMatch | match_india.py:11-24 | the first alternative, in the order written, that matches: none before it matches |
| Company.MatchAt | match_india.py:11-24 | a pattern matches iff there is a word boundary before it and one of its alternatives matches; the match is that of the first such alternative |
| Company.RemoveMatchesFrom | match_india.py:28 | suffix removal never lengthens the text |
| Company.CompanyName | match_india.py:6-7 | a missing value stays missing and a present one stays present |
| Company.RemoveNothingFrom | match_india.py:28 | where no match starts, the rest is kept as it is |
| Company.RemoveNothing | match_india.py:28 | a pattern that matches nowhere leaves the name unchanged |
| Company.RemoveKeepsCharactersFrom | match_india.py:28 | suffix removal introduces no character |
| Company.RemoveAllKeepsCharacters | match_india.py:27-28 | the fourteen removals introduce no character and never lengthen |
| Company.RemoveAllShorter | match_india.py:27-28 | the fourteen removals never lengthen |
| Company.RemovePunctuationIff | match_india.py:30 | a character survives punctuation removal iff it is in the input and not ASCII punctuation |
| Company.CleanNameCharacters | match_india.py:8-33 | every non-space character of the result comes from the input and is no punctuation |
| Company.CleanNameShape | match_india.py:8-33 | the result is normalised, holds no punctuation, holds only input characters besides spaces, and is no longer than the stripped input |
| Company.CompanyNameShape | match_india.py:5-35 | a present result is normalised and free of punctuation |
| Company.CleanCompanyName | match_india.py:5-35 | the suffix loop and the substitutions compute `CompanyName` |
| CompanyCases.RemoveUpTo | match_india.py:28 | a stretch without matches is kept as it is before the rest is scanned |
| CompanyCases.SuffixWordStarts | match_india.py:11-24 | every suffix word has at least two characters, none starts with a space and none starts with "ac" (what `AcmeCorpBoundaries` relies on) |
| CompanyCases.AmpersandAssociatesNeedsWordBefore | match_india.py:23 | the `& associates` pattern only matches right after a word character |
| CompanyCases.CorpRemoved | match_india.py:12 | the `corp` pattern turns "Acme Corp" into "Acme " |
| CompanyCases.AcmeCorp | match_india.py:10-33 | "Acme Corp" is cleaned to "Acme" |
| WorkedCases.CellDroppedByPrefix | debug2.py:193-197 | a cell starting with a rejected prefix yields nothing |
| WorkedCases.DashDropped | def14ARevised.py:150-154 | "—" yields nothing |
| WorkedCases.TotalDropped | def14ARevised.py:150-154 | "Total" yields nothing |
| WorkedCases.AmountDropped | def14ARevised.py:150-154 | "$125,000" yields nothing |
| WorkedCases.AllOtherCompensationDropped | def14ARevised.py:150-154 | "All Other Compensation" yields nothing |
| WorkedCases.NameHeaderDropped | def14ARevised.py:150-152 | a "Name" header read as row 0 yields nothing |
| WorkedCases.PlainCellKept | def14ARevised.py:186-187 | a plain cell without title words is kept unchanged |
| WorkedCases.TitledCellCut | def14ARevised.py:175-181 | a cell with a title word after a space is cut before it |
| WorkedCases.TitledCellCutAfterComma | def14ARevised.py:175-181 | a cell with a title word after ", " ("John Doe, Chief Executive Officer") is cut before the comma |
| WorkedCases.TitledCellDropped | def14ARevised.py:184-185 | a cell starting with a title word is dropped |
| WorkedCases.CutBeforeChairman | def14ARevised.py:175-181 | a plain cell whose first title word is "chairman" at offset 14 keeps its first 13 characters |
| WorkedCases.AuditCommitteeChairDropped | def14ARevised.py:163-188 | "Audit Committee Chair" yields nothing |
| WorkedCases.RobertLeeKept | def14ARevised.py:163-188 | "Robert Lee" is kept as it is |
| WorkedCases.JaneSmithChairmanCut | def14ARevised.py:163-188 | "Jane A. Smith Chairman of the Board" yields "Jane A. Smith" |
| ColumnCases.PlanNameAcceptedWithoutExclusions | def14Adebug.py:65-79 | without exclusions a "Plan Name" cell is a name header |
| ColumnCases.PlanNameExcluded | def14ARevised.py:59-73 | with exclusions a "Plan Name" cell is not a name header |

## Left out

- HTTP fetching, status codes, `time.sleep`, SEC URL building and the date filter of the driver loops: these are I/O. A filing enters the model already parsed.
- Reading the company CSV catalog, index selection, and all CSV and Excel writing: these are file I/O.
- BeautifulSoup parsing and `get_text()`: the document is given as the pre-order sequence of its tags, whose texts are supplied. Text strings between tags are not elements of it, because `find_all()`, `find_next()` and `find_previous()` without arguments never return them; `find_next()` / `find_previous()` are index ± 1.
- All `print` output, the `matches_found` counter and the `matched_keyword` value, which only feed printing. `matched_keyword` is still computed and characterised by `Names.EarliestSpec`.
- sec_api_io.py is not part of this model. It is a thin wrapper over a third-party client.
- The pandas work in match_india.py after line 35: Excel reads, `.str.title()`, merges and writing. `pd.isna` is modelled as a missing `Option` value.
- Unicode semantics:
  - `\s` and `strip()` are modelled as ASCII whitespace plus U+0085 and U+00A0;
  - `lower()` and `re.IGNORECASE` as ASCII case folding;
  - `\w` as ASCII letters, digits and underscore;
  - `\d` as the ASCII digits `0` to `9`, so non-ASCII decimal digits (full-width `１２３`, say) are matched neither by the figure filter, the footnote and entity patterns nor the numeric-cell check.
- Regular expressions are not modelled by a general engine. Each pattern used is a hand-written scanner or predicate.
- Names.SupClose: `<sup>.*?</sup>` is modelled with `.` stopping at a line break, as Python's default. The line breaks are gone after `clean_text` anyway.
- Company.RemoveMatchesFrom: empty matches are not modelled. No suffix alternative is empty, so the pattern `\b(...)\b` never matches empty.
- AnchorScan.Locate: `element.name == 'table'` is a tag's `TableTag` kind. The outer walk (`find_all()`) and the forward steps (`find_next()`) both visit tags only, so the 100-step budget counts tags.

Two details of the code are kept as written:
- The driver loops test `comp_table and name_col_idx is not None`, so a located table always yields its names, even when the table is empty.
- def14ARevised.py lists the two apostrophe keywords twice. The duplicates are kept in `Drivers.RevisedKeywords`; they never change the result.
