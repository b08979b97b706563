# doyoureadme — a Dafny model of the diff-and-update engine

doyoureadme scrapes an author's readership statistics from fanfiction.net and
Archive of Our Own. It keeps a baseline of every count in a local database. On
each run it compares the freshly scraped counts with that baseline, reports
every count that moved as a keyed change line, and overwrites the baseline so
that it matches the site. This project models that engine and proves its
properties:

- **Report generator** (`Report`, `dyrm/reportgen.py`): the keyed change report.
  It holds the lines under each key and the keys already printed. Its
  `compare_*` family reports one line and answers 1 when a value moved. When a
  value did not move, most of them answer the catch-up `false_return`. Printing
  goes in sorted key order, and no section is printed twice.
- **Baseline store** (`Store`, `dyrm/readme_db.py`): all tables as maps and sets.
  It has the get-or-create operations with their column defaults, the
  check-pending flags and their title-sorted listing, and the latest-month
  lookup. It keeps a session state and a persisted state; `Exit` copies the
  session into the persisted state only when the commit flag was set.
- **Page shapes and fetching** (`Site`, `dyrm/ffgetter.py`): a page is the
  already-selected DOM content (row texts, link targets, caption cells, chart
  groups, menu entries). `FanfictionGetter` answers each request through a
  fixed `serve` function and logs it. The request payloads are built as the
  getter builds them.
- **Extractors** (`Extract`, `Pattern`, `Text`, `dyrm/ffgetter.py`): ids from
  links, the `uncomma` reader, newline-split columns, the row and link count
  check, chart zipping, and the caption and month-menu patterns. Each parser
  class keeps what `set_tree` selected, and its loops are proved against a pure
  reading function. Round-trip lemmas show that a page printed from records
  reads back as those records.
- **Monthly reconciler** (`Monthly`, `dyrm/ffmonthly.py`): `MonthlySetup`
  decides whether there are zero, one or two monthly trees: the bootstrap
  case, the same month, or a month crossover. `MonthlyDataTree` compares the
  month totals, the countries, the stories, the chapters and the chapter
  countries. It writes what moved and flags the stories whose chapters need a
  check. A run that fails midway is a `Run` that keeps the writes made before
  the fault.
- **Legacy and membership reconciliation** (`Legacy`, `Members`, `UserStats`,
  `dyrm/do_you_read_me.py`, `dyrm/get_userstats.py`). Four parts:
  - the six-field legacy comparison;
  - upkeep of the title catalogue;
  - the rule choosing which stories' favourites and follows to re-read;
  - membership updated by set difference: joiners are reported with a
    resolved alias and added, and leavers are reported and deleted.
- **AO3 reader** (`Ao3`, `dyrm/do_you_read_ao3.py`): works pages paired by
  position, with a missing statistic read as 0. It covers `RepresentsInt`, the
  pagination loop, and the five-field `compare_ao3_rec`.

Sets that Python iterates in an unspecified order are walked in a ghost `order`
sequence. `Enumerates(order, s)` states that the sequence lists the set's
elements once each.

## Model

| member | source | states |
|---|---|---|
| Report.Record | dyrm/reportgen.py:44-49 | a line goes to the end of its key's list (the list is created when missing); every other key is unchanged |
| Report.RecordAllLines | dyrm/reportgen.py:44-49 | after a run of `line_to_report` calls, each key's list has grown by exactly the lines recorded under it, in recording order |
| Report.RecordAllKeys | dyrm/reportgen.py:44-49 | the report gains exactly the keys of the recorded lines |
| Report.SortedKeys | dyrm/reportgen.py:187-192 | `sorted(keys)` lists every key once, in strictly increasing code-point order |
| Report.Least | dyrm/reportgen.py:187-192 | a non-empty key set has a least key in code-point order |
| Report.LeastUniqueAll | dyrm/reportgen.py:187-192 | that least key is unique, so the sorted order is determined |
| Report.PrintKeysFacts | dyrm/reportgen.py:174-192 | printing sections for keys that are present leaves the lines alone and marks exactly those keys as used |
| Report.PrintKeysAllUsed | dyrm/reportgen.py:174-185 | printing keys that were all printed already changes nothing and outputs nothing |
| Report.PrintAllTwice | dyrm/reportgen.py:187-192 | a report printed a second time adds only the divider, so no section is printed twice |
| Report.PrintAllSilent | dyrm/reportgen.py:187-192 | a silent report prints nothing and changes nothing |
| Report.ReportGen.constructor | dyrm/reportgen.py:35-42 | an empty report with no used keys; `false_return` is 1 exactly when catch-up is on |
| Report.ReportGen.LineToReport | dyrm/reportgen.py:44-49 | the report becomes `Record` of the old report and the line |
| Report.ReportGen.CompareTotalsByCountry | dyrm/reportgen.py:51-69 | when the value moved: one country line under "Monthly", and the answer is 1; otherwise no line, and the answer is `false_return` |
| Report.ReportGen.CompareStoryByCountry | dyrm/reportgen.py:71-88 | the same, with the line under the story title |
| Report.ReportGen.CompareAndPrintCtryChapter | dyrm/reportgen.py:90-113 | the same for a chapter's country; a missing stored value reads as 0 |
| Report.ReportGen.CompareAndPrintChapter | dyrm/reportgen.py:115-142 | one chapter line and the answer 1 when the value moved; otherwise 0, whatever the catch-up mode |
| Report.ReportGen.CompareAndPrint | dyrm/reportgen.py:144-163 | one `'title' extra key old to new (delta …)` line under the title and the answer 1 when the value moved; otherwise 0 and no line |
| Report.ReportGen.SetCatchup | dyrm/reportgen.py:165-168 | `false_return` becomes 1 exactly when catch-up is on |
| Report.ReportGen.GetReportLen | dyrm/reportgen.py:170-172 | the number of keys holding a list, including lists created empty by printing |
| Report.ReportGen.PrintKeyedSection | dyrm/reportgen.py:174-185 | a used key prints nothing; otherwise the key is marked used, and the heading is printed unless the first line contains it, followed by the lines; reading a missing key creates an empty list |
| Report.ReportGen.PrintReport | dyrm/reportgen.py:187-192 | nothing when silent; otherwise each key's section in sorted order, then the divider |
| Text.Strip | dyrm/ffgetter.py:551 | `str.strip()` over Python's whitespace: the result neither starts nor ends with whitespace, and it is empty exactly when the text is all whitespace |
| Text.StripKeeps | dyrm/ffgetter.py:551 | text without surrounding whitespace is unchanged by stripping |
| Text.NotSpace | dyrm/ffgetter.py:551 | printable ASCII other than the space is not whitespace |
| Text.RemoveCommas | dyrm/ffgetter.py:344-352 | `re.sub(',', '', s)` leaves no comma and never lengthens the text |
| Text.PyInt | dyrm/do_you_read_ao3.py:19-24 | `int(s)`: a failure is `BadNumber`, and success needs non-blank text |
| Text.IntRoundTrip | dyrm/do_you_read_ao3.py:19-24 | `int(str(n)) == n` for every integer |
| Text.Uncomma | dyrm/ffgetter.py:344-352 | blank text reads as 0; otherwise the stripped text without commas goes through `int()`, which may fail with `BadNumber` (the same function as dyrm/reportgen.py:12-20) |
| Text.UncommaGrouped | dyrm/reportgen.py:12-20 | every count printed with thousands separators reads back as itself |
| Text.GroupedChars | dyrm/ffgetter.py:344-352 | a grouped count is made of digits and commas only |
| Text.ZFillDigits | dyrm/ffmonthly.py:115-117 | a month number zero-padded with `zfill` is still digits of the same value |
| Text.ZFillMonthRoundTrip | dyrm/ffmonthly.py:115-117 | the two-digit month string reads back as the month |
| Text.StrLessTransitive | dyrm/reportgen.py:187-192 | the code-point order used by `sorted` is transitive |
| Text.StrLessTotal | dyrm/reportgen.py:187-192 | distinct strings are always ordered one way or the other |
| Pattern.Search | dyrm/ffgetter.py:527-533 | `re.search`: a match found has one capture per group of the pattern |
| Pattern.SearchFinds | dyrm/ffgetter.py:527-533 | a pattern matching at `i` and nowhere before is reported at `i` |
| Pattern.SearchMisses | dyrm/ffgetter.py:527-533 | a pattern that matches nowhere is not found |
| Pattern.Split | dyrm/ffgetter.py:546 | `s.split("\n")`: at least one piece, and no piece holds the separator |
| Pattern.SplitJoin | dyrm/ffgetter.py:546 | joining the pieces with the separator gives back the text |
| Pattern.JoinSplit | dyrm/ffgetter.py:546 | splitting undoes joining when no piece holds the separator |
| Base.MapResult | dyrm/ffgetter.py:387-407 | a list built by a loop whose body may raise: every element read, or the first failure in order |
| Base.MapResultPrefixErr | dyrm/ffgetter.py:387-407 | once a prefix has failed, the whole loop fails with that fault |
| Base.MapLoop | dyrm/ffgetter.py:387-407 | the parsers' row loop computes `MapResult` |
| Base.Zip | dyrm/ffgetter.py:542 | `zip(a, b)` pairs by position and is as long as the shorter list |
| Base.FirstKeys | dyrm/do_you_read_me.py:68 | the keys of `dict((x.ref, x) for x in recs)`: exactly the refs of the records, each once |
| Base.LastBy | dyrm/do_you_read_me.py:68 | the values of that dict, where the last record under each key wins |
| Base.LastByIsLast | dyrm/do_you_read_me.py:68 | the record kept under a key is the last one carrying it |
| Base.FirstKeysCoverLastBy | dyrm/do_you_read_me.py:68 | both views of the dict hold the same keys |
| Site.Put | dyrm/ffgetter.py:154-164 | `payload[k] = v`: the key reads as `v`, every other key is unchanged, an existing key keeps its place and a new key goes last |
| Site.ChaptersRequest | dyrm/ffgetter.py:154-164 | `storyid` is set in the given payload, with its other keys kept, or in a fresh payload holding only `storyid` |
| Site.ChapterSingleRequest | dyrm/ffgetter.py:166-177 | `storytextid` is always present; month and year are present exactly when given non-empty |
| Site.FanfictionGetter.constructor | dyrm/ffgetter.py:114-115 | a getter with the given responses and an empty fetch log |
| Site.FanfictionGetter.Fetch | dyrm/ffgetter.py:111-210 | one request logged and answered |
| Site.FanfictionGetter.GetOldStoryEyesTree | dyrm/ffgetter.py:117-125 | the month's story-eyes page requested once and returned |
| Site.FanfictionGetter.GetStoryEyesTree | dyrm/ffgetter.py:127-134 | the current story-eyes page requested once and returned |
| Site.FanfictionGetter.GetLegacyTree | dyrm/ffgetter.py:136-141 | the all-time story page requested once and returned |
| Site.FanfictionGetter.GetLegacyPart | dyrm/ffgetter.py:143-147 | a story's favourites or follows page requested once and returned |
| Site.FanfictionGetter.GetChaptersTree | dyrm/ffgetter.py:154-164 | the chapters page requested once with `ChaptersRequest` |
| Site.FanfictionGetter.GetChapterSingle | dyrm/ffgetter.py:166-177 | one chapter's page requested once with `ChapterSingleRequest` |
| Site.FanfictionGetter.GetFavMe | dyrm/ffgetter.py:179-185 | the author's favourites page requested once and returned |
| Site.FanfictionGetter.GetFollowMe | dyrm/ffgetter.py:187-193 | the author's follows page requested once and returned |
| Extract.RefRoundTrip | dyrm/ffgetter.py:527-533 | the number written after the first occurrence of the id marker is the id read back |
| Extract.RefAbsent | dyrm/ffgetter.py:527-533 | a link without the marker gives id 0 |
| Extract.StoryRefRoundTrip | dyrm/ffgetter.py:527-533 | `storyid=N` in a story link reads back as N |
| Extract.ChapterRefRoundTrip | dyrm/ffgetter.py:787-793 | `storytextid=N` in a chapter link reads back as N |
| Extract.UserRefRoundTrip | dyrm/ffgetter.py:632-638 | `/u/N/` in a user link reads back as N |
| Extract.Col | dyrm/ffgetter.py:546-555 | `cols[k]`, or the IndexError of a short row |
| Extract.NumColsGrouped | dyrm/ffgetter.py:546-555 | numbers printed with separators read back from their columns |
| Extract.StoryRowRoundTrip | dyrm/ffgetter.py:535-555 | a printed story row and its link read back as the story record |
| Extract.StoryRows | dyrm/ffgetter.py:535-555 | `None` exactly when rows and links differ in number; otherwise one record per row, in order, failing exactly when some row fails |
| Extract.ChapterRowRoundTrip | dyrm/ffgetter.py:795-816 | a printed chapter row and its link read back as the chapter record |
| Extract.ChapterCols | dyrm/ffgetter.py:806-815 | columns 1 to 5 of a chapter row give number, title, words, views and visitors |
| Extract.ChapterRows | dyrm/ffgetter.py:795-816 | `None` exactly on a count mismatch; otherwise one record per row, in order |
| Extract.UserRowRoundTrip | dyrm/ffgetter.py:640-656 | a printed user row reads back as its id, alias and date |
| Extract.UserRowOfCols | dyrm/ffgetter.py:649-654 | a user row reads as its second and third lines, stripped |
| Extract.Users | dyrm/ffgetter.py:640-656 | `None` exactly on a count mismatch; otherwise one user per row; only a short row fails, with an IndexError |
| Extract.LegacyRowOf | dyrm/ffgetter.py:387-407 | one legacy row: id and title from the first cell's link, then the seven counters; a first cell without a link target fails |
| Extract.LegacyRowRoundTrip | dyrm/ffgetter.py:387-407 | a printed legacy row reads back as its record |
| Extract.LegacyRowRead | dyrm/ffgetter.py:387-407 | a row whose first cell and counters are known reads as that record |
| Extract.LegacyRows | dyrm/ffgetter.py:387-407 | every row read, or the first failing row's fault |
| Extract.LegacyTitles | dyrm/ffgetter.py:383-385 | the id and title of every legacy row |
| Extract.Counters | dyrm/ffgetter.py:437-456 | labels, views and visitors zipped into counters, as long as the shortest |
| Extract.ChartVisits | dyrm/ffgetter.py:437-456 | a chart's three groups read in order, the first failure reported |
| Extract.Visits | dyrm/ffgetter.py:437-456 | nothing past the last chart or for a chart without XML; otherwise that chart's counters; a negative index counts from the end |
| Extract.MonthLatest | dyrm/ffgetter.py:487-495 | fails exactly on an empty menu; otherwise `None` exactly when the first entry does not match "M/Y", and digit strings for month and year when it does |
| Extract.MonthLatestRoundTrip | dyrm/ffgetter.py:487-495 | a menu entry "MM/YYYY" gives back its month and year texts |
| Extract.CaptionFromCells | dyrm/ffgetter.py:589-602 | `None` exactly when no cell matches the caption pattern |
| Extract.CaptionFromFirstCell | dyrm/ffgetter.py:589-602 | the caption comes from the first matching cell |
| Extract.CaptionRoundTrip | dyrm/ffgetter.py:589-602 | a printed caption reads back as its year, zero-padded month and totals |
| Extract.CaptionCellRoundTrip | dyrm/ffgetter.py:589-602 | a caption cell after cells without a caption gives its month and totals |
| Extract.CaptionRecordRoundTrip | dyrm/ffgetter.py:589-602 | the record read from a printed caption holds the month and totals it was printed from |
| Extract.LegacyTableParser.constructor | dyrm/ffgetter.py:372-373 | no rows selected |
| Extract.LegacyTableParser.SetTree | dyrm/ffgetter.py:375-377 | the rows of the page's legacy table are selected |
| Extract.LegacyTableParser.GetNumRows | dyrm/ffgetter.py:379-381 | the number of selected rows |
| Extract.LegacyTableParser.GetRows | dyrm/ffgetter.py:387-407 | the loop computes `LegacyRows` of the selected rows |
| Extract.LegacyTableParser.GetTitles | dyrm/ffgetter.py:383-385 | the loop computes `LegacyTitles` of the selected rows |
| Extract.VisitorChartParser.constructor | dyrm/ffgetter.py:426-427 | no charts selected |
| Extract.VisitorChartParser.SetTree | dyrm/ffgetter.py:429-431 | the page's charts are selected |
| Extract.VisitorChartParser.GetNumCharts | dyrm/ffgetter.py:433-435 | the number of selected charts |
| Extract.VisitorChartParser.GetVisits | dyrm/ffgetter.py:437-456 | returns `Visits` of the selected charts |
| Extract.MonthMenuParser.constructor | dyrm/ffgetter.py:473-474 | no menu entries selected |
| Extract.MonthMenuParser.SetTree | dyrm/ffgetter.py:476-478 | the page's month menu is selected |
| Extract.MonthMenuParser.GetMenu | dyrm/ffgetter.py:480-485 | the selected menu entries |
| Extract.MonthMenuParser.GetMonthLatest | dyrm/ffgetter.py:487-495 | `MonthLatest` of the selected entries |
| Extract.MonthStoryRowsParser.constructor | dyrm/ffgetter.py:518-520 | no rows and no links selected |
| Extract.MonthStoryRowsParser.SetTree | dyrm/ffgetter.py:522-525 | the story table's row texts and links are selected |
| Extract.MonthStoryRowsParser.GetRows | dyrm/ffgetter.py:535-555 | the loop computes `StoryRows` |
| Extract.MonthCaptionParser.constructor | dyrm/ffgetter.py:582-583 | no caption cells selected (`None`) |
| Extract.MonthCaptionParser.SetTree | dyrm/ffgetter.py:585-587 | the caption cells are selected |
| Extract.MonthCaptionParser.GetCaption | dyrm/ffgetter.py:589-602 | before `set_tree` it fails (`None` is not iterable); afterwards the loop computes `CaptionFromCells` |
| Extract.UserParser.constructor | dyrm/ffgetter.py:623-625 | no rows and no links selected |
| Extract.UserParser.SetTree | dyrm/ffgetter.py:627-630 | the user table's row texts and links are selected |
| Extract.UserParser.GetUsers | dyrm/ffgetter.py:640-656 | the loop computes `Users` |
| Extract.MonthChapterRowsParser.constructor | dyrm/ffgetter.py:778-780 | no rows and no links selected |
| Extract.MonthChapterRowsParser.SetTree | dyrm/ffgetter.py:782-785 | the chapter table's row texts and links are selected |
| Extract.MonthChapterRowsParser.GetRows | dyrm/ffgetter.py:795-816 | the loop computes `ChapterRows` |
| Store.WithCountField | dyrm/readme_db.py:718-779 | setting one field of a counter row changes that field only |
| Store.WithDefault | dyrm/readme_db.py:718-779 | get-or-create: an existing row is kept as it is, and a missing one gets the default |
| Store.WithDefaultIdempotent | dyrm/readme_db.py:718-779 | calling a get-or-create twice has the effect of calling it once |
| Store.MonthCreated | dyrm/readme_db.py:781-789 | the month is on record afterwards and every old row is kept; a new row goes only under `mid`; it fails exactly when the month is new and `mid` is taken |
| Store.MonthCreatedAgain | dyrm/readme_db.py:781-789 | once the month is on record, asking again under any `mid` changes nothing |
| Store.WithLegacyField | dyrm/do_you_read_me.py:56-62 | `setattr` on a Legacy row changes that field only |
| Store.WithAo3Field | dyrm/do_you_read_ao3.py:74-93 | `setattr` on an Ao3Stories row changes that field only |
| Store.FavCounts | dyrm/readme_db.py:573-577 | a story is present exactly when it has a favourite, and a missing story reads as 0; each count is the number of its favourites |
| Store.FollowCounts | dyrm/readme_db.py:599-603 | the same for follows |
| Store.Cleared | dyrm/readme_db.py:566-571 | no flag stays 1, the same refs keep a row, and flags that were not 1 are unchanged |
| Store.TitlesOf | dyrm/readme_db.py:631-635 | the catalogue entries of a batch of titles, where the last record of a ref wins |
| Store.TitlesOfLast | dyrm/readme_db.py:631-635 | the title kept under a ref is that of the last record carrying it |
| Store.LegacyRecsIter | dyrm/readme_db.py:34-45 | each record with the title dropped and the other fields in order |
| Store.LegacyRecsIterKeepsAll | dyrm/readme_db.py:34-45 | putting the title back gives the original record |
| Store.LatestExists | dyrm/readme_db.py:692-696 | whenever a month is on record, some month is not earlier than any other |
| Store.ChecksPending | dyrm/readme_db.py:558-564 | exactly the flagged (ref, title) pairs, sorted by title, each ref once; it fails exactly when a flagged ref has no story |
| Store.ReadMeDb.constructor | dyrm/readme_db.py:521-530 | session and persisted state are the stored tables, and the commit flag is off |
| Store.ReadMeDb.Exit | dyrm/readme_db.py:535-538 | the session is persisted exactly when the commit flag is set |
| Store.ReadMeDb.SetCommitFlag | dyrm/readme_db.py:540-542 | the commit flag takes the given value |
| Store.ReadMeDb.GetOrCreateCounts | dyrm/readme_db.py:718-779 | the existing counter row, or a new one with zero views and visitors; no other table changes |
| Store.ReadMeDb.SetCounts | dyrm/ffmonthly.py:172-174 | a held counter row takes the given counts; nothing else changes |
| Store.ReadMeDb.SetCheckPending | dyrm/readme_db.py:548-556 | the story's flag becomes 1, and the row is created when missing |
| Store.ReadMeDb.GetChecksPending | dyrm/readme_db.py:558-564 | `ChecksPending` of the session |
| Store.ReadMeDb.ClearChecksPending | dyrm/readme_db.py:566-571 | every flag becomes `Cleared`; nothing else changes |
| Store.ReadMeDb.GetOrCreateMonth | dyrm/readme_db.py:781-789 | the month row with this (month, year); `mid` is used only when the row is created; a taken `mid` fails and changes nothing |
| Store.ReadMeDb.GetLastMonth | dyrm/readme_db.py:692-696 | `None` exactly when no month is on record; otherwise a month with the greatest (year, month) |
| Store.ReadMeDb.GetLastMid | dyrm/readme_db.py:698-703 | 0 when no month is on record; otherwise the key of a latest month |
| Store.ReadMeDb.GetOrCreateChapter | dyrm/readme_db.py:791-801 | an existing chapter is kept; a new one is built from the scraped row |
| Store.ReadMeDb.SetChapterTitle | dyrm/ffmonthly.py:257-262 | only the title of the held chapter row changes |
| Store.ReadMeDb.GetOrCreateUser | dyrm/readme_db.py:637-644 | an existing user keeps their country; a new one gets the given country and no date |
| Store.ReadMeDb.GetOrCreateAlias | dyrm/readme_db.py:664-672 | the name is added after the user's aliases unless it is already one of them |
| Store.ReadMeDb.GetOrCreateStory | dyrm/readme_db.py:674-681 | an existing story keeps its title; a new one gets the given title; the stored title is returned |
| Store.ReadMeDb.SetStoryTitle | dyrm/do_you_read_me.py:100-104 | only the held story's title changes |
| Store.ReadMeDb.BatchInsertStories | dyrm/readme_db.py:631-635 | the whole batch is inserted exactly when its refs are distinct and new; otherwise it fails and nothing changes |
| Store.ReadMeDb.CreateEmptyLegacy | dyrm/readme_db.py:803-808 | a new ref gets a Legacy row with the column defaults (one chapter, all else 0); an existing ref fails and nothing changes |
| Store.ReadMeDb.SetLegacy | dyrm/do_you_read_me.py:56-62 | only the held Legacy row changes |
| Store.ReadMeDb.GetOrCreateAo3Story | dyrm/readme_db.py:683-690 | an existing work's row is kept; a new one gets zero counters |
| Store.ReadMeDb.SetAo3 | dyrm/do_you_read_ao3.py:74-93 | only the held work's row changes |
| Store.ReadMeDb.GetOrCreateMember | dyrm/readme_db.py:646-662 | the membership row is there afterwards; nothing else changes |
| Store.ReadMeDb.AddMember | dyrm/do_you_read_me.py:182-203 | a membership row that was absent is added |
| Store.ReadMeDb.DeleteMember | dyrm/do_you_read_me.py:182-203 | a membership row that was present is deleted |
| Monthly.StepReports | dyrm/reportgen.py:51-163 | one comparison reports something exactly when the stored counts differ from the scraped ones, with one line per differing field, under the item's section and no other |
| Monthly.ItemEntriesEmpty | dyrm/ffmonthly.py:158-174 | stored and scraped counts agree exactly when a comparison records nothing |
| Monthly.PassBaseline | dyrm/ffmonthly.py:200-237 | after a pass, every row some item is for holds the counts of the last item for it |
| Monthly.PassOthers | dyrm/ffmonthly.py:200-237 | a pass leaves every row no item is for as it was |
| Monthly.PassQuiet | dyrm/ffmonthly.py:200-237 | a pass over counts the baseline already holds writes nothing and reports nothing |
| Monthly.PassTwice | dyrm/ffmonthly.py:200-237 | running the same pass again right after changes nothing |
| Monthly.PassSections | dyrm/ffmonthly.py:200-237 | lines go only under the sections of the items |
| Monthly.Upserted | dyrm/readme_db.py:718-779 | a get-or-create followed by a write of the scraped counts (or no write when they are there already) is one step |
| Monthly.CountryItems | dyrm/ffmonthly.py:200-215 | the month's countries, compared under "Monthly" |
| Monthly.StoryCountryItems | dyrm/ffmonthly.py:217-237 | a story's countries, compared under the story title |
| Monthly.ChapCountryItems | dyrm/ffmonthly.py:316-339 | a chapter's countries, compared under the story title |
| Monthly.StoryPassTally | dyrm/ffmonthly.py:176-198 | the counts and lines of the story pass are those of a pass over its items |
| Monthly.MovedLast | dyrm/ffmonthly.py:176-198 | with one row per story, whether a story moved does not depend on the stories before it |
| Monthly.StoryPassPending | dyrm/ffmonthly.py:176-198 | the flagged stories afterwards are exactly those flagged before and those whose counts moved |
| Monthly.StoryPassChanged | dyrm/ffmonthly.py:176-198 | the changed-title set gains exactly the titles of the stories whose counts moved |
| Monthly.StoryEyes | dyrm/ffmonthly.py:368-396 | the caption, both charts and the story table read in that order; it succeeds exactly when all four read, and a missing caption gives `NoCaption` |
| Monthly.CompareChapterRecs | dyrm/ffmonthly.py:342-365 | the row ends as the scraped counts; one line per moved field; the record is listed once, exactly when some field moved |
| Monthly.CompareChapterField | dyrm/ffmonthly.py:342-365 | one field reported and set when it moved |
| Monthly.FieldStep | dyrm/ffmonthly.py:342-365 | a field reads as stored until it is written, and it is written exactly when it reports a line |
| Monthly.WrittenAll | dyrm/ffmonthly.py:342-365 | with every field written the row is the scraped counts, and it reported exactly when it moved |
| Monthly.CompareChapCountryRecs | dyrm/ffmonthly.py:316-339 | each field is set from the scraped counts; the lines are those of the two comparisons |
| Monthly.ChapterLoopErr | dyrm/ffmonthly.py:239-271 | once a prefix of the chapter rows stops on a fault, the whole loop stops there, with that state and fault |
| Monthly.PendingLoopErr | dyrm/ffmonthly.py:136-156 | once a prefix of the pending list stops, the whole loop stops there, with that state and fault |
| Monthly.MonthlyDataTree.constructor | dyrm/ffmonthly.py:108-134 | the month as a two-digit zero-padded string and the year as a string; a report titled "Hits for MM/YYYY" is made when none is given, with the tree's catch-up mode; the monthly report is always new |
| Monthly.MonthlyDataTree.Create | dyrm/ffmonthly.py:108-134 | a tree for a month; without a page given, the month's story-eyes page is fetched once and its failure is the result; on success the tree has the month fields of the constructor, an empty changed-story set and the given or a fresh report |
| Monthly.MonthlyDataTree.CheckCaptionUpdates | dyrm/ffmonthly.py:158-174 | the month totals compared under "Monthly" and the row made equal to the caption; only the counter rows change |
| Monthly.MonthlyDataTree.CheckCountryUpdates | dyrm/ffmonthly.py:200-215 | a pass over the month's countries; only the counter rows change |
| Monthly.MonthlyDataTree.CheckStoryUpdates | dyrm/ffmonthly.py:176-198 | the story pass: each moved story written, flagged and its title noted; only counters and flags change |
| Monthly.MonthlyDataTree.CheckStoryRow | dyrm/ffmonthly.py:179-198 | one story of that pass |
| Monthly.MonthlyDataTree.CheckCountryTotalsForStory | dyrm/ffmonthly.py:217-237 | a pass over one story's countries; only the counter rows change |
| Monthly.MonthlyDataTree.DoSingleChapter | dyrm/ffmonthly.py:273-285 | the chapter's page for the month fetched and its countries compared, or the fault with the state at that point |
| Monthly.MonthlyDataTree.CompareChapterCountries | dyrm/ffmonthly.py:279-285 | a pass over the chapter's countries |
| Monthly.MonthlyDataTree.CheckStoryChapters | dyrm/ffmonthly.py:239-271 | the story's chapters page; its countries, then each chapter row, compared; a fault keeps the writes made before it |
| Monthly.MonthlyDataTree.CheckChapterRow | dyrm/ffmonthly.py:257-270 | one chapter row: its chapter row, its counts, and its own page when the counts moved |
| Monthly.MonthlyDataTree.DoChapterHeirarchy | dyrm/ffmonthly.py:136-156 | the page read; caption, then countries, with that report printed; then the stories; then each pending story's chapters in title order with its section printed; then the flags cleared |
| Monthly.MonthlyDataTree.MonthlyTotals | dyrm/ffmonthly.py:143-145 | caption totals and countries compared, then the monthly report printed |
| Monthly.MonthlyDataTree.CheckPendingStories | dyrm/ffmonthly.py:147-156 | each pending story's chapters compared and its section printed, then every flag cleared |
| Monthly.MonthlyDataTree.CheckPendingList | dyrm/ffmonthly.py:150-154 | the loop over the pending list, stopping at the first fault |
| Monthly.PageCase | dyrm/ffmonthly.py:60-76 | the case a fetched page makes against the month on record: no caption, a failed read, the same month or a new month |
| Monthly.MonthlySetup.constructor | dyrm/ffmonthly.py:40-50 | no last month exactly when no month is on record (the bootstrap case); otherwise a latest month |
| Monthly.MonthlySetup.GetDataTrees | dyrm/ffmonthly.py:52-96 | no trees and no fetch in the bootstrap case; no trees without a caption; one tree for the last month when the month is the same; on a crossover two trees, the old month first over a page fetched anew and the new month with the shared report; only a crossover changes the tables; in the bootstrap, no-caption and failed cases the catch-up return is unchanged |
| Monthly.MonthlySetup.TreesOver | dyrm/ffmonthly.py:60-96 | the same once the current page is in hand, with the catch-up return unchanged when no tree is built |
| Monthly.MonthlySetup.Crossover | dyrm/ffmonthly.py:76-89 | the new month recorded under the last month's key plus one when it was not yet on record (the existing key otherwise), with the rest of the session unchanged; the old month's tree gets a fresh report without catch-up; it fails only when the month row cannot be created or the old page cannot be read |
| Legacy.CompareStoryRecs | dyrm/do_you_read_me.py:94-104 | the story ends with the scraped title, created when missing |
| Legacy.CompareTitlesToDb | dyrm/do_you_read_me.py:107-123 | an empty catalogue is filled in one batch, which fails exactly on a repeated ref; otherwise the catalogue ends holding every scraped title under its ref and keeping every other story |
| Legacy.CompareEachTitle | dyrm/do_you_read_me.py:116-123 | over a catalogue that has stories, the catalogue ends holding every scraped title under its ref (the last record of a ref winning) and every other story as it was |
| Legacy.LastByTitles | dyrm/do_you_read_me.py:116-118 | the dict of scraped titles agrees with the catalogue entries they write |
| Legacy.LegacyAll | dyrm/do_you_read_me.py:44-62 | after the comparison the row holds the scraped counters, and nothing was reported exactly when it held them before |
| Legacy.LegacyWrittenField | dyrm/do_you_read_me.py:56-62 | a field compared reads as scraped, one not compared as stored |
| Legacy.LegacyEntriesQuiet | dyrm/do_you_read_me.py:56-62 | a comparison is silent exactly when no compared field moved |
| Legacy.CompareLegacyRecs | dyrm/do_you_read_me.py:44-62 | a story without a row gets the defaults first (failing when the ref is taken); chapters, reviews, views, C2s, favourites and follows compared and set, one line per moved field under the title; words and title never compared |
| Legacy.CompareLegacyFields | dyrm/do_you_read_me.py:56-62 | the loop over the six counters |
| Legacy.LegacyRunQuiet | dyrm/do_you_read_me.py:65-75 | stories whose rows already hold the scraped counters report nothing |
| Legacy.ListCounts | dyrm/do_you_read_me.py:69-72 | the favourite and follow count dicts: each story reads as the size of its stored list, 0 when it has none |
| Legacy.StaleIn | dyrm/do_you_read_me.py:77-91 | a story is picked exactly when it had a row before and its counter as now written differs from its stored list size |
| Legacy.StaleDistinct | dyrm/do_you_read_me.py:77-91 | no story is picked twice |
| Legacy.RowsOf | dyrm/do_you_read_me.py:65-75 | the Legacy rows the scraped records write, where the last record of a ref wins |
| Legacy.RowsOfLast | dyrm/do_you_read_me.py:65-75 | those rows hold the counters of each ref's last record |
| Legacy.CompareLegacyRecsToDb | dyrm/do_you_read_me.py:65-91 | every scraped story compared with its row as it stood before, in first-seen order; the stories to re-read are exactly those with a row before whose favourites (follows) counter differs from the stored list, in the same order |
| Legacy.CompareEachLegacy | dyrm/do_you_read_me.py:74-77 | the first loop: each story compared with its old row |
| Legacy.ListsToUpdate | dyrm/do_you_read_me.py:79-91 | the second loop computes both re-read lists |
| Legacy.StaleMeaning | dyrm/do_you_read_me.py:79-91 | as sets, the re-read lists are the stories with a row whose scraped counter disagrees with the stored list; each list has no repeats |
| Legacy.StaleNone | dyrm/do_you_read_me.py:79-91 | once the stored lists match the counters, an unchanged page picks nothing |
| Legacy.DoLegacyStoryPage | dyrm/do_you_read_me.py:21-41 | the all-time page fetched once; the titles brought into the catalogue first, then the counters compared; a failure leaves the tables and report unchanged |
| Legacy.PartRequests | dyrm/do_you_read_me.py:244-272 | one page request per story, in order |
| Legacy.FetchedMeaning | dyrm/do_you_read_me.py:244-272 | the fetch log grows by exactly those requests |
| Legacy.ListTablesCodes | dyrm/do_you_read_me.py:244-272 | after every page was read, each listed story's stored list is the one its page shows, and no other list moved |
| Legacy.CompareStoryList | dyrm/do_you_read_me.py:244-258 | one story's page fetched and its list brought level with it, keyed by its catalogue title or "Unknown" |
| Legacy.CheckListChanges | dyrm/do_you_read_me.py:244-258 | each story's list compared in order until a page cannot be read; the stories before the failure are compared in full |
| Legacy.CheckFavFollowChanges | dyrm/do_you_read_me.py:236-274 | favourites first, then follows, keyed by the titles held at the start; it fails exactly when a page cannot be read |
| Legacy.FavFollowCodes | dyrm/do_you_read_me.py:236-274 | afterwards each listed story's favourites and follows are those its pages show, and every other list is as it was |
| Members.Codes | dyrm/do_you_read_me.py:126-149 | the users on one stored list of one owner |
| Members.RowsCodes | dyrm/do_you_read_me.py:182-203 | adding or deleting the rows of some users changes that list by exactly those users, and no other list |
| Members.WebOf | dyrm/do_you_read_me.py:152-179 | the users of a page, where a count mismatch and an empty page both give none; each user has an alias |
| Members.WebOfLastAlias | dyrm/get_userstats.py:96-123 | the alias kept for a user is the one of the last row carrying them |
| Members.GetWebUsers | dyrm/get_userstats.py:96-123 | the page fetched once and its users read |
| Members.DetailsToDb | dyrm/get_userstats.py:14-35 | "added" inserts the row only when absent, "removed" deletes it only when present; nothing else changes |
| Members.AppliedIdempotent | dyrm/do_you_read_me.py:182-203 | applying a detail twice is applying it once |
| Members.ReportChange | dyrm/do_you_read_me.py:206-233 | each user of the set handled once in the set's order: made if missing, the first stored alias or else the page's alias or "New User" used, the page's alias kept when the user had none, one line under the key, the membership row written |
| Members.ChangeOne | dyrm/get_userstats.py:50-68 | one user of that loop |
| Members.ChangeEntriesFrame | dyrm/do_you_read_me.py:206-233 | a user's line depends only on that user's rows |
| Members.ComparedMembers | dyrm/get_userstats.py:126-158 | after a comparison the stored list is the page's list and no other list moved |
| Members.ComparedUsers | dyrm/get_userstats.py:50-51 | every user who joined or left has a user row afterwards, and no existing user row changed |
| Members.ComparedAliases | dyrm/get_userstats.py:57-62 | an alias is stored only for a joiner who had none and whose page shows one other than "New User" |
| Members.ComparisonLines | dyrm/get_userstats.py:126-158 | one line under the key per user who joined or left, joiners first, and no line under any other key |
| Members.ComparedNoop | dyrm/get_userstats.py:126-158 | a list that already matches the page is left as it is |
| Members.ApplyComparison | dyrm/do_you_read_me.py:248-258 | joiners reported and added, then leavers reported and deleted, both shown as the tables stood before |
| Members.CompareList | dyrm/get_userstats.py:126-140 | one list fetched, read and brought level with the page; a failed fetch or read changes nothing |
| UserStats.MeRequest | dyrm/ffgetter.py:179-193 | the author's favourites or follows page |
| UserStats.PrintList | dyrm/get_userstats.py:126-158 | the list ends equal to the page's users, with `added` = web − stored and `removed` = stored − web; the "Me" lines grow by their sizes together; a failed page changes nothing |
| UserStats.UserStatsRun | dyrm/get_userstats.py:161-190 | favourites, then follows: afterwards both of the author's lists are the pages' lists, the "Me" lines grew by the four set differences, and a failure stops at the page that failed; a failed favourites page changes neither the tables nor the report; when the follows page fails after the favourites page succeeded, the FavMe table is already the favourites page's list and the "Me" lines grew by the two favourites differences, the state `main` commits after catching the connection error |
| UserStats.UserStatsAgain | dyrm/get_userstats.py:14-35 | running again against the same pages changes nothing |
| Ao3.RepresentsIntCases | dyrm/do_you_read_ao3.py:19-24 | every formatted integer is recognised, and blank text is not |
| Ao3.PyIntReadsBack | dyrm/do_you_read_ao3.py:19-24 | `int()` reads every formatted integer back as itself, which is what the record round trips assume of the number reader |
| Ao3.Ao3RecOf | dyrm/do_you_read_ao3.py:44-65 | one work's record titled by its heading; a missing statistic is 0 and the first bad number is the fault |
| Ao3.PageRecsShape | dyrm/do_you_read_ao3.py:39-71 | one record per heading that has a stats block, cut to the shorter list, each titled by its heading; a failure exactly when some paired work fails |
| Ao3.ShownRoundTrip | dyrm/do_you_read_ao3.py:44-65 | a work shown reads back as the same record |
| Ao3.PageRoundTrip | dyrm/do_you_read_ao3.py:39-71 | a page showing a list of works reads back as that list |
| Ao3.ParseTree | dyrm/do_you_read_ao3.py:39-71 | the page's records appended to the caller's list, whose earlier entries stay as they were; a bad number ends it with that fault |
| Ao3.LeadingInts | dyrm/do_you_read_ao3.py:119-127 | the leading labels that are integers, as integers, stopping at the first label that is not |
| Ao3.LeadingIntsUnique | dyrm/do_you_read_ao3.py:119-127 | those three properties pick out exactly one list |
| Ao3.PageKeys | dyrm/do_you_read_ao3.py:119-127 | the pagination loop computes `LeadingInts` |
| Ao3.MovedMeaning | dyrm/do_you_read_ao3.py:74-93 | the changed list holds exactly the compared fields that moved |
| Ao3.MovedCount | dyrm/do_you_read_ao3.py:74-93 | one report line per moved field |
| Ao3.Ao3All | dyrm/do_you_read_ao3.py:74-93 | afterwards the row holds the scraped counters, and nothing changed exactly when it held them before |
| Ao3.CompareAo3Rec | dyrm/do_you_read_ao3.py:74-93 | hits, kudos, comments, bookmarks and ref compared in that order; the moved ones reported, set, and returned in that order |
| Ao3.PageRequests | dyrm/do_you_read_ao3.py:129-135 | one request per numbered page, in order |
| Ao3.ReadWorks | dyrm/do_you_read_ao3.py:114-135 | the first page, then each numbered page, fetched and parsed onto one list |
| Ao3.WorksPrefixErr | dyrm/do_you_read_ao3.py:129-135 | once a page fails, the whole read fails with that fault |
| Ao3.Ao3StoredLast | dyrm/do_you_read_ao3.py:137-142 | a work's row afterwards holds the counters of the last record with its title |
| Ao3.Ao3StoredOther | dyrm/do_you_read_ao3.py:137-142 | a title no record has keeps its row, or stays absent |
| Ao3.StoreWorks | dyrm/do_you_read_ao3.py:137-142 | each record's row got or made, then compared |
| Ao3.Ao3Update | dyrm/do_you_read_ao3.py:96-159 | every page read, then each record stored; a failed fetch or a bad number ends the run before any row is touched |
| Ao3.Ao3RunQuiet | dyrm/do_you_read_ao3.py:137-142 | with distinct titles, a second run over the same records reports and changes nothing |

## Left out

- The HTTP layer (`PageGetter`, dyrm/ffgetter.py:27-108): pacing, cookies, timeouts and sessions. Fetching is the `serve` function plus a request log, and a failed fetch is a `Fault`.
- URLs are not modelled. A request is a `Script` and an ordered payload.
- lxml parsing and XPath selection. A page is the selected content, given as strings.
- `FanfictionScraper` (dyrm/ffgetter.py:213-341) only forwards a tree to a parser, so the model calls the parsers directly.
- `UserCommentParser` and `UserProfParser` are not part of this model.
- `get_comment_tree`, `get_user_profile_tree`, `get_user_country` and `get_response` in `FanfictionGetter` are not part of this model.
- SQLAlchemy sessions, relationships, cascades and the foreign-key pragma.
  - Foreign keys are not enforced. The one exception: listing the pending checks needs each flagged story's title, and fails with `MissingStory` without it.
  - The key clash raised when the session flushes is `DuplicateKey`. It is raised at once by `GetOrCreateMonth`, `CreateEmptyLegacy` and `BatchInsertStories`.
  - `Store.ReadMeDb.GetOrCreateChapter`: the unique index on a chapter's (story, number) (dyrm/readme_db.py:224-225) is not enforced. A new chapter ref whose story and number are already taken, such as a chapter uploaded again under a new text id, is added, where the session's flush would fail.
  - A user's aliases are a sequence, oldest first. The order in which the relationship loads them is not modelled.
- readme_db.py methods that no modelled operation needs:
  - `get_last_mtop`;
  - `get_last_monthly`, which names an undefined class and cannot run;
  - `find_users_*`;
  - `batch_insert_ao3_stories`;
  - `get_favs_for_*` and `get_follows_for_*`.
- `get_stories`, `get_titles_dict` and `get_legacy_table_dict` are read directly as the session's maps.
- The `main` drivers and command-line entry points. `UserStats.UserStatsRun`, `Ao3.Ao3Update` and `Monthly.MonthlySetup.GetDataTrees` model the part of each driver that touches the tables and the report. Not modelled: the `with ReadMeDb` block and its commit (`Store.ReadMeDb.Exit` models that step on its own), `print_date_info`, `print_story_rows` and log formatting.
- `get_report`, `get_monthly_report` and `get_changed_story_set` only return fields, which the model reads directly.
- `Report.ReportGen.CompareTotalsByCountry`: catch-up mode only makes `false_return` 1. Equal values report no line in either mode, and the caller writes the equal value again, which changes nothing.
- `Store.ChecksPending`: two flagged stories with the same title are ordered by ref. Python's stable sort keeps the query's order there (dyrm/readme_db.py:558-564), which the map model does not have.
- `Text.PyInt`: it accepts ASCII digits, one sign and surrounding whitespace. It rejects forms that Python's `int()` also accepts: underscores such as "1_000" and non-ASCII decimal digits. Likewise the model reads the `\d` of the caption pattern (dyrm/ffgetter.py:572-574) as ASCII digits only, where Python's `\d` on text matches every Unicode decimal digit.
- `Members.WebOf`: a parser's `False` (a row and link count mismatch) is read as an empty page, as the callers do (dyrm/do_you_read_me.py:162-165, dyrm/get_userstats.py:105-108).
- `Monthly.MonthlyDataTree.DoChapterHeirarchy`: a fault on the monthly path leaves the writes made before it, as a `Run`. On the legacy and AO3 paths, and in `UserStats.PrintList`, a fault is stated only where the code fails before its first write, and there the model states that nothing changed. `UserStats.UserStatsRun` states the state after either page fails: nothing changed when the favourites page fails, and the favourites comparison applied when the follows page fails.
- `Ao3.ReadWorks`: the fetch log is stated only for a read that succeeds.
- `Ao3.CompareAo3Rec`: the code sets each moved field on the held row object; the model writes the finished row once, which has the same net effect.
- `Legacy.DoLegacyStoryPage`: the caller always passes the report. The branch that makes and prints a fresh "Legacy" report when none is given is not modelled.
- The counts pinned by the repository's tests (103 report keys on an empty database, one fetch for an up-to-date story) depend on test pages that are not part of this model.
- Floating-point pacing delays and `sys.exit` are not modelled. The missing caption in `do_story_eyes` is the fault `NoCaption`.
