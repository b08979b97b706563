/**
 * The monthly reconciler. A monthly pass reads the story-eyes page of one
 * month; compares its totals with the stored baseline at five levels
 * (month, country, story, story by country, chapter and chapter by
 * country); records a line for each count that moved; and writes the
 * scraped counts back.
 *
 * The functions first describe one comparison, a pass over a list of them
 * and a whole run as values. After them come the two classes of the
 * program, whose methods are proved to have exactly those effects.
 */
module Monthly {
  import opened Base
  import opened Text
  import opened Records
  import opened Store
  import opened Report
  import opened Site
  import opened Extract

  // ---------------------------------------------------------------------
  // One comparison, and a pass of them

  /** What a pass works on: the counter tables and the report its lines go to. */
  datatype Tally = Tally(counts: map<CountKey, Counts>, report: map<string, seq<string>>)

  /** How a change line names what moved. */
  datatype Subject =
    | Titled(title: string)                                   // `compare_and_print`
    | Country(country: string)                               // the two by-country comparisons
    | Chapter(num: int, title: string)                       // `compare_and_print_chapter`
    | CountryChapter(num: int, title: string, country: string) // `compare_and_print_ctry_chapter`

  function LineFor(s: Subject, valKey: string, oldVal: int, val: int): string
  {
    match s
    case Titled(t) => TitleLine(t, "", valKey, oldVal, val)
    case Country(c) => CountryLine(c, valKey, oldVal, val)
    case Chapter(n, t) => ChapterLine(n, t, valKey, oldVal, val)
    case CountryChapter(n, t, c) => CountryChapterLine(n, t, c, valKey, oldVal, val)
  }

  /** One scraped pair of counts: the row it belongs in, and the section and wording of its lines. */
  datatype Item = Item(key: CountKey, counts: Counts, section: string, subject: Subject)

  /** The two fields every counter row has, in the order they are compared. */
  const CountFields: seq<CountColumn> := [Views, Visitors]

  /** What the baseline holds for an item: its row, or the zero counts a get-or-create would insert. */
  function Stored(t: Tally, it: Item): Counts
  {
    Get(t.counts, it.key, NoCounts)
  }

  predicate Moved(t: Tally, it: Item)
  {
    Stored(t, it) != it.counts
  }

  /** The line for one field, when that field moved. */
  function FieldEntry(o: Counts, it: Item, f: CountColumn): seq<Entry>
  {
    var old_, new_ := CountField(o, f), CountField(it.counts, f);
    OnChange(old_, new_, Entry(it.section, LineFor(it.subject, ColumnName(f), old_, new_)))
  }

  /** The lines for the given fields, in order. */
  function FieldEntries(o: Counts, it: Item, fields: seq<CountColumn>): seq<Entry>
  {
    if fields == [] then []
    else FieldEntries(o, it, fields[..|fields| - 1]) + FieldEntry(o, it, fields[|fields| - 1])
  }

  /** The lines one comparison of stored counts `o` with an item records: views first, then visitors. */
  function ItemEntries(o: Counts, it: Item): seq<Entry>
  {
    FieldEntries(o, it, CountFields)
  }

  /** One comparison: the row ends up holding the scraped counts, and the moved fields are reported. */
  function Step(t: Tally, it: Item): Tally
  {
    Tally(t.counts[it.key := it.counts], RecordAll(t.report, ItemEntries(Stored(t, it), it)))
  }

  /** The comparisons of a list of items, one after the other. */
  function Pass(t: Tally, items: seq<Item>): Tally
  {
    if items == [] then t else Step(Pass(t, items[..|items| - 1]), items[|items| - 1])
  }

  lemma ItemEntriesUnfold(o: Counts, it: Item)
    ensures ItemEntries(o, it) == FieldEntry(o, it, Views) + FieldEntry(o, it, Visitors)
  {
    var fs := CountFields;
    assert fs[..1] == [Views] && fs[..1][..0] == [] && fs[1] == Visitors;
    assert FieldEntries(o, it, fs[..1]) == FieldEntries(o, it, []) + FieldEntry(o, it, Views);
    assert FieldEntries(o, it, fs) == FieldEntries(o, it, fs[..1]) + FieldEntry(o, it, Visitors);
  }

  /**
   * A comparison reports something exactly when the stored counts differ
   * from the scraped ones: one line per differing field, under the item's
   * section and no other.
   */
  lemma StepReports(t: Tally, it: Item)
    ensures Step(t, it).report == t.report <==> !Moved(t, it)
    ensures |LinesOf(Step(t, it).report, it.section)| == |LinesOf(t.report, it.section)|
        + (if Stored(t, it).views != it.counts.views then 1 else 0)
        + (if Stored(t, it).visitors != it.counts.visitors then 1 else 0)
    ensures forall k :: k != it.section ==> LinesOf(Step(t, it).report, k) == LinesOf(t.report, k)
  {
    var es := ItemEntries(Stored(t, it), it);
    ItemEntriesUnfold(Stored(t, it), it);
    RecordAllLines(t.report, es, it.section);
    var a, b := FieldEntry(Stored(t, it), it, Views), FieldEntry(Stored(t, it), it, Visitors);
    assert es == a + b;
    assert LinesFor(es, it.section) == LinesFor(a, it.section) + LinesFor(b, it.section) by {
      LinesForAppend(a, b, it.section);
    }
    forall k | k != it.section
      ensures LinesOf(Step(t, it).report, k) == LinesOf(t.report, k)
    {
      RecordAllLines(t.report, es, k);
      LinesForAppend(a, b, k);
    }
    if !Moved(t, it) {
      assert es == [];
    }
  }

  lemma {:induction false} LinesForAppend(a: seq<Entry>, b: seq<Entry>, key: string)
    ensures LinesFor(a + b, key) == LinesFor(a, key) + LinesFor(b, key)
    decreases |b|
  {
    if b == [] {
      assert a + b == a;
    } else {
      var b' := b[..|b| - 1];
      assert (a + b)[..|a + b| - 1] == a + b';
      LinesForAppend(a, b', key);
    }
  }

  /** The item at `i` is the last one for its row. */
  predicate LastFor(items: seq<Item>, i: int)
  {
    0 <= i < |items| && forall j :: i < j < |items| ==> items[j].key != items[i].key
  }

  /** Some item is for row `k`. */
  predicate Names(items: seq<Item>, k: CountKey)
  {
    exists i :: 0 <= i < |items| && items[i].key == k
  }

  /** After a pass, every row an item is for holds the counts of the last item for it. */
  lemma {:induction false} PassBaseline(t: Tally, items: seq<Item>)
    ensures forall i :: LastFor(items, i) ==>
      items[i].key in Pass(t, items).counts && Pass(t, items).counts[items[i].key] == items[i].counts
  {
    if items != [] {
      var front := items[..|items| - 1];
      var last := items[|items| - 1];
      PassBaseline(t, front);
      var c := Pass(t, items).counts;
      assert c == Pass(t, front).counts[last.key := last.counts];
      forall i | LastFor(items, i)
        ensures items[i].key in c && c[items[i].key] == items[i].counts
      {
        if i < |front| {
          assert items[i] == front[i];
          assert LastFor(front, i);
          assert items[i].key != last.key;
        }
      }
    }
  }

  /** A pass leaves every row no item is for as it was. */
  lemma {:induction false} PassOthers(t: Tally, items: seq<Item>, k: CountKey)
    requires !Names(items, k)
    ensures k in Pass(t, items).counts <==> k in t.counts
    ensures k in t.counts ==> Pass(t, items).counts[k] == t.counts[k]
  {
    if items != [] {
      var front := items[..|items| - 1];
      assert items[|items| - 1].key != k;
      assert forall i :: 0 <= i < |front| ==> front[i] == items[i];
      PassOthers(t, front, k);
    }
  }

  /** A pass over counts the baseline already holds changes nothing and reports nothing. */
  lemma {:induction false} PassQuiet(t: Tally, items: seq<Item>)
    requires forall i :: 0 <= i < |items| ==> items[i].key in t.counts && t.counts[items[i].key] == items[i].counts
    ensures Pass(t, items) == t
  {
    if items != [] {
      var front := items[..|items| - 1];
      var it := items[|items| - 1];
      PassQuiet(t, front);
      assert t.counts[it.key := it.counts] == t.counts;
      ItemEntriesUnfold(Stored(t, it), it);
    }
  }

  /** No two items are for the same row. */
  predicate KeysDistinct(items: seq<Item>)
  {
    forall i, j :: 0 <= i < j < |items| ==> items[i].key != items[j].key
  }

  /** Running the same pass again right after finds nothing to report and nothing to write. */
  lemma PassTwice(t: Tally, items: seq<Item>)
    requires KeysDistinct(items)
    ensures Pass(Pass(t, items), items) == Pass(t, items)
  {
    PassBaseline(t, items);
    assert forall i :: 0 <= i < |items| ==> LastFor(items, i);
    PassQuiet(Pass(t, items), items);
  }

  /** Lines go only under the sections of the items. */
  lemma {:induction false} PassSections(t: Tally, items: seq<Item>, k: string)
    requires forall i :: 0 <= i < |items| ==> items[i].section != k
    ensures LinesOf(Pass(t, items).report, k) == LinesOf(t.report, k)
  {
    if items != [] {
      PassSections(t, items[..|items| - 1], k);
      StepReports(Pass(t, items[..|items| - 1]), items[|items| - 1]);
    }
  }

  /** Stored counts and scraped counts agree exactly when a comparison records nothing. */
  lemma ItemEntriesEmpty(o: Counts, it: Item)
    ensures ItemEntries(o, it) == [] <==> o == it.counts
  {
    ItemEntriesUnfold(o, it);
  }

  /** The two comparisons of a row, one after the other, are one step's report. */
  lemma Compared(t: Tally, it: Item, r: map<string, seq<string>>)
    requires r == RecordAll(RecordAll(t.report, FieldEntry(Stored(t, it), it, Views)),
                            FieldEntry(Stored(t, it), it, Visitors))
    ensures r == Step(t, it).report
  {
    ItemEntriesUnfold(Stored(t, it), it);
    RecordAllAppend(t.report, FieldEntry(Stored(t, it), it, Views), FieldEntry(Stored(t, it), it, Visitors));
  }

  /** A get-or-create followed by writing the scraped counts, or by nothing when they are already there. */
  lemma Upserted(c: map<CountKey, Counts>, k: CountKey, n: Counts)
    ensures WithDefault(c, k, NoCounts)[k := n] == c[k := n]
    ensures Get(c, k, NoCounts) == n ==> WithDefault(c, k, NoCounts) == c[k := n]
  {
  }

  // ---------------------------------------------------------------------
  // The items of each level

  /** The month caption's totals, compared under "Monthly" by `check_caption_updates`. */
  function CaptionItem(mid: int, cap: MonthCaption): Item
  {
    Item(TopKey(mid), Counts(cap.views, cap.visitors), "Monthly", Titled("Monthly"))
  }

  /** The month's by-country chart, compared under "Monthly" by `check_country_updates`. */
  function CountryItems(mid: int, recs: seq<VisCounter>): (r: seq<Item>)
    ensures |r| == |recs|
    ensures forall i :: 0 <= i < |recs| ==>
      r[i] == Item(CtryKey(mid, recs[i].cat), Counts(recs[i].views, recs[i].visitors), "Monthly", Country(recs[i].cat))
  {
    seq(|recs|, i requires 0 <= i < |recs| =>
      Item(CtryKey(mid, recs[i].cat), Counts(recs[i].views, recs[i].visitors), "Monthly", Country(recs[i].cat)))
  }

  /** A story row of the month, compared under its title by `check_story_updates`. */
  function StoryItem(mid: int, s: MonthlyStoryRec): Item
  {
    Item(StoryKey(mid, s.ref), Counts(s.views, s.visitors), s.title, Titled(s.title))
  }

  function StoryItems(mid: int, rows: seq<MonthlyStoryRec>): (r: seq<Item>)
    ensures |r| == |rows|
    ensures forall i :: 0 <= i < |rows| ==> r[i] == StoryItem(mid, rows[i])
  {
    seq(|rows|, i requires 0 <= i < |rows| => StoryItem(mid, rows[i]))
  }

  /** A story's by-country chart, compared under the story title by `check_country_totals_for_story`. */
  function StoryCountryItems(mid: int, sref: int, sTitle: string, recs: seq<VisCounter>): (r: seq<Item>)
    ensures |r| == |recs|
    ensures forall i :: 0 <= i < |recs| ==>
      r[i] == Item(StoryCtryKey(mid, sref, recs[i].cat), Counts(recs[i].views, recs[i].visitors), sTitle, Country(recs[i].cat))
  {
    seq(|recs|, i requires 0 <= i < |recs| =>
      Item(StoryCtryKey(mid, sref, recs[i].cat), Counts(recs[i].views, recs[i].visitors), sTitle, Country(recs[i].cat)))
  }

  /** A chapter row of a story, compared under the story title by `compare_chapter_recs`. */
  function ChapterItem(mid: int, sref: int, sTitle: string, ch: MonthlyChapterRec): Item
  {
    Item(ChapKey(mid, sref, ch.num), Counts(ch.views, ch.visitors), sTitle, Chapter(ch.num, ch.title))
  }

  /** A chapter's by-country chart, compared under the story title by `compare_chap_country_recs`. */
  function ChapCountryItems(mid: int, sref: int, sTitle: string, ch: MonthlyChapterRec, recs: seq<VisCounter>): (r: seq<Item>)
    ensures |r| == |recs|
    ensures forall i :: 0 <= i < |recs| ==>
      r[i] == Item(ChapCtryKey(mid, sref, ch.num, recs[i].cat), Counts(recs[i].views, recs[i].visitors),
                   sTitle, CountryChapter(ch.num, ch.title, recs[i].cat))
  {
    seq(|recs|, i requires 0 <= i < |recs| =>
      Item(ChapCtryKey(mid, sref, ch.num, recs[i].cat), Counts(recs[i].views, recs[i].visitors),
           sTitle, CountryChapter(ch.num, ch.title, recs[i].cat)))
  }

  // ---------------------------------------------------------------------
  // The story pass: a moved story is flagged for a chapter check

  /** What `check_story_updates` works on: the tally, the check-pending flags and the changed titles. */
  datatype Stories = Stories(tally: Tally, checkPend: map<int, int>, changed: set<string>)

  function StoryStep(s: Stories, mid: int, st: MonthlyStoryRec): Stories
  {
    var it := StoryItem(mid, st);
    var t := Step(s.tally, it);
    if Moved(s.tally, it) then Stories(t, s.checkPend[st.ref := 1], s.changed + {st.title})
    else Stories(t, s.checkPend, s.changed)
  }

  function StoryPass(s: Stories, mid: int, rows: seq<MonthlyStoryRec>): Stories
  {
    if rows == [] then s else StoryStep(StoryPass(s, mid, rows[..|rows| - 1]), mid, rows[|rows| - 1])
  }

  /** The counts and lines of the story pass are those of a pass over its items. */
  lemma {:induction false} StoryPassTally(s: Stories, mid: int, rows: seq<MonthlyStoryRec>)
    ensures StoryPass(s, mid, rows).tally == Pass(s.tally, StoryItems(mid, rows))
  {
    if rows != [] {
      var front := rows[..|rows| - 1];
      StoryPassTally(s, mid, front);
      assert StoryItems(mid, rows)[..|rows| - 1] == StoryItems(mid, front);
    }
  }

  predicate RefsDistinct(rows: seq<MonthlyStoryRec>)
  {
    forall i, j :: 0 <= i < j < |rows| ==> rows[i].ref != rows[j].ref
  }

  /** Story `i` of the page has counts other than the baseline's. */
  predicate MovedAt(t: Tally, mid: int, rows: seq<MonthlyStoryRec>, i: int)
    requires 0 <= i < |rows|
  {
    Moved(t, StoryItem(mid, rows[i]))
  }

  /** With one row per story, whether the last story moved does not depend on the stories before it. */
  lemma MovedLast(s: Stories, mid: int, rows: seq<MonthlyStoryRec>)
    requires RefsDistinct(rows) && rows != []
    ensures Moved(StoryPass(s, mid, rows[..|rows| - 1]).tally, StoryItem(mid, rows[|rows| - 1]))
         == MovedAt(s.tally, mid, rows, |rows| - 1)
  {
    var n := |rows| - 1;
    var front := rows[..n];
    var st := rows[n];
    StoryPassTally(s, mid, front);
    var items := StoryItems(mid, front);
    assert !Names(items, StoryKey(mid, st.ref)) by {
      forall i | 0 <= i < |items| ensures items[i].key != StoryKey(mid, st.ref) {
        assert front[i].ref != st.ref;
      }
    }
    PassOthers(s.tally, items, StoryKey(mid, st.ref));
  }

  /** Some story of `rows` with reference `ref` moved against `t`. */
  predicate MovedRef(t: Tally, mid: int, rows: seq<MonthlyStoryRec>, ref: int)
  {
    exists i :: 0 <= i < |rows| && rows[i].ref == ref && MovedAt(t, mid, rows, i)
  }

  lemma MovedRefSnoc(t: Tally, mid: int, rows: seq<MonthlyStoryRec>, ref: int)
    requires rows != []
    ensures var n := |rows| - 1;
      MovedRef(t, mid, rows, ref) <==> MovedRef(t, mid, rows[..n], ref) || (rows[n].ref == ref && MovedAt(t, mid, rows, n))
  {
    var n := |rows| - 1;
    var front := rows[..n];
    if MovedRef(t, mid, rows, ref) {
      var i :| 0 <= i < |rows| && rows[i].ref == ref && MovedAt(t, mid, rows, i);
      if i < n {
        assert front[i] == rows[i];
      }
    }
    if MovedRef(t, mid, front, ref) {
      var i :| 0 <= i < n && front[i].ref == ref && MovedAt(t, mid, front, i);
      assert rows[i] == front[i];
    }
  }

  lemma StoryStepPending(s: Stories, mid: int, st: MonthlyStoryRec, ref: int)
    ensures ref in PendingRefs(StoryStep(s, mid, st).checkPend) <==>
      ref in PendingRefs(s.checkPend) || (st.ref == ref && Moved(s.tally, StoryItem(mid, st)))
  {
  }

  /**
   * With one row per story, the stories flagged for a chapter check are
   * the ones flagged before and those whose counts moved.
   */
  lemma {:induction false} StoryPassPending(s: Stories, mid: int, rows: seq<MonthlyStoryRec>, ref: int)
    requires RefsDistinct(rows)
    ensures ref in PendingRefs(StoryPass(s, mid, rows).checkPend) <==>
      ref in PendingRefs(s.checkPend) || MovedRef(s.tally, mid, rows, ref)
  {
    if rows != [] {
      var n := |rows| - 1;
      var front := rows[..n];
      assert RefsDistinct(front);
      StoryPassPending(s, mid, front, ref);
      MovedLast(s, mid, rows);
      MovedRefSnoc(s.tally, mid, rows, ref);
      StoryStepPending(StoryPass(s, mid, front), mid, rows[n], ref);
    }
  }

  /** The titles of the moved stories among `rows`. */
  function MovedTitles(t: Tally, mid: int, rows: seq<MonthlyStoryRec>): set<string>
  {
    set i | 0 <= i < |rows| && MovedAt(t, mid, rows, i) :: rows[i].title
  }

  lemma MovedTitlesSnoc(t: Tally, mid: int, rows: seq<MonthlyStoryRec>)
    requires rows != []
    ensures var n := |rows| - 1;
      MovedTitles(t, mid, rows) == MovedTitles(t, mid, rows[..n]) + (if MovedAt(t, mid, rows, n) then {rows[n].title} else {})
  {
    var n := |rows| - 1;
    var front := rows[..n];
    var moved := MovedTitles(t, mid, rows);
    var movedFront := MovedTitles(t, mid, front);
    var last: set<string> := if MovedAt(t, mid, rows, n) then {rows[n].title} else {};
    forall x | x in moved ensures x in movedFront + last {
      var i :| 0 <= i < |rows| && MovedAt(t, mid, rows, i) && rows[i].title == x;
      if i < n {
        assert front[i] == rows[i];
      }
    }
    forall x | x in movedFront ensures x in moved {
      var i :| 0 <= i < n && MovedAt(t, mid, front, i) && front[i].title == x;
      assert rows[i] == front[i];
    }
  }

  /** With one row per story, the changed titles gained are those of the stories whose counts moved. */
  lemma {:induction false} StoryPassChanged(s: Stories, mid: int, rows: seq<MonthlyStoryRec>)
    requires RefsDistinct(rows)
    ensures StoryPass(s, mid, rows).changed == s.changed + MovedTitles(s.tally, mid, rows)
  {
    if rows != [] {
      var front := rows[..|rows| - 1];
      assert RefsDistinct(front);
      StoryPassChanged(s, mid, front);
      MovedLast(s, mid, rows);
      MovedTitlesSnoc(s.tally, mid, rows);
    }
  }

  // ---------------------------------------------------------------------
  // A monthly run as a value

  /** Everything a monthly run changes: the tables, its two reports, the fetch log and the changed titles. */
  datatype World = World(session: Tables, hits: ReportState, monthly: ReportState, log: seq<Request>, changed: set<string>)

  function HitsTally(w: World): Tally
  {
    Tally(w.session.counts, w.hits.report)
  }

  function WithHits(w: World, t: Tally): World
  {
    w.(session := w.session.(counts := t.counts), hits := w.hits.(report := t.report))
  }

  function MonthlyTally(w: World): Tally
  {
    Tally(w.session.counts, w.monthly.report)
  }

  function WithMonthly(w: World, t: Tally): World
  {
    w.(session := w.session.(counts := t.counts), monthly := w.monthly.(report := t.report))
  }

  function StoriesOf(w: World): Stories
  {
    Stories(HitsTally(w), w.session.checkPend, w.changed)
  }

  function WithStories(w: World, s: Stories): World
  {
    w.(session := w.session.(counts := s.tally.counts, checkPend := s.checkPend),
       hits := w.hits.(report := s.tally.report), changed := s.changed)
  }

  /**
   * Where a run ended: the world it left, and the fault that stopped it, if
   * any. A run stopped by a fault keeps every write made before it, which
   * is what the program commits after a connection error.
   */
  datatype Run = Run(world: World, fault: Option<Fault>)

  /** `do_single_chapter`: the chapter's own page for the month, and a pass over its by-country chart. */
  function SingleChapter(w: World, serve: Request -> Result<Page>, mid: int, sref: int, sTitle: string,
                         ch: MonthlyChapterRec, cap: MonthCaption): Run
  {
    var req := ChapterSingleRequest(ch.chRef, cap.month, cap.year);
    var w1 := w.(log := w.log + [req]);
    match serve(req)
    case Err(e) => Run(w1, Some(e))
    case Ok(page) =>
      match Visits(page.charts, 1)
      case Err(e) => Run(w1, Some(e))
      case Ok(recs) => Run(WithHits(w1, Pass(HitsTally(w1), ChapCountryItems(mid, sref, sTitle, ch, recs))), None)
  }

  /**
   * One chapter row of `check_story_chapters`: its Chapters row is made if
   * missing and takes the scraped title; its counts are compared; a chapter
   * that moved has its own page checked.
   */
  function ChapterStep(w: World, serve: Request -> Result<Page>, mid: int, sref: int, sTitle: string,
                       cap: MonthCaption, ch: MonthlyChapterRec): Run
  {
    var row := Get(w.session.chapters, ch.chRef, ChapterRow(sref, ch.num, ch.title, ch.words));
    var w1 := w.(session := w.session.(chapters := w.session.chapters[ch.chRef := row.(title := ch.title)]));
    var it := ChapterItem(mid, sref, sTitle, ch);
    var w2 := WithHits(w1, Step(HitsTally(w1), it));
    if Moved(HitsTally(w1), it) then SingleChapter(w2, serve, mid, sref, sTitle, ch, cap) else Run(w2, None)
  }

  function ChapterLoop(w: World, serve: Request -> Result<Page>, mid: int, sref: int, sTitle: string,
                       cap: MonthCaption, rows: seq<MonthlyChapterRec>): Run
  {
    if rows == [] then Run(w, None)
    else
      var r := ChapterLoop(w, serve, mid, sref, sTitle, cap, rows[..|rows| - 1]);
      if r.fault.Some? then r else ChapterStep(r.world, serve, mid, sref, sTitle, cap, rows[|rows| - 1])
  }

  /** The payload of the chapters page of the caption's month. */
  function MonthPayload(cap: MonthCaption): Payload
  {
    [("month", Text(cap.month)), ("year", Text(cap.year))]
  }

  /**
   * `check_story_chapters`: the story's chapters page for the month; its
   * caption and charts are read (a failure there stops the run); the
   * story's by-country counts are compared, then each chapter row.
   */
  function StoryChapters(w: World, serve: Request -> Result<Page>, mid: int, sref: int, sTitle: string,
                         cap: MonthCaption): Run
  {
    var req := ChaptersRequest(sref, Some(MonthPayload(cap)));
    var w1 := w.(log := w.log + [req]);
    match serve(req)
    case Err(e) => Run(w1, Some(e))
    case Ok(page) => ChaptersPage(w1, serve, mid, sref, sTitle, cap, page)
  }

  /** The chapters page once fetched: its caption and charts, then the story's by-country counts. */
  function ChaptersPage(w: World, serve: Request -> Result<Page>, mid: int, sref: int, sTitle: string,
                        cap: MonthCaption, page: Page): Run
  {
    match CaptionFromCells(page.captionCells)
    case Err(e) => Run(w, Some(e))
    case Ok(_) =>
      match Visits(page.charts, 0)
      case Err(e) => Run(w, Some(e))
      case Ok(_) =>
        match Visits(page.charts, 1)
        case Err(e) => Run(w, Some(e))
        case Ok(byCountry) =>
          ChapterTable(WithHits(w, Pass(HitsTally(w), StoryCountryItems(mid, sref, sTitle, byCountry))),
                       serve, mid, sref, sTitle, cap, page)
  }

  /** The chapter table of the page, row by row; a table that is not there is iterated anyway. */
  function ChapterTable(w: World, serve: Request -> Result<Page>, mid: int, sref: int, sTitle: string,
                        cap: MonthCaption, page: Page): Run
  {
    match ChapterRows(page.table2RowTexts, page.table2Links)
    case Err(e) => Run(w, Some(e))
    case Ok(None) => Run(w, Some(NotIterable))
    case Ok(Some(rows)) => ChapterLoop(w, serve, mid, sref, sTitle, cap, rows)
  }

  /** The chapter checks of the pending stories, in listing order, each followed by printing its section. */
  function PendingLoop(w: World, serve: Request -> Result<Page>, mid: int, cap: MonthCaption,
                       list: seq<(int, string)>): Run
  {
    if list == [] then Run(w, None)
    else
      var r := PendingLoop(w, serve, mid, cap, list[..|list| - 1]);
      if r.fault.Some? then r else PendingStep(r.world, serve, mid, cap, list[|list| - 1])
  }

  /** One pending story: its chapters checked, then its section printed. */
  function PendingStep(w: World, serve: Request -> Result<Page>, mid: int, cap: MonthCaption, p: (int, string)): Run
  {
    var r := StoryChapters(w, serve, mid, p.0, p.1, cap);
    if r.fault.Some? then r else Run(r.world.(hits := PrintSection(r.world.hits, p.1)), None)
  }

  /**
   * `do_chapter_heirarchy` over the month's story-eyes page: caption, then
   * countries, the monthly report printed, then stories; then the chapters
   * of every story pending a check; then every pending flag cleared.
   */
  ghost function TreeRun(w: World, serve: Request -> Result<Page>, mid: int, page: Page): Run
  {
    match StoryEyes(page)
    case Err(e) => Run(w, Some(e))
    case Ok(eyes) =>
      var w1 := MonthlyRun(w, mid, eyes.caption, eyes.byCountry);
      match eyes.storyRows
      case None => Run(w1, Some(NotIterable))
      case Some(rows) => PendingRun(WithStories(w1, StoryPass(StoriesOf(w1), mid, rows)), serve, mid, eyes.caption)
  }

  /** What `do_story_eyes` reads off the story-eyes page. */
  datatype Eyes = Eyes(caption: MonthCaption, byDate: seq<VisCounter>, byCountry: seq<VisCounter>,
                       storyRows: Option<seq<MonthlyStoryRec>>)

  /**
   * `do_story_eyes`: the month caption (its absence ends the run), the
   * by-date and by-country charts, and the story table, read in that
   * order; the first failure is the one reported.
   */
  function StoryEyes(page: Page): (r: Result<Eyes>)
    ensures r.Ok? <==>
      (&& CaptionFromCells(page.captionCells).Ok? && CaptionFromCells(page.captionCells).value.Some?
       && Visits(page.charts, 0).Ok? && Visits(page.charts, 1).Ok? && StoryRows(page.table2RowTexts, page.table2Links).Ok?)
    ensures r.Ok? ==> r.value == Eyes(CaptionFromCells(page.captionCells).value.value, Visits(page.charts, 0).value,
                                      Visits(page.charts, 1).value, StoryRows(page.table2RowTexts, page.table2Links).value)
    ensures CaptionFromCells(page.captionCells) == Ok(None) ==> r == Err(NoCaption)
    ensures CaptionFromCells(page.captionCells).Err? ==> r == Err(CaptionFromCells(page.captionCells).fault)
  {
    match CaptionFromCells(page.captionCells)
    case Err(e) => Err(e)
    case Ok(None) => Err(NoCaption)
    case Ok(Some(cap)) =>
      match Visits(page.charts, 0)
      case Err(e) => Err(e)
      case Ok(byDate) =>
        match Visits(page.charts, 1)
        case Err(e) => Err(e)
        case Ok(byCountry) =>
          match StoryRows(page.table2RowTexts, page.table2Links)
          case Err(e) => Err(e)
          case Ok(rows) => Ok(Eyes(cap, byDate, byCountry, rows))
  }

  /** The month's totals and countries compared on the monthly report, which is then printed. */
  ghost function MonthlyRun(w: World, mid: int, cap: MonthCaption, byCountry: seq<VisCounter>): World
  {
    var w1 := WithMonthly(w, Pass(Step(MonthlyTally(w), CaptionItem(mid, cap)), CountryItems(mid, byCountry)));
    w1.(monthly := PrintAll(w1.monthly, false))
  }

  /** The chapters of the stories pending a check, in listing order; then every flag cleared. */
  function PendingRun(w: World, serve: Request -> Result<Page>, mid: int, cap: MonthCaption): Run
  {
    match ChecksPending(w.session)
    case Err(e) => Run(w, Some(e))
    case Ok(list) =>
      var r := PendingLoop(w, serve, mid, cap, list);
      if r.fault.Some? then r
      else Run(r.world.(session := r.world.session.(checkPend := Cleared(r.world.session.checkPend))), None)
  }

  // ---------------------------------------------------------------------
  // The program's objects

  /**
   * `compare_chapter_recs`: each moved field of the stored row is reported
   * and set from the scraped record; the record is listed once if any moved.
   * The row object is handed in as `dbRec` and handed back as `row`;
   * `key` names the row for the specification only.
   */
  method CompareChapterRecs(dbRec: Counts, sTitle: string, current: MonthlyChapterRec,
                            reportGen: ReportGen, changedRecs: seq<MonthlyChapterRec>, ghost key: CountKey)
    returns (row: Counts, recs: seq<MonthlyChapterRec>)
    modifies reportGen`report
    ensures row == Counts(current.views, current.visitors)
    ensures var it := Item(key, row, sTitle, Chapter(current.num, current.title));
      reportGen.report == RecordAll(old(reportGen.report), ItemEntries(dbRec, it))
    ensures recs == changedRecs + (if dbRec != row then [current] else [])
  {
    var cur := Counts(current.views, current.visitors);
    ghost var it := Item(key, cur, sTitle, Chapter(current.num, current.title));
    ghost var report0 := reportGen.report;
    row := dbRec;
    var changed := false;
    var i := 0;
    while i < |CountFields|
      invariant 0 <= i <= |CountFields|
      invariant row == Written(dbRec, cur, CountFields[..i])
      invariant reportGen.report == RecordAll(report0, FieldEntries(dbRec, it, CountFields[..i]))
      invariant changed <==> FieldEntries(dbRec, it, CountFields[..i]) != []
    {
      row, changed := CompareChapterField(dbRec, sTitle, current, reportGen, it, report0, i, row, changed);
      i := i + 1;
    }
    assert CountFields[..2] == CountFields;
    WrittenAll(dbRec, it);
    if changed {
      recs := changedRecs + [current];
    } else {
      recs := changedRecs;
    }
  }

  /** Field `i` of `compare_chapter_recs`: reported and set from the scraped record when it moved. */
  method CompareChapterField(dbRec: Counts, sTitle: string, current: MonthlyChapterRec, reportGen: ReportGen,
                             ghost it: Item, ghost report0: map<string, seq<string>>, i: nat, row: Counts, changed: bool)
    returns (row': Counts, changed': bool)
    requires it == Item(it.key, Counts(current.views, current.visitors), sTitle, Chapter(current.num, current.title))
    requires i < |CountFields|
    requires row == Written(dbRec, it.counts, CountFields[..i])
    requires reportGen.report == RecordAll(report0, FieldEntries(dbRec, it, CountFields[..i]))
    requires changed <==> FieldEntries(dbRec, it, CountFields[..i]) != []
    modifies reportGen`report
    ensures row' == Written(dbRec, it.counts, CountFields[..i + 1])
    ensures reportGen.report == RecordAll(report0, FieldEntries(dbRec, it, CountFields[..i + 1]))
    ensures changed' <==> FieldEntries(dbRec, it, CountFields[..i + 1]) != []
  {
    var valueKey := CountFields[i];
    var cur := Counts(current.views, current.visitors);
    FieldStep(dbRec, it, i);
    var c := reportGen.CompareAndPrintChapter(sTitle, current.num, current.title, ColumnName(valueKey),
                                              CountField(cur, valueKey), Some(CountField(row, valueKey)));
    row', changed' := row, changed;
    if c != 0 {
      row', changed' := WithCountField(row, valueKey, CountField(cur, valueKey)), true;
    }
    RecordAllAppend(report0, FieldEntries(dbRec, it, CountFields[..i]), FieldEntry(dbRec, it, valueKey));
  }

  /** The fields written so far: each field of `fields` set from `cur`. */
  function Written(o: Counts, cur: Counts, fields: seq<CountColumn>): Counts
  {
    if fields == [] then o
    else
      var f := fields[|fields| - 1];
      WithCountField(Written(o, cur, fields[..|fields| - 1]), f, CountField(cur, f))
  }

  /**
   * Field `i` of the loop: before it is written it still reads as stored;
   * it is written when, and only when, it reports a line.
   */
  lemma FieldStep(o: Counts, it: Item, i: nat)
    requires i < |CountFields|
    ensures var f, w := CountFields[i], Written(o, it.counts, CountFields[..i]);
      && CountField(w, f) == CountField(o, f)
      && Written(o, it.counts, CountFields[..i + 1]) == (if CountField(o, f) != CountField(it.counts, f) then WithCountField(w, f, CountField(it.counts, f)) else w)
      && FieldEntries(o, it, CountFields[..i + 1]) == FieldEntries(o, it, CountFields[..i]) + FieldEntry(o, it, f)
      && (FieldEntry(o, it, f) != [] <==> CountField(o, f) != CountField(it.counts, f))
  {
    assert CountFields[..i + 1][..i] == CountFields[..i];
    if i == 1 {
      assert CountFields[..1][..0] == [];
      assert CountFields[..1] == [Views];
    }
  }

  /** Every field written: the row is the scraped counts, and it reported a line exactly when it moved. */
  lemma WrittenAll(o: Counts, it: Item)
    ensures Written(o, it.counts, CountFields) == it.counts
    ensures FieldEntries(o, it, CountFields) == [] <==> o == it.counts
  {
    assert CountFields[..1][..0] == [];
    assert CountFields[..1] == [Views];
    ItemEntriesEmpty(o, it);
  }


  /** `compare_chap_country_recs`: each field is set from the scraped counts when its comparison answers true. */
  method CompareChapCountryRecs(current: VisCounter, sTitle: string, dbRec: Counts, chapter: MonthlyChapterRec,
                                reportGen: ReportGen, ghost key: CountKey)
    returns (row: Counts)
    modifies reportGen`report
    ensures row == Counts(current.views, current.visitors)
    ensures var it := Item(key, row, sTitle, CountryChapter(chapter.num, chapter.title, current.cat));
      reportGen.report == RecordAll(old(reportGen.report), ItemEntries(dbRec, it))
  {
    ghost var it := Item(key, Counts(current.views, current.visitors), sTitle, CountryChapter(chapter.num, chapter.title, current.cat));
    ghost var report0 := reportGen.report;
    row := dbRec;
    var c := reportGen.CompareAndPrintCtryChapter(current.cat, sTitle, chapter.num, chapter.title, "views",
                                                  current.views, Some(dbRec.views));
    assert reportGen.report == RecordAll(report0, FieldEntry(dbRec, it, Views));
    ghost var report1 := reportGen.report;
    if c != 0 {
      row := row.(views := current.views);
    }
    c := reportGen.CompareAndPrintCtryChapter(current.cat, sTitle, chapter.num, chapter.title, "visitors",
                                              current.visitors, Some(dbRec.visitors));
    assert reportGen.report == RecordAll(report1, FieldEntry(dbRec, it, Visitors));
    if c != 0 {
      row := row.(visitors := current.visitors);
    }
    ItemEntriesUnfold(dbRec, it);
    RecordAllAppend(report0, FieldEntry(dbRec, it, Views), FieldEntry(dbRec, it, Visitors));
  }

  /**
   * A get-or-create of the item's row, its two comparisons and a write of
   * the scraped counts that happens at least when they differ: one step.
   */
  lemma Upsert(t: Tally, it: Item, written: bool, r: map<string, seq<string>>)
    requires r == RecordAll(RecordAll(t.report, FieldEntry(Stored(t, it), it, Views)),
                            FieldEntry(Stored(t, it), it, Visitors))
    requires written || Stored(t, it) == it.counts
    ensures var c := WithDefault(t.counts, it.key, NoCounts);
      Step(t, it) == Tally(if written then c[it.key := it.counts] else c, r)
  {
    Compared(t, it, r);
    Upserted(t.counts, it.key, it.counts);
  }

  /** The story form of `Upsert`: a moved story is also flagged and its title noted. */
  lemma StoryUpsert(s: Stories, mid: int, story: MonthlyStoryRec, written: bool, r: map<string, seq<string>>)
    requires var it := StoryItem(mid, story);
      && r == RecordAll(RecordAll(s.tally.report, FieldEntry(Stored(s.tally, it), it, Views)),
                        FieldEntry(Stored(s.tally, it), it, Visitors))
      && written == Moved(s.tally, it)
    ensures var c := WithDefault(s.tally.counts, StoryKey(mid, story.ref), NoCounts);
      StoryStep(s, mid, story) ==
        if written then Stories(Tally(c[StoryKey(mid, story.ref) := Counts(story.views, story.visitors)], r),
                                s.checkPend[story.ref := 1], s.changed + {story.title})
        else Stories(Tally(c, r), s.checkPend, s.changed)
  {
    Upsert(s.tally, StoryItem(mid, story), written, r);
  }

  lemma StoryPassSnoc(s: Stories, mid: int, rows: seq<MonthlyStoryRec>, i: nat)
    requires i < |rows|
    ensures StoryPass(s, mid, rows[..i + 1]) == StoryStep(StoryPass(s, mid, rows[..i]), mid, rows[i])
  {
    assert rows[..i + 1][..i] == rows[..i];
  }

  lemma PassSnoc(t: Tally, items: seq<Item>, i: nat)
    requires i < |items|
    ensures Pass(t, items[..i + 1]) == Step(Pass(t, items[..i]), items[i])
  {
    assert items[..i + 1][..i] == items[..i];
  }

  /** A get-or-create, the comparisons of the row and a write of the scraped counts: one step. */
  lemma RowWritten(t: Tally, it: Item, o: Counts, r: map<string, seq<string>>)
    requires o == Get(t.counts, it.key, NoCounts) && r == RecordAll(t.report, ItemEntries(o, it))
    ensures Step(t, it) == Tally(WithDefault(t.counts, it.key, NoCounts)[it.key := it.counts], r)
  {
    Upserted(t.counts, it.key, it.counts);
  }

  /** One more chapter row after a prefix that went through. */
  lemma ChapterLoopSnoc(w0: World, serve: Request -> Result<Page>, mid: int, sref: int, sTitle: string,
                        cap: MonthCaption, rows: seq<MonthlyChapterRec>, i: nat, w: World)
    requires i < |rows| && ChapterLoop(w0, serve, mid, sref, sTitle, cap, rows[..i]) == Run(w, None)
    ensures ChapterLoop(w0, serve, mid, sref, sTitle, cap, rows[..i + 1]) == ChapterStep(w, serve, mid, sref, sTitle, cap, rows[i])
  {
    assert rows[..i + 1][..i] == rows[..i];
  }

  /** Once a prefix of the chapter rows has stopped, the whole loop stops there, with that world and fault. */
  lemma {:induction false} ChapterLoopErr(w: World, serve: Request -> Result<Page>, mid: int, sref: int, sTitle: string,
                                          cap: MonthCaption, rows: seq<MonthlyChapterRec>, n: nat)
    requires n <= |rows| && ChapterLoop(w, serve, mid, sref, sTitle, cap, rows[..n]).fault.Some?
    ensures ChapterLoop(w, serve, mid, sref, sTitle, cap, rows) == ChapterLoop(w, serve, mid, sref, sTitle, cap, rows[..n])
    decreases |rows| - n
  {
    if n < |rows| {
      ChapterLoopErrStep(w, serve, mid, sref, sTitle, cap, rows, n);
      ChapterLoopErr(w, serve, mid, sref, sTitle, cap, rows, n + 1);
    } else {
      assert rows[..n] == rows;
    }
  }

  /** A stopped prefix of the chapter rows stays stopped one row further. */
  lemma ChapterLoopErrStep(w: World, serve: Request -> Result<Page>, mid: int, sref: int, sTitle: string,
                           cap: MonthCaption, rows: seq<MonthlyChapterRec>, n: nat)
    requires n < |rows| && ChapterLoop(w, serve, mid, sref, sTitle, cap, rows[..n]).fault.Some?
    ensures ChapterLoop(w, serve, mid, sref, sTitle, cap, rows[..n + 1]) == ChapterLoop(w, serve, mid, sref, sTitle, cap, rows[..n])
  {
    assert rows[..n + 1][..n] == rows[..n];
  }

  /** One more pending story after a prefix that went through. */
  lemma PendingLoopSnoc(w0: World, serve: Request -> Result<Page>, mid: int, cap: MonthCaption,
                        list: seq<(int, string)>, i: nat, w: World)
    requires i < |list| && PendingLoop(w0, serve, mid, cap, list[..i]) == Run(w, None)
    ensures PendingLoop(w0, serve, mid, cap, list[..i + 1]) == PendingStep(w, serve, mid, cap, list[i])
  {
    assert list[..i + 1][..i] == list[..i];
  }

  /** Once a prefix of the pending list has stopped, the whole loop stops there, with that world and fault. */
  lemma {:induction false} PendingLoopErr(w: World, serve: Request -> Result<Page>, mid: int, cap: MonthCaption,
                                          list: seq<(int, string)>, n: nat)
    requires n <= |list| && PendingLoop(w, serve, mid, cap, list[..n]).fault.Some?
    ensures PendingLoop(w, serve, mid, cap, list) == PendingLoop(w, serve, mid, cap, list[..n])
    decreases |list| - n
  {
    if n < |list| {
      assert list[..n + 1][..n] == list[..n];
      PendingLoopErr(w, serve, mid, cap, list, n + 1);
    } else {
      assert list[..n] == list;
    }
  }

  /**
   * The comparisons of one month's data tree: the month row `mid`, its two
   * reports, and the month's story-eyes page.
   */
  class MonthlyDataTree {
    /** The month as two digits, and the year, as the site's payloads spell them. */
    const month: string
    const year: string
    const mid: int
    const catchup: bool
    const eyesTree: Page
    const reportGen: ReportGen
    const monthlyGen: ReportGen
    /** The titles of the stories whose counts moved. */
    var changedStorySet: set<string>

    /** The two reports are distinct, and the monthly one prints. */
    predicate Valid()
      reads this, monthlyGen
    {
      reportGen != monthlyGen && !monthlyGen.silent
    }

    /**
     * A tree over a given page. When no report is given a new one titled
     * with the month is made; the monthly report is always a new one.
     */
    constructor (monthRec: MonthRec, eyesTree: Page, reportGen: Option<ReportGen>, catchup: bool)
      ensures month == ZFill(FormatInt(monthRec.month), 2) && year == FormatInt(monthRec.year)
      ensures mid == monthRec.mid && this.catchup == catchup && this.eyesTree == eyesTree
      ensures reportGen.Some? ==> this.reportGen == reportGen.value
      ensures reportGen.None? ==>
        (&& fresh(this.reportGen) && this.reportGen.State() == ReportState(map[], {}, [])
         && this.reportGen.reportTitle == "Hits for " + month + "/" + year && !this.reportGen.silent
         && this.reportGen.falseReturn == CatchupReturn(catchup))
      ensures fresh(monthlyGen) && monthlyGen.State() == ReportState(map[], {}, [])
        && monthlyGen.reportTitle == "Monthly changes for " + month + "/" + year
        && monthlyGen.falseReturn == CatchupReturn(catchup)
      ensures Valid() && changedStorySet == {}
    {
      var m := ZFill(FormatInt(monthRec.month), 2);
      var y := FormatInt(monthRec.year);
      month := m;
      year := y;
      mid := monthRec.mid;
      this.catchup := catchup;
      this.eyesTree := eyesTree;
      if reportGen.None? {
        this.reportGen := new ReportGen("Hits for " + m + "/" + y, false, catchup);
      } else {
        this.reportGen := reportGen.value;
      }
      monthlyGen := new ReportGen("Monthly changes for " + m + "/" + y, false, catchup);
      changedStorySet := {};
    }

    /** `check_caption_updates`: the month's totals, compared and written under "Monthly". */
    method CheckCaptionUpdates(mcap: MonthCaption, db: ReadMeDb)
      modifies db`session, monthlyGen`report
      ensures Tally(db.session.counts, monthlyGen.report)
           == Step(Tally(old(db.session.counts), old(monthlyGen.report)), CaptionItem(mid, mcap))
      ensures db.session == old(db.session).(counts := db.session.counts)
    {
      ghost var t := Tally(db.session.counts, monthlyGen.report);
      ghost var it := CaptionItem(mid, mcap);
      var topRec := db.GetOrCreateCounts(TopKey(mid));
      var changed := 0;
      var c := monthlyGen.CompareAndPrint("Monthly", "views", mcap.views, Some(topRec.views), "");
      changed := changed + c;
      c := monthlyGen.CompareAndPrint("Monthly", "visitors", mcap.visitors, Some(topRec.visitors), "");
      changed := changed + c;
      if changed > 0 {
        db.SetCounts(TopKey(mid), Counts(mcap.views, mcap.visitors));
      }
      Upsert(t, it, changed > 0, monthlyGen.report);
    }

    /** `check_country_updates`: each country of the month's chart, compared and written under "Monthly". */
    method CheckCountryUpdates(byCountry: seq<VisCounter>, db: ReadMeDb)
      modifies db`session, monthlyGen`report
      ensures Tally(db.session.counts, monthlyGen.report)
           == Pass(Tally(old(db.session.counts), old(monthlyGen.report)), CountryItems(mid, byCountry))
      ensures db.session == old(db.session).(counts := db.session.counts)
    {
      ghost var t0 := Tally(db.session.counts, monthlyGen.report);
      ghost var items := CountryItems(mid, byCountry);
      for i := 0 to |byCountry|
        invariant Tally(db.session.counts, monthlyGen.report) == Pass(t0, items[..i])
        invariant db.session == old(db.session).(counts := db.session.counts)
      {
        var countryRec := byCountry[i];
        var country := countryRec.cat;
        ghost var t := Tally(db.session.counts, monthlyGen.report);
        var oldRec := db.GetOrCreateCounts(CtryKey(mid, country));
        var changed := monthlyGen.CompareTotalsByCountry(country, "views", countryRec.views, oldRec.views);
        var c := monthlyGen.CompareTotalsByCountry(country, "visitors", countryRec.visitors, oldRec.visitors);
        changed := changed + c;
        if changed > 0 {
          db.SetCounts(CtryKey(mid, country), Counts(countryRec.views, countryRec.visitors));
        }
        Upsert(t, items[i], changed > 0, monthlyGen.report);
        PassSnoc(t0, items, i);
      }
      assert items[..|byCountry|] == items;
    }

    /** `check_story_updates`: each story of the month, compared on the hits report; a moved one is flagged. */
    method CheckStoryUpdates(storyRows: seq<MonthlyStoryRec>, db: ReadMeDb)
      modifies db`session, reportGen`report, this`changedStorySet
      ensures Stories(Tally(db.session.counts, reportGen.report), db.session.checkPend, changedStorySet)
           == StoryPass(Stories(Tally(old(db.session.counts), old(reportGen.report)), old(db.session.checkPend), old(changedStorySet)),
                        mid, storyRows)
      ensures db.session == old(db.session).(counts := db.session.counts, checkPend := db.session.checkPend)
    {
      ghost var s0 := Stories(Tally(db.session.counts, reportGen.report), db.session.checkPend, changedStorySet);
      for i := 0 to |storyRows|
        invariant Stories(Tally(db.session.counts, reportGen.report), db.session.checkPend, changedStorySet)
               == StoryPass(s0, mid, storyRows[..i])
        invariant db.session == old(db.session).(counts := db.session.counts, checkPend := db.session.checkPend)
      {
        CheckStoryRow(storyRows[i], db);
        StoryPassSnoc(s0, mid, storyRows, i);
      }
      assert storyRows[..|storyRows|] == storyRows;
    }

    /** One story of `check_story_updates`: its row made if missing, compared, and written and flagged when it moved. */
    method CheckStoryRow(story: MonthlyStoryRec, db: ReadMeDb)
      modifies db`session, reportGen`report, this`changedStorySet
      ensures Stories(Tally(db.session.counts, reportGen.report), db.session.checkPend, changedStorySet)
           == StoryStep(Stories(Tally(old(db.session.counts), old(reportGen.report)), old(db.session.checkPend), old(changedStorySet)),
                        mid, story)
      ensures db.session == old(db.session).(counts := db.session.counts, checkPend := db.session.checkPend)
    {
      ghost var s := Stories(Tally(db.session.counts, reportGen.report), db.session.checkPend, changedStorySet);
      var newRec := db.GetOrCreateCounts(StoryKey(mid, story.ref));
      var changed := reportGen.CompareAndPrint(story.title, "views", story.views, Some(newRec.views), "");
      var c := reportGen.CompareAndPrint(story.title, "visitors", story.visitors, Some(newRec.visitors), "");
      changed := changed + c;
      if changed > 0 {
        db.SetCounts(StoryKey(mid, story.ref), Counts(story.views, story.visitors));
        db.SetCheckPending(story.ref);
        changedStorySet := changedStorySet + {story.title};
      }
      StoryUpsert(s, mid, story, changed > 0, reportGen.report);
    }

    /** `check_country_totals_for_story`: each country of a story's chart, compared and written in its section. */
    method CheckCountryTotalsForStory(sref: int, sTitle: string, byCountry: seq<VisCounter>, db: ReadMeDb)
      modifies db`session, reportGen`report
      ensures Tally(db.session.counts, reportGen.report)
           == Pass(Tally(old(db.session.counts), old(reportGen.report)), StoryCountryItems(mid, sref, sTitle, byCountry))
      ensures db.session == old(db.session).(counts := db.session.counts)
    {
      ghost var t0 := Tally(db.session.counts, reportGen.report);
      ghost var items := StoryCountryItems(mid, sref, sTitle, byCountry);
      for i := 0 to |byCountry|
        invariant Tally(db.session.counts, reportGen.report) == Pass(t0, items[..i])
        invariant db.session == old(db.session).(counts := db.session.counts)
      {
        var countryRec := byCountry[i];
        var country := countryRec.cat;
        ghost var t := Tally(db.session.counts, reportGen.report);
        var oldRec := db.GetOrCreateCounts(StoryCtryKey(mid, sref, country));
        var changed := reportGen.CompareStoryByCountry(sTitle, country, "views", countryRec.views, oldRec.views);
        var c := reportGen.CompareStoryByCountry(sTitle, country, "visitors", countryRec.visitors, oldRec.visitors);
        changed := changed + c;
        if changed > 0 {
          db.SetCounts(StoryCtryKey(mid, sref, country), Counts(countryRec.views, countryRec.visitors));
        }
        Upsert(t, items[i], changed > 0, reportGen.report);
        PassSnoc(t0, items, i);
      }
      assert items[..|byCountry|] == items;
    }

    /** What a run of this tree works on. */
    function State(db: ReadMeDb, getter: FanfictionGetter): World
      reads this, db, getter, reportGen, monthlyGen
    {
      World(db.session, reportGen.State(), monthlyGen.State(), getter.log, changedStorySet)
    }

    /** `do_single_chapter`: the chapter's page for the month, and its by-country counts compared. */
    method DoSingleChapter(chapter: MonthlyChapterRec, sref: int, sTitle: string, getter: FanfictionGetter,
                           db: ReadMeDb, mcap: MonthCaption) returns (fault: Option<Fault>)
      requires Valid()
      modifies db`session, getter`log, reportGen`report
      ensures Run(State(db, getter), fault) == SingleChapter(old(State(db, getter)), getter.serve, mid, sref, sTitle, chapter, mcap)
    {
      var singleTree := getter.GetChapterSingle(chapter.chRef, mcap.month, mcap.year);
      if singleTree.Err? {
        return Some(singleTree.fault);
      }
      var byChCountry := Visits(singleTree.value.charts, 1);
      if byChCountry.Err? {
        return Some(byChCountry.fault);
      }
      var recs := byChCountry.value;
      ghost var w1 := State(db, getter);
      CompareChapterCountries(sref, sTitle, chapter, recs, db);
      fault := None;
    }

    /** The loop of `do_single_chapter`: each country row of the chapter's chart read, compared and written. */
    method CompareChapterCountries(sref: int, sTitle: string, chapter: MonthlyChapterRec, recs: seq<VisCounter>, db: ReadMeDb)
      modifies db`session, reportGen`report
      ensures Tally(db.session.counts, reportGen.report)
           == Pass(Tally(old(db.session.counts), old(reportGen.report)), ChapCountryItems(mid, sref, sTitle, chapter, recs))
      ensures db.session == old(db.session).(counts := db.session.counts)
    {
      ghost var t0 := Tally(db.session.counts, reportGen.report);
      ghost var items := ChapCountryItems(mid, sref, sTitle, chapter, recs);
      for i := 0 to |recs|
        invariant Tally(db.session.counts, reportGen.report) == Pass(t0, items[..i])
        invariant db.session == old(db.session).(counts := db.session.counts)
      {
        var chCountryRec := recs[i];
        var key := ChapCtryKey(mid, sref, chapter.num, chCountryRec.cat);
        ghost var t := Tally(db.session.counts, reportGen.report);
        var dbChRec := db.GetOrCreateCounts(key);
        var row := CompareChapCountryRecs(chCountryRec, sTitle, dbChRec, chapter, reportGen, key);
        db.SetCounts(key, row);
        RowWritten(t, items[i], dbChRec, reportGen.report);
        PassSnoc(t0, items, i);
      }
      assert items[..|recs|] == items;
    }

    /**
     * `check_story_chapters`: the story's chapters page for the month; its
     * by-country counts, then each chapter row, compared on the hits report.
     */
    method CheckStoryChapters(sref: int, sTitle: string, getter: FanfictionGetter, mcap: MonthCaption, db: ReadMeDb)
      returns (fault: Option<Fault>)
      requires Valid()
      modifies db`session, getter`log, reportGen`report
      ensures Run(State(db, getter), fault) == StoryChapters(old(State(db, getter)), getter.serve, mid, sref, sTitle, mcap)
    {
      var payload := MonthPayload(mcap);
      var chTree := getter.GetChaptersTree(sref, Some(payload));
      if chTree.Err? {
        return Some(chTree.fault);
      }
      var page := chTree.value;
      ghost var w1 := State(db, getter);
      assert StoryChapters(old(State(db, getter)), getter.serve, mid, sref, sTitle, mcap)
          == ChaptersPage(w1, getter.serve, mid, sref, sTitle, mcap, page);
      var mcap2 := CaptionFromCells(page.captionCells);
      if mcap2.Err? {
        return Some(mcap2.fault);
      }
      var byDate := Visits(page.charts, 0);
      if byDate.Err? {
        return Some(byDate.fault);
      }
      var byCountry := Visits(page.charts, 1);
      if byCountry.Err? {
        return Some(byCountry.fault);
      }
      CheckCountryTotalsForStory(sref, sTitle, byCountry.value, db);
      assert ChaptersPage(w1, getter.serve, mid, sref, sTitle, mcap, page)
          == ChapterTable(State(db, getter), getter.serve, mid, sref, sTitle, mcap, page);
      var chapterRows := ChapterRows(page.table2RowTexts, page.table2Links);
      if chapterRows.Err? {
        return Some(chapterRows.fault);
      }
      if chapterRows.value.None? {
        return Some(NotIterable);
      }
      var rows := chapterRows.value.value;
      ghost var w2 := State(db, getter);
      for i := 0 to |rows|
        invariant ChapterLoop(w2, getter.serve, mid, sref, sTitle, mcap, rows[..i]) == Run(State(db, getter), None)
      {
        ChapterLoopSnoc(w2, getter.serve, mid, sref, sTitle, mcap, rows, i, State(db, getter));
        var f := CheckChapterRow(rows[i], sref, sTitle, getter, mcap, db);
        if f.Some? {
          ChapterLoopErr(w2, getter.serve, mid, sref, sTitle, mcap, rows, i + 1);
          return f;
        }
      }
      assert rows[..|rows|] == rows;
      fault := None;
    }

    /**
     * One chapter row of `check_story_chapters`: its Chapters row, its
     * counts, and its own page when the counts moved.
     */
    method CheckChapterRow(chapter: MonthlyChapterRec, sref: int, sTitle: string, getter: FanfictionGetter,
                           mcap: MonthCaption, db: ReadMeDb) returns (fault: Option<Fault>)
      requires Valid()
      modifies db`session, getter`log, reportGen`report
      ensures Run(State(db, getter), fault) == ChapterStep(old(State(db, getter)), getter.serve, mid, sref, sTitle, mcap, chapter)
    {
      ghost var w := State(db, getter);
      var chapterRec := db.GetOrCreateChapter(sref, chapter);
      if chapterRec.title != chapter.title {
        db.SetChapterTitle(chapter.chRef, chapter.title);
      }
      var key := ChapKey(mid, sref, chapter.num);
      ghost var w1 := State(db, getter);
      assert w1 == w.(session := w.session.(chapters := w.session.chapters[chapter.chRef :=
        Get(w.session.chapters, chapter.chRef, ChapterRow(sref, chapter.num, chapter.title, chapter.words)).(title := chapter.title)]));
      var dbRec := db.GetOrCreateCounts(key);
      var row, changedRecs := CompareChapterRecs(dbRec, sTitle, chapter, reportGen, [], key);
      db.SetCounts(key, row);
      RowWritten(HitsTally(w1), ChapterItem(mid, sref, sTitle, chapter), dbRec, reportGen.report);
      assert State(db, getter) == WithHits(w1, Step(HitsTally(w1), ChapterItem(mid, sref, sTitle, chapter)));
      fault := None;
      if changedRecs != [] {
        fault := DoSingleChapter(changedRecs[0], sref, sTitle, getter, db, mcap);
      }
    }


    /**
     * `do_chapter_heirarchy`: the story-eyes page read; the monthly totals
     * and countries compared and that report printed; the stories compared;
     * the chapters of each pending story compared and its section printed;
     * the pending flags cleared.
     */
    method DoChapterHeirarchy(getter: FanfictionGetter, db: ReadMeDb) returns (fault: Option<Fault>)
      requires Valid()
      modifies db`session, getter`log, this`changedStorySet
      modifies reportGen`report, reportGen`usedKeys, reportGen`output
      modifies monthlyGen`report, monthlyGen`usedKeys, monthlyGen`output
      ensures Run(State(db, getter), fault) == TreeRun(old(State(db, getter)), getter.serve, mid, eyesTree)
    {
      var eyes := StoryEyes(eyesTree);
      if eyes.Err? {
        return Some(eyes.fault);
      }
      var Eyes(mcap, byDate, byCountry, storyRows) := eyes.value;
      MonthlyTotals(mcap, byCountry, getter, db);
      if storyRows.None? {
        return Some(NotIterable);
      }
      ghost var w2 := State(db, getter);
      CheckStoryUpdates(storyRows.value, db);
      assert State(db, getter) == WithStories(w2, StoryPass(StoriesOf(w2), mid, storyRows.value));
      fault := CheckPendingStories(getter, mcap, db);
    }

    /** The first part of `do_chapter_heirarchy`: the month's caption totals and country rows compared, then the monthly report printed. */
    method MonthlyTotals(mcap: MonthCaption, byCountry: seq<VisCounter>, getter: FanfictionGetter, db: ReadMeDb)
      requires Valid()
      modifies db`session, monthlyGen`report, monthlyGen`usedKeys, monthlyGen`output
      ensures State(db, getter) == MonthlyRun(old(State(db, getter)), mid, mcap, byCountry)
    {
      ghost var w0 := State(db, getter);
      CheckCaptionUpdates(mcap, db);
      assert State(db, getter) == WithMonthly(w0, Step(MonthlyTally(w0), CaptionItem(mid, mcap)));
      CheckCountryUpdates(byCountry, db);
      ghost var w1 := WithMonthly(w0, Pass(Step(MonthlyTally(w0), CaptionItem(mid, mcap)), CountryItems(mid, byCountry)));
      assert State(db, getter) == w1;
      monthlyGen.PrintReport();
    }

    /**
     * The end of `do_chapter_heirarchy`: the chapters of each story pending
     * a check compared and its section printed; the pending flags cleared.
     */
    method CheckPendingStories(getter: FanfictionGetter, cap: MonthCaption, db: ReadMeDb) returns (fault: Option<Fault>)
      requires Valid()
      modifies db`session, getter`log, reportGen`report, reportGen`usedKeys, reportGen`output
      ensures Run(State(db, getter), fault) == PendingRun(old(State(db, getter)), getter.serve, mid, cap)
    {
      var chapterList := db.GetChecksPending();
      if chapterList.Err? {
        return Some(chapterList.fault);
      }
      fault := CheckPendingList(chapterList.value, getter, cap, db);
      if fault.None? {
        db.ClearChecksPending();
      }
    }

    /** The loop of `do_chapter_heirarchy` over the pending stories: each one's chapters compared, then its section printed. */
    method CheckPendingList(list: seq<(int, string)>, getter: FanfictionGetter, cap: MonthCaption, db: ReadMeDb)
      returns (fault: Option<Fault>)
      requires Valid()
      modifies db`session, getter`log, reportGen`report, reportGen`usedKeys, reportGen`output
      ensures Run(State(db, getter), fault) == PendingLoop(old(State(db, getter)), getter.serve, mid, cap, list)
    {
      ghost var w3 := State(db, getter);
      for i := 0 to |list|
        invariant PendingLoop(w3, getter.serve, mid, cap, list[..i]) == Run(State(db, getter), None)
      {
        PendingLoopSnoc(w3, getter.serve, mid, cap, list, i, State(db, getter));
        var (sref, title) := list[i];
        var f := CheckStoryChapters(sref, title, getter, cap, db);
        if f.Some? {
          PendingLoopErr(w3, getter.serve, mid, cap, list, i + 1);
          return f;
        }
        reportGen.PrintKeyedSection(title);
      }
      assert list[..|list|] == list;
      fault := None;
    }

    /**
     * A tree for a month; with no page given, the month's story-eyes page
     * is fetched (a failure there is the run's failure).
     */
    static method Create(getter: FanfictionGetter, monthRec: MonthRec, eyesTree: Option<Page>,
                         reportGen: Option<ReportGen>, catchup: bool) returns (r: Result<MonthlyDataTree>)
      modifies getter`log
      ensures var req := MonthRequest(monthRec);
        && getter.log == old(getter.log) + (if eyesTree.None? then [req] else [])
        && (eyesTree.None? && getter.serve(req).Err? ==> r == Err(getter.serve(req).fault))
        && (r.Ok? ==> r.value.eyesTree == if eyesTree.Some? then eyesTree.value else getter.serve(req).value)
      ensures eyesTree.Some? || getter.serve(MonthRequest(monthRec)).Ok? ==> r.Ok?
      ensures r.Ok? ==>
        (&& fresh(r.value) && r.value.Valid() && r.value.changedStorySet == {}
         && r.value.month == ZFill(FormatInt(monthRec.month), 2) && r.value.year == FormatInt(monthRec.year)
         && r.value.mid == monthRec.mid && r.value.catchup == catchup
         && (reportGen.Some? ==> r.value.reportGen == reportGen.value)
         && (reportGen.None? ==> fresh(r.value.reportGen) && r.value.reportGen.falseReturn == CatchupReturn(catchup))
         && fresh(r.value.monthlyGen))
    {
      var page: Page;
      if eyesTree.None? {
        var fetched := getter.GetOldStoryEyesTree(ZFill(FormatInt(monthRec.month), 2), FormatInt(monthRec.year));
        if fetched.Err? {
          return Err(fetched.fault);
        }
        page := fetched.value;
      } else {
        page := eyesTree.value;
      }
      var t := new MonthlyDataTree(monthRec, page, reportGen, catchup);
      r := Ok(t);
    }
  }

  /** How `get_data_trees` goes, by what is on record and what the current story-eyes page shows. */
  datatype SetupCase =
    | NoMonths                                       // nothing on record: the bootstrap case
    | Failed(fault: Fault)                           // the page, its caption or its numbers failed
    | NoMonthCaption                                 // the page shows no month caption
    | SameMonth(page: Page)                          // the page shows the month on record
    | NewMonth(page: Page, month: int, year: int)    // the page shows another month

  function CaseOf(lastMonth: Option<MonthRec>, serve: Request -> Result<Page>): SetupCase
  {
    if lastMonth.None? then NoMonths
    else
      match serve(StoryEyesRequest())
      case Err(e) => Failed(e)
      case Ok(page) => PageCase(lastMonth.value, page)
  }

  /** The case a fetched story-eyes page makes, against the month on record. */
  function PageCase(last: MonthRec, page: Page): (c: SetupCase)
    ensures c != NoMonths
    ensures c.SameMonth? || c.NewMonth? ==> c.page == page
  {
    match CaptionFromCells(page.captionCells)
    case Err(e) => Failed(e)
    case Ok(None) => NoMonthCaption
    case Ok(Some(cap)) =>
      match PyInt(cap.month)
      case Err(e) => Failed(e)
      case Ok(month) =>
        match PyInt(cap.year)
        case Err(e) => Failed(e)
        case Ok(year) =>
          if month == last.month && year == last.year then SameMonth(page)
          else NewMonth(page, month, year)
  }

  /** The request for the story-eyes page of a month on record. */
  function MonthRequest(monthRec: MonthRec): Request
  {
    OldStoryEyesRequest(ZFill(FormatInt(monthRec.month), 2), FormatInt(monthRec.year))
  }

  lemma LogThen(log: seq<Request>, a: Request, b: Request)
    ensures log + [a] + [b] == log + [a, b]
  {
  }

  /** A tree for this month, over this page and with this catch-up setting. */
  predicate Shows(t: MonthlyDataTree, monthRec: MonthRec, page: Page, catchup: bool)
    reads t
  {
    && t.month == ZFill(FormatInt(monthRec.month), 2) && t.year == FormatInt(monthRec.year)
    && t.mid == monthRec.mid && t.eyesTree == page && t.catchup == catchup
  }

  /**
   * The two trees of a crossover: the last month over its own page, without
   * catch-up; then the month the site shows, recorded in the month table,
   * with the shared report generator.
   */
  predicate CrossedOver(trees: seq<MonthlyDataTree>, serve: Request -> Result<Page>, months: map<int, MonthRow>,
                        last: MonthRec, page: Page, year: int, month: int, catchup: bool, reportGen: ReportGen)
    reads trees, reportGen
  {
    && |trees| == 2
    && serve(MonthRequest(last)) == Ok(trees[0].eyesTree)
    && Shows(trees[0], last, trees[0].eyesTree, false)
    && trees[1].mid in months && months[trees[1].mid] == MonthRow(year, month)
    && Shows(trees[1], MonthRec(trees[1].mid, year, month), page, catchup)
    && trees[1].reportGen == reportGen && reportGen.falseReturn == CatchupReturn(catchup)
  }

  /**
   * What a crossover does outside the trees: the new month recorded (under
   * the mid after the last month's, unless the month is already on record),
   * then the last month's page fetched; the run fails exactly when the mid
   * is taken or that page cannot be read.
   */
  predicate CrossoverEffect(t0: Tables, t: Tables, log0: seq<Request>, log: seq<Request>,
                            serve: Request -> Result<Page>, last: MonthRec, year: int, month: int,
                            r: Result<seq<MonthlyDataTree>>)
  {
    var c := MonthCreated(t0.months, year, month, last.mid + 1);
    var req := MonthRequest(last);
    && t == (if c.Ok? then t0.(months := c.value) else t0)
    && (c.Err? ==> r.Err? && r.fault == c.fault && log == log0)
    && (c.Ok? ==> (&& log == log0 + [req]
                   && (r.Ok? <==> serve(req).Ok?)
                   && (r.Err? ==> r.fault == serve(req).fault)))
  }

  /**
   * Which months a run compares: none without a month on record or without
   * a caption; the last month alone when the site shows it; otherwise the
   * last month, then the month the site has moved on to.
   */
  class MonthlySetup {
    const lastMonth: Option<MonthRec>
    const catchup: bool

    constructor (db: ReadMeDb, catchup: bool)
      ensures lastMonth.None? <==> db.session.months.Keys == {}
      ensures lastMonth.Some? ==>
        (&& IsLatest(db.session.months, lastMonth.value.mid)
         && db.session.months[lastMonth.value.mid] == MonthRow(lastMonth.value.year, lastMonth.value.month))
      ensures this.catchup == catchup
    {
      var last := db.GetLastMonth();
      lastMonth := last;
      this.catchup := catchup;
    }

    /** `is_bootstrap`: no month is on record. */
    predicate IsBootstrap()
      reads this
    {
      lastMonth.None?
    }

    /**
     * `get_data_trees`: per case, the trees returned, the pages fetched,
     * and the month row the crossover case records.
     */
    method GetDataTrees(db: ReadMeDb, getter: FanfictionGetter, reportGen: ReportGen)
      returns (r: Result<seq<MonthlyDataTree>>)
      modifies db`session, getter`log, reportGen`falseReturn
      ensures var c := CaseOf(lastMonth, getter.serve);
        && (c == NoMonths ==> r == Ok([]) && getter.log == old(getter.log))
        && (c == NoMonthCaption ==> r == Ok([]))
        && (c.Failed? ==> r == Err(c.fault))
        && (c == NoMonths || c == NoMonthCaption || c.Failed? ==> reportGen.falseReturn == old(reportGen.falseReturn))
        && (!c.NewMonth? ==> db.session == old(db.session))
        && (c != NoMonths && !c.NewMonth? ==> getter.log == old(getter.log) + [StoryEyesRequest()])
        && (c.SameMonth? ==>
             (&& r.Ok? && |r.value| == 1
              && Shows(r.value[0], lastMonth.value, c.page, catchup)
              && r.value[0].reportGen == reportGen && reportGen.falseReturn == CatchupReturn(catchup)))
        && (c.NewMonth? ==>
             CrossoverEffect(old(db.session), db.session, old(getter.log) + [StoryEyesRequest()], getter.log,
                             getter.serve, lastMonth.value, c.year, c.month, r))
        && (c.NewMonth? && r.Ok? ==>
             (&& CrossedOver(r.value, getter.serve, db.session.months, lastMonth.value, c.page, c.year, c.month, catchup, reportGen)
              && (!MonthOnRecord(old(db.session).months, c.year, c.month) ==> r.value[1].mid == lastMonth.value.mid + 1)
              && fresh(r.value[0].reportGen)))
    {
      if IsBootstrap() {
        return Ok([]);
      }
      var eyesTree := getter.GetStoryEyesTree();
      if eyesTree.Err? {
        return Err(eyesTree.fault);
      }
      LogThen(old(getter.log), StoryEyesRequest(), MonthRequest(lastMonth.value));
      r := TreesOver(db, getter, reportGen, eyesTree.value);
    }

    /** `get_data_trees` once the current story-eyes page is in hand. */
    method TreesOver(db: ReadMeDb, getter: FanfictionGetter, reportGen: ReportGen, page: Page)
      returns (r: Result<seq<MonthlyDataTree>>)
      requires lastMonth.Some?
      modifies db`session, getter`log, reportGen`falseReturn
      ensures var c := PageCase(lastMonth.value, page);
        && (c == NoMonthCaption ==> r == Ok([]))
        && (c.Failed? ==> r == Err(c.fault))
        && (c == NoMonthCaption || c.Failed? ==> reportGen.falseReturn == old(reportGen.falseReturn))
        && (!c.NewMonth? ==> db.session == old(db.session) && getter.log == old(getter.log))
        && (c.SameMonth? ==>
             (&& r.Ok? && |r.value| == 1
              && Shows(r.value[0], lastMonth.value, page, catchup)
              && r.value[0].reportGen == reportGen && reportGen.falseReturn == CatchupReturn(catchup)))
        && (c.NewMonth? ==>
             CrossoverEffect(old(db.session), db.session, old(getter.log), getter.log,
                             getter.serve, lastMonth.value, c.year, c.month, r))
        && (c.NewMonth? && r.Ok? ==>
             (&& CrossedOver(r.value, getter.serve, db.session.months, lastMonth.value, page, c.year, c.month, catchup, reportGen)
              && (!MonthOnRecord(old(db.session).months, c.year, c.month) ==> r.value[1].mid == lastMonth.value.mid + 1)
              && fresh(r.value[0].reportGen)))
    {
      match PageCase(lastMonth.value, page)
      case Failed(e) =>
        r := Err(e);
      case NoMonthCaption =>
        r := Ok([]);
      case NewMonth(_, month, year) =>
        r := Crossover(db, getter, reportGen, page, month, year);
      case SameMonth(_) =>
        reportGen.SetCatchup(catchup);
        var mtree := new MonthlyDataTree(lastMonth.value, page, Some(reportGen), catchup);
        r := Ok([mtree]);
    }

    /**
     * The crossover branch of `get_data_trees`: the new month is recorded and
     * given the shared report generator; the last month gets a fresh
     * generator without catch-up, over its own page fetched anew.
     */
    method Crossover(db: ReadMeDb, getter: FanfictionGetter, reportGen: ReportGen, page: Page, month: int, year: int)
      returns (r: Result<seq<MonthlyDataTree>>)
      requires lastMonth.Some?
      modifies db`session, getter`log, reportGen`falseReturn
      ensures CrossoverEffect(old(db.session), db.session, old(getter.log), getter.log,
                              getter.serve, lastMonth.value, year, month, r)
      ensures r.Ok? ==>
        (&& CrossedOver(r.value, getter.serve, db.session.months, lastMonth.value, page, year, month, catchup, reportGen)
         && (!MonthOnRecord(old(db.session).months, year, month) ==> r.value[1].mid == lastMonth.value.mid + 1)
         && fresh(r.value[0].reportGen))
    {
      var newMonth := db.GetOrCreateMonth(month, year, lastMonth.value.mid + 1);
      if newMonth.Err? {
        return Err(newMonth.fault);
      }
      reportGen.SetCatchup(catchup);
      var mtree := new MonthlyDataTree(newMonth.value, page, Some(reportGen), catchup);
      var mtree0 := MonthlyDataTree.Create(getter, lastMonth.value, None, None, false);
      if mtree0.Err? {
        return Err(mtree0.fault);
      }
      r := Ok([mtree0.value, mtree]);
    }
  }
}
