/**
 * The all-time story page (`do_you_read_me`): the story catalogue brought
 * level with the page's titles, each story's counters compared with the
 * stored Legacy row and written, the stories whose favourite or follow
 * count no longer matches the stored lists picked out, and those lists
 * then refreshed from the per-story pages.
 */
module Legacy {
  import opened Base
  import opened Text
  import opened Records
  import opened Store
  import opened Report
  import opened Site
  import opened Extract
  import opened Members

  // ---------------------------------------------------------------------
  // Titles

  function TitleRef(r: TitleRec): int
  {
    r.ref
  }

  /** The entries of `m` under `keys`, written one key after the other. */
  function Overlay<V>(m: map<int, V>, keys: seq<int>): (r: map<int, V>)
    requires forall k :: k in keys ==> k in m
    ensures forall k :: k in r <==> k in keys
    ensures forall k :: k in r ==> r[k] == m[k]
  {
    if keys == [] then map[]
    else
      var k := keys[|keys| - 1];
      Overlay(m, keys[..|keys| - 1])[k := m[k]]
  }

  /** One more key written. */
  lemma OverlaySnoc<V>(base: map<int, V>, m: map<int, V>, keys: seq<int>, i: nat)
    requires i < |keys| && forall k :: k in keys ==> k in m
    ensures base + Overlay(m, keys[..i + 1]) == (base + Overlay(m, keys[..i]))[keys[i] := m[keys[i]]]
  {
    assert keys[..i + 1][..i] == keys[..i];
  }

  /** Every key of `m` written: the whole of `m`. */
  lemma OverlayAll<V>(base: map<int, V>, m: map<int, V>, keys: seq<int>)
    requires forall k :: k in keys <==> k in m
    ensures base + Overlay(m, keys) == base + m
  {
    var r := Overlay(m, keys);
    forall k
      ensures k in r <==> k in m
    {
      assert k in r <==> k in keys;
    }
    assert r == m;
  }

  /** `dict((x.ref, x) for x in ff_titles)` agrees with the catalogue entries the titles write. */
  lemma {:induction false} LastByTitles(recs: seq<TitleRec>)
    ensures LastBy(recs, TitleRef).Keys == TitlesOf(recs).Keys
    ensures forall k :: k in TitlesOf(recs) ==> LastBy(recs, TitleRef)[k].title == TitlesOf(recs)[k]
  {
    if recs != [] {
      LastByTitles(recs[..|recs| - 1]);
    }
  }

  /**
   * `compare_story_recs`: the story made when it has no row (with the
   * scraped title), and a stored title that differs overwritten. `stored`
   * is the row the caller looked up, if any.
   */
  method CompareStoryRecs(stored: Option<string>, current: TitleRec, db: ReadMeDb)
    requires stored.Some? ==> current.ref in db.session.stories && db.session.stories[current.ref] == stored.value
    modifies db`session
    ensures db.session == old(db.session).(stories := old(db.session).stories[current.ref := current.title])
  {
    var title: string;
    if stored.None? {
      title := db.GetOrCreateStory(current.ref, current.title);
    } else {
      title := stored.value;
    }
    if title != current.title {
      db.SetStoryTitle(current.ref, current.title);
    }
  }

  /**
   * `compare_titles_to_db`: an empty catalogue is filled in one batch,
   * which fails on a repeated ref; otherwise each ref of the page is
   * compared in turn. Either way the catalogue ends up holding every
   * scraped title under its ref (the last record of a ref winning) and
   * keeping every other story.
   */
  method CompareTitlesToDb(titles: seq<TitleRec>, db: ReadMeDb) returns (fault: Option<Fault>)
    modifies db`session
    ensures fault.Some? <==> old(db.session).stories == map[] && !DistinctRefs(titles)
    ensures fault.Some? ==> fault == Some(DuplicateKey) && db.session == old(db.session)
    ensures fault.None? ==> db.session == old(db.session).(stories := old(db.session).stories + TitlesOf(titles))
  {
    if db.session.stories == map[] {
      fault := db.BatchInsertStories(titles);
      return;
    }
    CompareEachTitle(titles, db);
    fault := None;
  }

  /** The loop of `compare_titles_to_db` over a catalogue that has stories: each ref of the page compared once. */
  method CompareEachTitle(titles: seq<TitleRec>, db: ReadMeDb)
    modifies db`session
    ensures db.session == old(db.session).(stories := old(db.session).stories + TitlesOf(titles))
  {
    var keys := FirstKeys(titles, TitleRef);
    var last := LastBy(titles, TitleRef);
    var s0 := db.session.stories;
    ghost var m := TitlesOf(titles);
    FirstKeysCoverLastBy(titles, TitleRef);
    LastByTitles(titles);
    assert s0 + Overlay(m, keys[..0]) == s0;
    for i := 0 to |keys|
      invariant db.session == old(db.session).(stories := s0 + Overlay(m, keys[..i]))
    {
      var key := keys[i];
      assert key !in keys[..i];
      OverlaySnoc(s0, m, keys, i);
      CompareStoryRecs(if key in s0 then Some(s0[key]) else None, last[key], db);
    }
    assert keys[..|keys|] == keys;
    OverlayAll(s0, m, keys);
  }

  // ---------------------------------------------------------------------
  // Legacy counters

  /** The fields `compare_legacy_recs` compares, in its order. */
  const LegacyTests: seq<LegacyColumn> := [Chaps, Reviews, AllViews, C2s, FavCount, AlertCount]

  /** The counters of a scraped record as a Legacy row; the word count has no column. */
  function RowOf(rec: LegacyRec): LegacyRow
  {
    LegacyRow(rec.chaps, rec.reviews, rec.views, rec.c2s, rec.favs, rec.alerts)
  }

  /** The line one field of a comparison records, if the field moved. */
  function LegacyEntry(o: LegacyRow, cur: LegacyRec, f: LegacyColumn): seq<Entry>
  {
    var was, now := LegacyField(o, f), LegacyField(RowOf(cur), f);
    OnChange(was, now, Entry(cur.title, TitleLine(cur.title, "legacy ", LegacyName(f), was, now)))
  }

  /** The lines a comparison of `fields` records, in order. */
  function LegacyEntries(o: LegacyRow, cur: LegacyRec, fields: seq<LegacyColumn>): seq<Entry>
  {
    if fields == [] then []
    else LegacyEntries(o, cur, fields[..|fields| - 1]) + LegacyEntry(o, cur, fields[|fields| - 1])
  }

  /** The row once each field of `fields` is set from the scraped record. */
  function LegacyWritten(o: LegacyRow, cur: LegacyRec, fields: seq<LegacyColumn>): LegacyRow
  {
    if fields == [] then o
    else
      var f := fields[|fields| - 1];
      WithLegacyField(LegacyWritten(o, cur, fields[..|fields| - 1]), f, LegacyField(RowOf(cur), f))
  }

  /** A written field reads as scraped; a field not yet written reads as stored. */
  lemma {:induction false} LegacyWrittenField(o: LegacyRow, cur: LegacyRec, fields: seq<LegacyColumn>, f: LegacyColumn)
    ensures LegacyField(LegacyWritten(o, cur, fields), f) == if f in fields then LegacyField(RowOf(cur), f) else LegacyField(o, f)
  {
    if fields != [] {
      var front := fields[..|fields| - 1];
      LegacyWrittenField(o, cur, front, f);
      assert fields == front + [fields[|fields| - 1]];
    }
  }

  /** A comparison is silent exactly when no compared field moved. */
  lemma {:induction false} LegacyEntriesQuiet(o: LegacyRow, cur: LegacyRec, fields: seq<LegacyColumn>)
    ensures LegacyEntries(o, cur, fields) == [] <==> forall f :: f in fields ==> LegacyField(o, f) == LegacyField(RowOf(cur), f)
  {
    if fields != [] {
      var front, f := fields[..|fields| - 1], fields[|fields| - 1];
      assert fields == front + [f];
      LegacyEntriesQuiet(o, cur, front);
      assert LegacyEntry(o, cur, f) == [] <==> LegacyField(o, f) == LegacyField(RowOf(cur), f);
      assert LegacyEntries(o, cur, fields) == LegacyEntries(o, cur, front) + LegacyEntry(o, cur, f);
    }
  }

  /** A row is determined by its six fields. */
  lemma LegacyRowFields(a: LegacyRow, b: LegacyRow)
    requires forall f :: f in LegacyTests ==> LegacyField(a, f) == LegacyField(b, f)
    ensures a == b
  {
    assert LegacyField(a, Chaps) == LegacyField(b, Chaps);
    assert LegacyField(a, Reviews) == LegacyField(b, Reviews);
    assert LegacyField(a, AllViews) == LegacyField(b, AllViews);
    assert LegacyField(a, C2s) == LegacyField(b, C2s);
    assert LegacyField(a, FavCount) == LegacyField(b, FavCount);
    assert LegacyField(a, AlertCount) == LegacyField(b, AlertCount);
  }

  /**
   * After the whole comparison the row holds the scraped counters, and the
   * comparison reported nothing exactly when the stored row already did.
   */
  lemma LegacyAll(o: LegacyRow, cur: LegacyRec)
    ensures LegacyWritten(o, cur, LegacyTests) == RowOf(cur)
    ensures LegacyEntries(o, cur, LegacyTests) == [] <==> o == RowOf(cur)
  {
    forall f | f in LegacyTests
      ensures LegacyField(LegacyWritten(o, cur, LegacyTests), f) == LegacyField(RowOf(cur), f)
    {
      LegacyWrittenField(o, cur, LegacyTests, f);
    }
    LegacyRowFields(LegacyWritten(o, cur, LegacyTests), RowOf(cur));
    LegacyEntriesQuiet(o, cur, LegacyTests);
    if LegacyEntries(o, cur, LegacyTests) == [] {
      LegacyRowFields(o, RowOf(cur));
    }
  }

  /** Field `i` of the loop: still as stored before it is written, and one more entry afterwards. */
  lemma LegacyStep(o: LegacyRow, cur: LegacyRec, i: nat)
    requires i < |LegacyTests|
    ensures var f, w := LegacyTests[i], LegacyWritten(o, cur, LegacyTests[..i]);
      && LegacyField(w, f) == LegacyField(o, f)
      && LegacyWritten(o, cur, LegacyTests[..i + 1]) == WithLegacyField(w, f, LegacyField(RowOf(cur), f))
      && LegacyEntries(o, cur, LegacyTests[..i + 1]) == LegacyEntries(o, cur, LegacyTests[..i]) + LegacyEntry(o, cur, f)
  {
    assert LegacyTests[..i + 1][..i] == LegacyTests[..i];
    LegacyWrittenField(o, cur, LegacyTests[..i], LegacyTests[i]);
  }

  /** The stored row a comparison starts from: the row looked up, or a new row's column defaults. */
  function StartRow(stored: Option<LegacyRow>): LegacyRow
  {
    if stored.Some? then stored.value else EmptyLegacy
  }

  /**
   * `compare_legacy_recs`: a story without a row gets one with the column
   * defaults (the ref must be new); then each counter is compared with the
   * row, reported under the story's title when it moved, and set from the
   * scraped record.
   */
  method CompareLegacyRecs(stored: Option<LegacyRow>, current: LegacyRec, db: ReadMeDb, reportGen: ReportGen)
    returns (fault: Option<Fault>)
    requires stored.Some? ==> current.ref in db.session.legacy && db.session.legacy[current.ref] == stored.value
    modifies db`session, reportGen`report
    ensures fault.Some? <==> stored.None? && current.ref in old(db.session).legacy
    ensures fault.Some? ==> fault == Some(DuplicateKey) && db.session == old(db.session) && reportGen.report == old(reportGen.report)
    ensures fault.None? ==> db.session == old(db.session).(legacy := old(db.session).legacy[current.ref := RowOf(current)])
    ensures fault.None? ==> reportGen.report == RecordAll(old(reportGen.report), LegacyEntries(StartRow(stored), current, LegacyTests))
  {
    var row: LegacyRow;
    if stored.None? {
      var made := db.CreateEmptyLegacy(current.ref);
      if made.Err? {
        return Some(made.fault);
      }
      row := made.value;
    } else {
      row := stored.value;
    }
    row := CompareLegacyFields(row, current, reportGen);
    db.SetLegacy(current.ref, row);
    fault := None;
  }

  /** The loop of `compare_legacy_recs`: each counter compared in turn, and set when it moved. */
  method CompareLegacyFields(o: LegacyRow, current: LegacyRec, reportGen: ReportGen) returns (row: LegacyRow)
    modifies reportGen`report
    ensures row == RowOf(current)
    ensures reportGen.report == RecordAll(old(reportGen.report), LegacyEntries(o, current, LegacyTests))
  {
    row := o;
    ghost var report0 := reportGen.report;
    var cur := RowOf(current);
    for i := 0 to |LegacyTests|
      invariant row == LegacyWritten(o, current, LegacyTests[..i])
      invariant reportGen.report == RecordAll(report0, LegacyEntries(o, current, LegacyTests[..i]))
    {
      row := CompareLegacyField(o, current, cur, i, row, reportGen, report0);
    }
    assert LegacyTests[..|LegacyTests|] == LegacyTests;
    LegacyAll(o, current);
  }

  /** One turn of `CompareLegacyFields`: the counter `LegacyTests[i]` compared and, if it moved, written. */
  method CompareLegacyField(o: LegacyRow, current: LegacyRec, cur: LegacyRow, i: nat, row: LegacyRow,
                            reportGen: ReportGen, ghost report0: map<string, seq<string>>)
    returns (row': LegacyRow)
    requires i < |LegacyTests| && cur == RowOf(current)
    requires row == LegacyWritten(o, current, LegacyTests[..i])
    requires reportGen.report == RecordAll(report0, LegacyEntries(o, current, LegacyTests[..i]))
    modifies reportGen`report
    ensures row' == LegacyWritten(o, current, LegacyTests[..i + 1])
    ensures reportGen.report == RecordAll(report0, LegacyEntries(o, current, LegacyTests[..i + 1]))
  {
    var valueKey := LegacyTests[i];
    LegacyStep(o, current, i);
    var c := reportGen.CompareAndPrint(current.title, LegacyName(valueKey), LegacyField(cur, valueKey),
                                       Some(LegacyField(row, valueKey)), "legacy ");
    row' := row;
    if c != 0 {
      row' := WithLegacyField(row, valueKey, LegacyField(cur, valueKey));
    }
    RecordAllAppend(report0, LegacyEntries(o, current, LegacyTests[..i]), LegacyEntry(o, current, valueKey));
  }

  function LegacyRef(r: LegacyRec): int
  {
    r.ref
  }

  /** The lines the comparisons of the stories `keys` record, one story after the other. */
  function LegacyRun(snapshot: map<int, LegacyRow>, last: map<int, LegacyRec>, keys: seq<int>): seq<Entry>
    requires forall k :: k in keys ==> k in last
  {
    if keys == [] then []
    else
      var k := keys[|keys| - 1];
      LegacyRun(snapshot, last, keys[..|keys| - 1])
        + LegacyEntries(StartRow(if k in snapshot then Some(snapshot[k]) else None), last[k], LegacyTests)
  }

  /** The comparisons of stories whose rows already hold the scraped counters report nothing. */
  lemma {:induction false} LegacyRunQuiet(snapshot: map<int, LegacyRow>, last: map<int, LegacyRec>, keys: seq<int>)
    requires forall k :: k in keys ==> k in last && k in snapshot && snapshot[k] == RowOf(last[k])
    ensures LegacyRun(snapshot, last, keys) == []
  {
    if keys != [] {
      var k := keys[|keys| - 1];
      LegacyRunQuiet(snapshot, last, keys[..|keys| - 1]);
      LegacyAll(snapshot[k], last[k]);
    }
  }

  /** The counter a list's size is checked against: favourites, or follows ("alerts"). */
  function ListCount(l: List, row: LegacyRow): int
  {
    if l == FavList then row.favs else row.alerts
  }

  /** `get_fav_counts` / `get_follow_counts` turned into a dict. */
  function ListCounts(l: List, members: set<Membership>): (m: map<int, int>)
    ensures forall ref :: Get(m, ref, 0) == |Codes(members, l, StoryOf(ref))|
  {
    if l == FavList then FavCounts(members) else FollowCounts(members)
  }

  /**
   * The stories of `keys` whose list needs a refresh: those that had a row
   * before the update and whose scraped counter differs from the number of
   * stored users on that list.
   */
  function Stale(l: List, snapshot: map<int, LegacyRow>, last: map<int, LegacyRec>, members: set<Membership>,
                 keys: seq<int>): seq<int>
    requires forall k :: k in keys ==> k in last
  {
    if keys == [] then []
    else
      var k := keys[|keys| - 1];
      Stale(l, snapshot, last, members, keys[..|keys| - 1])
        + if k in snapshot && ListCount(l, RowOf(last[k])) != |Codes(members, l, StoryOf(k))| then [k] else []
  }

  /** A story is picked out exactly when it is one of `keys`, it had a row, and its counter disagrees with its list. */
  lemma {:induction false} StaleIn(l: List, snapshot: map<int, LegacyRow>, last: map<int, LegacyRec>,
                                   members: set<Membership>, keys: seq<int>, k: int)
    requires forall k :: k in keys ==> k in last
    ensures k in Stale(l, snapshot, last, members, keys) <==>
      k in keys && k in snapshot && ListCount(l, RowOf(last[k])) != |Codes(members, l, StoryOf(k))|
  {
    if keys != [] {
      var front := keys[..|keys| - 1];
      StaleIn(l, snapshot, last, members, front, k);
      assert keys == front + [keys[|keys| - 1]];
    }
  }

  /** No story is picked out twice when the keys are distinct. */
  lemma {:induction false} StaleDistinct(l: List, snapshot: map<int, LegacyRow>, last: map<int, LegacyRec>,
                                         members: set<Membership>, keys: seq<int>)
    requires forall k :: k in keys ==> k in last
    requires Distinct(keys)
    ensures Distinct(Stale(l, snapshot, last, members, keys))
  {
    if keys != [] {
      var front := keys[..|keys| - 1];
      StaleDistinct(l, snapshot, last, members, front);
      StaleIn(l, snapshot, last, members, front, keys[|keys| - 1]);
    }
  }

  /** The Legacy rows the scraped records write: the last record of a ref wins. */
  function RowsOf(recs: seq<LegacyRec>): (m: map<int, LegacyRow>)
    ensures m.Keys == LastBy(recs, LegacyRef).Keys
  {
    var last := LastBy(recs, LegacyRef);
    map k | k in last :: RowOf(last[k])
  }

  /**
   * `compare_legacy_recs_to_db`: every scraped story compared with its
   * row as it stood before (a missing row made), in first-seen order; then
   * the stories that already had a row and whose favourite or follow
   * counter, as just written, differs from the number of stored users on
   * that list, in the same order.
   */
  method CompareLegacyRecsToDb(recs: seq<LegacyRec>, db: ReadMeDb, reportGen: ReportGen)
    returns (favs: seq<int>, follows: seq<int>)
    modifies db`session, reportGen`report
    ensures db.session == old(db.session).(legacy := old(db.session).legacy + RowsOf(recs))
    ensures reportGen.report == RecordAll(old(reportGen.report),
      LegacyRun(old(db.session).legacy, LastBy(recs, LegacyRef), FirstKeys(recs, LegacyRef)))
    ensures favs == Stale(FavList, old(db.session).legacy, LastBy(recs, LegacyRef), old(db.session).members, FirstKeys(recs, LegacyRef))
    ensures follows == Stale(FollowList, old(db.session).legacy, LastBy(recs, LegacyRef), old(db.session).members, FirstKeys(recs, LegacyRef))
  {
    var snapshot := db.session.legacy;
    var keys := FirstKeys(recs, LegacyRef);
    var last := LastBy(recs, LegacyRef);
    var favCounts := ListCounts(FavList, db.session.members);
    var followCounts := ListCounts(FollowList, db.session.members);
    ghost var members := db.session.members;
    CompareEachLegacy(recs, db, reportGen);
    RowsOfLast(recs);
    favs, follows := ListsToUpdate(keys, snapshot, last, db.session.legacy, favCounts, followCounts, members);
  }

  /** The rows the scraped records write hold the counters of the last record of each ref. */
  lemma RowsOfLast(recs: seq<LegacyRec>)
    ensures forall k :: k in RowsOf(recs) ==> k in LastBy(recs, LegacyRef) && RowsOf(recs)[k] == RowOf(LastBy(recs, LegacyRef)[k])
  {
  }

  /** The first loop of `compare_legacy_recs_to_db`: every scraped story compared with its row as it stood before. */
  method CompareEachLegacy(recs: seq<LegacyRec>, db: ReadMeDb, reportGen: ReportGen)
    modifies db`session, reportGen`report
    ensures db.session == old(db.session).(legacy := old(db.session).legacy + RowsOf(recs))
    ensures reportGen.report == RecordAll(old(reportGen.report),
      LegacyRun(old(db.session).legacy, LastBy(recs, LegacyRef), FirstKeys(recs, LegacyRef)))
  {
    var snapshot := db.session.legacy;
    var keys := FirstKeys(recs, LegacyRef);
    var last := LastBy(recs, LegacyRef);
    ghost var rows := RowsOf(recs);
    ghost var t0 := db.session;
    ghost var r0 := reportGen.report;
    FirstKeysCoverLastBy(recs, LegacyRef);
    assert snapshot + Overlay(rows, keys[..0]) == snapshot;
    for i := 0 to |keys|
      invariant db.session == t0.(legacy := snapshot + Overlay(rows, keys[..i]))
      invariant reportGen.report == RecordAll(r0, LegacyRun(snapshot, last, keys[..i]))
    {
      CompareNextLegacy(keys, last, rows, snapshot, i, db, reportGen, t0, r0);
    }
    assert keys[..|keys|] == keys;
    OverlayAll(snapshot, rows, keys);
  }

  /** One turn of `CompareEachLegacy`: the story `keys[i]` compared with the row it had before the pass. */
  method CompareNextLegacy(keys: seq<int>, last: map<int, LegacyRec>, ghost rows: map<int, LegacyRow>,
                           snapshot: map<int, LegacyRow>, i: nat, db: ReadMeDb, reportGen: ReportGen,
                           ghost t0: Tables, ghost r0: map<string, seq<string>>)
    requires i < |keys| && keys[i] !in keys[..i]
    requires forall k :: k in keys ==> k in last && last[k].ref == k && k in rows && rows[k] == RowOf(last[k])
    requires db.session == t0.(legacy := snapshot + Overlay(rows, keys[..i]))
    requires reportGen.report == RecordAll(r0, LegacyRun(snapshot, last, keys[..i]))
    modifies db`session, reportGen`report
    ensures db.session == t0.(legacy := snapshot + Overlay(rows, keys[..i + 1]))
    ensures reportGen.report == RecordAll(r0, LegacyRun(snapshot, last, keys[..i + 1]))
  {
    var key := keys[i];
    OverlaySnoc(snapshot, rows, keys, i);
    LegacyRunSnoc(snapshot, last, keys, i);
    RecordAllAppend(r0, LegacyRun(snapshot, last, keys[..i]),
                    LegacyEntries(StartRow(if key in snapshot then Some(snapshot[key]) else None), last[key], LegacyTests));
    var fault := CompareLegacyRecs(if key in snapshot then Some(snapshot[key]) else None, last[key], db, reportGen);
    assert fault.None?;
  }

  /** One more story compared. */
  lemma LegacyRunSnoc(snapshot: map<int, LegacyRow>, last: map<int, LegacyRec>, keys: seq<int>, i: nat)
    requires i < |keys| && forall k :: k in keys ==> k in last
    ensures var k := keys[i];
      LegacyRun(snapshot, last, keys[..i + 1]) == LegacyRun(snapshot, last, keys[..i])
        + LegacyEntries(StartRow(if k in snapshot then Some(snapshot[k]) else None), last[k], LegacyTests)
  {
    assert keys[..i + 1][..i] == keys[..i];
  }

  /** One more story looked at. */
  lemma StaleSnoc(l: List, snapshot: map<int, LegacyRow>, last: map<int, LegacyRec>, members: set<Membership>,
                  keys: seq<int>, i: nat)
    requires i < |keys| && forall k :: k in keys ==> k in last
    ensures var k := keys[i];
      Stale(l, snapshot, last, members, keys[..i + 1]) == Stale(l, snapshot, last, members, keys[..i])
        + if k in snapshot && ListCount(l, RowOf(last[k])) != |Codes(members, l, StoryOf(k))| then [k] else []
  {
    assert keys[..i + 1][..i] == keys[..i];
  }

  /**
   * The second loop of `compare_legacy_recs_to_db`: the stories that had a
   * row before the update whose counter, as now written, differs from the
   * count of the stored list.
   */
  method ListsToUpdate(keys: seq<int>, snapshot: map<int, LegacyRow>, last: map<int, LegacyRec>,
                       legacy: map<int, LegacyRow>, favCounts: map<int, int>, followCounts: map<int, int>,
                       ghost members: set<Membership>)
    returns (favs: seq<int>, follows: seq<int>)
    requires forall k :: k in keys ==> k in last
    requires forall k :: k in keys && k in snapshot ==> k in legacy && legacy[k] == RowOf(last[k])
    requires favCounts == ListCounts(FavList, members) && followCounts == ListCounts(FollowList, members)
    ensures favs == Stale(FavList, snapshot, last, members, keys)
    ensures follows == Stale(FollowList, snapshot, last, members, keys)
  {
    favs, follows := [], [];
    for i := 0 to |keys|
      invariant favs == Stale(FavList, snapshot, last, members, keys[..i])
      invariant follows == Stale(FollowList, snapshot, last, members, keys[..i])
    {
      var key := keys[i];
      StaleSnoc(FavList, snapshot, last, members, keys, i);
      StaleSnoc(FollowList, snapshot, last, members, keys, i);
      if key in snapshot {
        var rec := legacy[key];
        assert Get(favCounts, key, 0) == |Codes(members, FavList, StoryOf(key))|;
        assert Get(followCounts, key, 0) == |Codes(members, FollowList, StoryOf(key))|;
        if rec.favs != Get(favCounts, key, 0) {
          favs := favs + [key];
        }
        if rec.alerts != Get(followCounts, key, 0) {
          follows := follows + [key];
        }
      }
    }
    assert keys[..|keys|] == keys;
  }

  /** Both picked-out lists, as sets: a story with a row whose scraped counter disagrees with its stored list. */
  lemma StaleMeaning(l: List, recs: seq<LegacyRec>, snapshot: map<int, LegacyRow>, members: set<Membership>, k: int)
    ensures var keys, last := FirstKeys(recs, LegacyRef), LastBy(recs, LegacyRef);
      k in Stale(l, snapshot, last, members, keys) <==>
        k in snapshot && k in last && ListCount(l, RowOf(last[k])) != |Codes(members, l, StoryOf(k))|
    ensures Distinct(Stale(l, snapshot, LastBy(recs, LegacyRef), members, FirstKeys(recs, LegacyRef)))
  {
    FirstKeysCoverLastBy(recs, LegacyRef);
    StaleIn(l, snapshot, LastBy(recs, LegacyRef), members, FirstKeys(recs, LegacyRef), k);
    StaleDistinct(l, snapshot, LastBy(recs, LegacyRef), members, FirstKeys(recs, LegacyRef));
  }

  /** Once the stored lists match the counters, an unchanged page picks out nothing. */
  lemma {:induction false} StaleNone(l: List, snapshot: map<int, LegacyRow>, last: map<int, LegacyRec>,
                                     members: set<Membership>, keys: seq<int>)
    requires forall k :: k in keys ==> k in last
    requires forall k :: k in keys && k in snapshot ==> ListCount(l, RowOf(last[k])) == |Codes(members, l, StoryOf(k))|
    ensures Stale(l, snapshot, last, members, keys) == []
  {
    if keys != [] {
      StaleNone(l, snapshot, last, members, keys[..|keys| - 1]);
    }
  }

  /**
   * Why the all-time page cannot be taken in: the fetch failed, a row
   * does not parse, or an empty catalogue would receive a ref twice.
   */
  function PageFault(stories: map<int, string>, page: Result<Page>): Option<Fault>
  {
    if page.Err? then Some(page.fault) else RowsFault(stories, page.value.table1Rows)
  }

  /** Why the rows of a fetched all-time page cannot be taken in. */
  function RowsFault(stories: map<int, string>, rows: seq<Row>): Option<Fault>
  {
    if LegacyRows(rows).Err? then Some(LegacyRows(rows).fault)
    else if stories == map[] && !DistinctRefs(LegacyTitles(rows).value) then Some(DuplicateKey)
    else None
  }

  /**
   * `do_legacy_story_page`: the all-time page fetched; its titles brought
   * into the catalogue first, then its counters compared; the stories
   * whose favourites and follows need a refresh returned.
   */
  method DoLegacyStoryPage(getter: FanfictionGetter, db: ReadMeDb, reportGen: ReportGen)
    returns (r: Result<(seq<int>, seq<int>)>)
    modifies getter`log, db`session, reportGen`report
    ensures getter.log == old(getter.log) + [LegacyRequest()]
    ensures r.Err? <==> PageFault(old(db.session).stories, getter.serve(LegacyRequest())).Some?
    ensures r.Err? ==> (r.fault == PageFault(old(db.session).stories, getter.serve(LegacyRequest())).value
      && db.session == old(db.session) && reportGen.report == old(reportGen.report))
    ensures r.Ok? ==> LegacyTaken(old(db.session), old(reportGen.report), getter.serve(LegacyRequest()).value.table1Rows,
                                  db.session, reportGen.report, r.value)
  {
    var tree := getter.GetLegacyTree();
    if tree.Err? {
      return Err(tree.fault);
    }
    r := TakeLegacyPage(tree.value, db, reportGen);
  }

  /**
   * The all-time page taken in: the catalogue holds the page's titles, the
   * Legacy rows its counters, the report the moved counters, and the
   * stories whose lists need a refresh are those `Stale` picks out.
   */
  ghost predicate LegacyTaken(t0: Tables, r0: map<string, seq<string>>, rows: seq<Row>,
                              t: Tables, r: map<string, seq<string>>, lists: (seq<int>, seq<int>))
  {
    && LegacyRows(rows).Ok?
    && var recs := LegacyRows(rows).value;
    var keys, last := FirstKeys(recs, LegacyRef), LastBy(recs, LegacyRef);
    && t == t0.(stories := t0.stories + TitlesOf(LegacyTitles(rows).value), legacy := t0.legacy + RowsOf(recs))
    && r == RecordAll(r0, LegacyRun(t0.legacy, last, keys))
    && lists.0 == Stale(FavList, t0.legacy, last, t0.members, keys)
    && lists.1 == Stale(FollowList, t0.legacy, last, t0.members, keys)
  }

  /** `do_legacy_story_page` once the page is fetched: titles first, then counters. */
  method TakeLegacyPage(page: Page, db: ReadMeDb, reportGen: ReportGen) returns (r: Result<(seq<int>, seq<int>)>)
    modifies db`session, reportGen`report
    ensures r.Err? <==> RowsFault(old(db.session).stories, page.table1Rows).Some?
    ensures r.Err? ==> (r.fault == RowsFault(old(db.session).stories, page.table1Rows).value
      && db.session == old(db.session) && reportGen.report == old(reportGen.report))
    ensures r.Ok? ==> LegacyTaken(old(db.session), old(reportGen.report), page.table1Rows, db.session, reportGen.report, r.value)
  {
    var parser := new LegacyTableParser();
    parser.SetTree(page);
    var titles := parser.GetTitles();
    if titles.Err? {
      return Err(titles.fault);
    }
    r := TakeLegacyRows(parser, titles.value, db, reportGen);
  }

  /** The rest of `do_legacy_story_page` once the titles are parsed: catalogue first, then counters. */
  method TakeLegacyRows(parser: LegacyTableParser, titles: seq<TitleRec>, db: ReadMeDb, reportGen: ReportGen)
    returns (r: Result<(seq<int>, seq<int>)>)
    requires LegacyTitles(parser.rows) == Ok(titles)
    modifies db`session, reportGen`report
    ensures r.Err? <==> RowsFault(old(db.session).stories, parser.rows).Some?
    ensures r.Err? ==> (r.fault == DuplicateKey && db.session == old(db.session) && reportGen.report == old(reportGen.report))
    ensures r.Ok? ==> LegacyTaken(old(db.session), old(reportGen.report), parser.rows,
                                  db.session, reportGen.report, r.value)
  {
    var fault := CompareTitlesToDb(titles, db);
    if fault.Some? {
      return Err(fault.value);
    }
    var recs := parser.GetRows();
    var favs, follows := CompareLegacyRecsToDb(recs.value, db, reportGen);
    r := Ok((favs, follows));
  }

  /** The part of the story statistics pages that lists a story's favourites or follows. */
  function PartName(l: List): string
  {
    if l == FavList then "favs" else "alerts"
  }

  /** The page listing one story's favourites or follows. */
  function PartRequest(l: List, ref: int): Request
  {
    LegacyPartRequest(ref, PartName(l))
  }

  /** The pages fetched for `refs`, in order. */
  function PartRequests(l: List, refs: seq<int>): (rs: seq<Request>)
    ensures |rs| == |refs|
    decreases |refs|
  {
    if refs == [] then [] else PartRequests(l, refs[..|refs| - 1]) + [PartRequest(l, refs[|refs| - 1])]
  }

  /** `log` is `log0` followed by the requests for the pages of `refs`, in order. */
  predicate Fetched(log: seq<Request>, log0: seq<Request>, l: List, refs: seq<int>)
    decreases |refs|
  {
    if refs == [] then log == log0
    else
      && |log| > 0 && log[|log| - 1] == PartRequest(l, refs[|refs| - 1])
      && Fetched(log[..|log| - 1], log0, l, refs[..|refs| - 1])
  }

  /** `Fetched` says exactly that the log grew by `PartRequests`. */
  lemma {:induction false} FetchedMeaning(log: seq<Request>, log0: seq<Request>, l: List, refs: seq<int>)
    ensures Fetched(log, log0, l, refs) <==> log == log0 + PartRequests(l, refs)
  {
    if refs != [] {
      var n := |refs| - 1;
      if |log| > 0 {
        FetchedMeaning(log[..|log| - 1], log0, l, refs[..n]);
        if log == log0 + PartRequests(l, refs) {
          assert log[..|log| - 1] == log0 + PartRequests(l, refs[..n]);
        }
        if Fetched(log, log0, l, refs) {
          assert log == log[..|log| - 1] + [log[|log| - 1]];
        }
      }
    }
  }

  /** One more story fetched: one more request. */
  lemma FetchedSnoc(log: seq<Request>, log0: seq<Request>, l: List, seen: seq<int>, ref: int)
    requires Fetched(log, log0, l, seen)
    ensures Fetched(log + [PartRequest(l, ref)], log0, l, seen + [ref])
  {
    assert (seen + [ref])[..|seen|] == seen;
    assert (log + [PartRequest(l, ref)])[..|log|] == log;
  }

  /** Reading the page of one story's list. */
  function PartUsers(serve: Request -> Result<Page>, l: List): int -> Result<WebUsers>
  {
    ref => WebFrom(serve(PartRequest(l, ref)))
  }

  /** The title a story's lines are keyed by: its stored title, or "Unknown". */
  function TitleOf(titles: map<int, string>, ref: int): string
  {
    Get(titles, ref, "Unknown")
  }

  /**
   * The report once one story's list was compared with its page: the joined
   * users, walked in `order.0`, then the departed ones, walked in `order.1`,
   * each line under the story's title with the title quoted at the head of the
   * message, and each showing the user as the tables `t` stood before.
   */
  function StoryReport(r: map<string, seq<string>>, t: Tables, web: WebUsers, title: string, l: List,
                       order: (seq<int>, seq<int>)): map<string, seq<string>>
  {
    var prefix := "'" + title + "' ";
    RecordAll(RecordAll(r, ChangeEntries(title, t, web.aliases, Message(prefix, Detail(l, true)), order.0)),
              ChangeEntries(title, t, map[], Message(prefix, Detail(l, false)), order.1))
  }

  /** The tables once the list of each story of `refs` was compared, in order, with the page read for it in `webs`. */
  function ListTables(t: Tables, l: List, refs: seq<int>, webs: seq<WebUsers>): Tables
    requires |webs| == |refs|
    decreases |refs|
  {
    if refs == [] then t
    else
      var n := |refs| - 1;
      Compared(ListTables(t, l, refs[..n], webs[..n]), webs[n], l, StoryOf(refs[n]))
  }

  /** The report after the same comparisons, the users of each walked in the order `orders` gives. */
  function ListReport(t: Tables, r: map<string, seq<string>>, titles: map<int, string>, l: List, refs: seq<int>,
                      webs: seq<WebUsers>, orders: seq<(seq<int>, seq<int>)>): map<string, seq<string>>
    requires |webs| == |orders| == |refs|
    decreases |refs|
  {
    if refs == [] then r
    else
      var n := |refs| - 1;
      StoryReport(ListReport(t, r, titles, l, refs[..n], webs[..n], orders[..n]), ListTables(t, l, refs[..n], webs[..n]),
                  webs[n], TitleOf(titles, refs[n]), l, orders[n])
  }

  /** Each pair of `orders` walks the users who joined and who left that story's list, as the list stood then. */
  predicate ListOrders(t: Tables, l: List, refs: seq<int>, webs: seq<WebUsers>, orders: seq<(seq<int>, seq<int>)>)
    requires |webs| == |orders| == |refs|
    decreases |refs|
  {
    if refs == [] then true
    else
      var n := |refs| - 1;
      var stored := Codes(ListTables(t, l, refs[..n], webs[..n]).members, l, StoryOf(refs[n]));
      && ListOrders(t, l, refs[..n], webs[..n], orders[..n])
      && Enumerates(orders[n].0, webs[n].ids - stored) && Enumerates(orders[n].1, stored - webs[n].ids)
  }

  /**
   * Where a pass stands once the stories in `seen` are compared: their
   * pages read into `webs`, the orders walking each story's changes, and the
   * tables and report the closed forms give.
   */
  ghost predicate ListProgress(serve: Request -> Result<Page>, l: List, titles: map<int, string>, t0: Tables,
                               r0: map<string, seq<string>>, seen: seq<int>, webs: seq<WebUsers>,
                               orders: seq<(seq<int>, seq<int>)>, t: Tables, r: map<string, seq<string>>)
  {
    && |webs| == |orders| == |seen|
    && MapResult(seen, PartUsers(serve, l)) == Ok(webs)
    && ListOrders(t0, l, seen, webs, orders)
    && t == ListTables(t0, l, seen, webs)
    && r == ListReport(t0, r0, titles, l, seen, webs, orders)
  }

  /** One more story compared: the tables extended by one comparison. */
  lemma ListTablesSnoc(t: Tables, l: List, seen: seq<int>, webs: seq<WebUsers>, ref: int, web: WebUsers)
    requires |webs| == |seen|
    ensures ListTables(t, l, seen + [ref], webs + [web]) == Compared(ListTables(t, l, seen, webs), web, l, StoryOf(ref))
  {
    assert (seen + [ref])[..|seen|] == seen;
    assert (webs + [web])[..|seen|] == webs;
  }

  /** ... the report by that story's lines ... */
  lemma ListReportSnoc(t: Tables, r: map<string, seq<string>>, titles: map<int, string>, l: List, seen: seq<int>,
                       webs: seq<WebUsers>, orders: seq<(seq<int>, seq<int>)>, ref: int, web: WebUsers, order: (seq<int>, seq<int>))
    requires |webs| == |orders| == |seen|
    ensures ListReport(t, r, titles, l, seen + [ref], webs + [web], orders + [order])
      == StoryReport(ListReport(t, r, titles, l, seen, webs, orders), ListTables(t, l, seen, webs),
                     web, TitleOf(titles, ref), l, order)
  {
    assert (seen + [ref])[..|seen|] == seen;
    assert (webs + [web])[..|seen|] == webs;
    assert (orders + [order])[..|seen|] == orders;
  }

  /** ... and the orders by that story's walks. */
  lemma ListOrdersSnoc(t: Tables, l: List, seen: seq<int>, webs: seq<WebUsers>, orders: seq<(seq<int>, seq<int>)>,
                       ref: int, web: WebUsers, order: (seq<int>, seq<int>))
    requires |webs| == |orders| == |seen|
    ensures var stored := Codes(ListTables(t, l, seen, webs).members, l, StoryOf(ref));
      ListOrders(t, l, seen + [ref], webs + [web], orders + [order]) <==>
        ListOrders(t, l, seen, webs, orders)
        && Enumerates(order.0, web.ids - stored) && Enumerates(order.1, stored - web.ids)
  {
    assert (seen + [ref])[..|seen|] == seen;
    assert (webs + [web])[..|seen|] == webs;
    assert (orders + [order])[..|seen|] == orders;
  }

  /**
   * Once every page was read, each listed story's stored list is the one its
   * page shows, and no other list has moved.
   */
  lemma {:induction false} ListTablesCodes(t: Tables, l: List, refs: seq<int>, read: int -> Result<WebUsers>,
                                           webs: seq<WebUsers>, l': List, o': Owner)
    requires MapResult(refs, read) == Ok(webs)
    ensures l' == l && o'.StoryOf? && o'.ref in refs ==>
      (read(o'.ref).Ok? && Codes(ListTables(t, l, refs, webs).members, l', o') == read(o'.ref).value.ids)
    ensures !(l' == l && o'.StoryOf? && o'.ref in refs) ==>
      Codes(ListTables(t, l, refs, webs).members, l', o') == Codes(t.members, l', o')
  {
    if refs != [] {
      var n := |refs| - 1;
      var front := refs[..n];
      assert refs == front + [refs[n]];
      MapResultFront(refs, read, webs);
      ListTablesCodes(t, l, front, read, webs[..n], l', o');
      ComparedCodes(ListTables(t, l, front, webs[..n]), webs[n], l, StoryOf(refs[n]), l', o');
      assert o'.StoryOf? && o'.ref in refs <==> o' == StoryOf(refs[n]) || (o'.StoryOf? && o'.ref in front);
    }
  }

  /** One story of `check_fav_follow_changes`: its page fetched and its list compared, keyed by its title. */
  method CompareStoryList(getter: FanfictionGetter, db: ReadMeDb, reportGen: ReportGen, l: List, ref: int,
                          titles: map<int, string>)
    returns (fault: Option<Fault>, ghost order: (seq<int>, seq<int>))
    modifies getter`log, db`session, reportGen`report
    ensures getter.log == old(getter.log) + [PartRequest(l, ref)]
    ensures fault.Some? <==> WebFrom(getter.serve(PartRequest(l, ref))).Err?
    ensures fault.Some? ==> (fault.value == WebFrom(getter.serve(PartRequest(l, ref))).fault
      && db.session == old(db.session) && reportGen.report == old(reportGen.report))
    ensures fault.None? ==>
      var web := WebFrom(getter.serve(PartRequest(l, ref))).value;
      var stored := Codes(old(db.session).members, l, StoryOf(ref));
      && Enumerates(order.0, web.ids - stored) && Enumerates(order.1, stored - web.ids)
      && db.session == Compared(old(db.session), web, l, StoryOf(ref))
      && reportGen.report == StoryReport(old(reportGen.report), old(db.session), web, TitleOf(titles, ref), l, order)
  {
    var title := TitleOf(titles, ref);
    ghost var added, removed;
    fault, added, removed := CompareList(getter, db, reportGen, PartRequest(l, ref), title, "'" + title + "' ",
                                         l, StoryOf(ref));
    order := (added, removed);
  }

  /** One turn of `CheckListChanges`: the story `refs[i]` compared after those before it, the tables, report and orders extended by it. */
  method CompareNext(getter: FanfictionGetter, db: ReadMeDb, reportGen: ReportGen, l: List, refs: seq<int>, i: nat,
                     titles: map<int, string>, ghost t0: Tables, ghost r0: map<string, seq<string>>,
                     ghost log0: seq<Request>, ghost webs: seq<WebUsers>, ghost orders: seq<(seq<int>, seq<int>)>)
    returns (fault: Option<Fault>, ghost webs': seq<WebUsers>, ghost orders': seq<(seq<int>, seq<int>)>)
    requires i < |refs|
    requires Fetched(getter.log, log0, l, refs[..i])
    requires ListProgress(getter.serve, l, titles, t0, r0, refs[..i], webs, orders, db.session, reportGen.report)
    modifies getter`log, db`session, reportGen`report
    ensures Fetched(getter.log, log0, l, refs[..i + 1])
    ensures fault.Some? ==> (MapResult(refs, PartUsers(getter.serve, l)) == Err(fault.value)
      && db.session == old(db.session) && reportGen.report == old(reportGen.report))
    ensures fault.None? ==>
      ListProgress(getter.serve, l, titles, t0, r0, refs[..i + 1], webs', orders', db.session, reportGen.report)
  {
    ghost var read := PartUsers(getter.serve, l);
    ghost var log := getter.log;
    ghost var seen := refs[..i];
    var ref := refs[i];
    TakeNext(refs, i);
    ghost var order;
    fault, order := CompareStoryList(getter, db, reportGen, l, ref, titles);
    assert read(ref) == WebFrom(getter.serve(PartRequest(l, ref)));
    FetchedSnoc(log, log0, l, seen, ref);
    MapResultSnoc(seen, read, ref, webs);
    webs', orders' := webs, orders;
    if fault.None? {
      ghost var web := read(ref).value;
      ListTablesSnoc(t0, l, seen, webs, ref, web);
      ListReportSnoc(t0, r0, titles, l, seen, webs, orders, ref, web, order);
      ListOrdersSnoc(t0, l, seen, webs, orders, ref, web, order);
      webs', orders' := webs + [web], orders + [order];
    } else {
      MapResultPrefixErr(refs, read, i + 1);
    }
  }

  /**
   * `check_fav_follow_changes` for one list: each story's page fetched and its
   * list compared, in order, until a page cannot be read. The first `done`
   * stories were compared, with the users read into `webs`; a failure stops
   * at the story after them.
   */
  method CheckListChanges(getter: FanfictionGetter, db: ReadMeDb, reportGen: ReportGen, l: List,
                          refs: seq<int>, titles: map<int, string>)
    returns (fault: Option<Fault>, ghost done: nat, ghost webs: seq<WebUsers>, ghost orders: seq<(seq<int>, seq<int>)>)
    modifies getter`log, db`session, reportGen`report
    ensures done <= |refs|
    ensures ListProgress(getter.serve, l, titles, old(db.session), old(reportGen.report), refs[..done], webs, orders,
                         db.session, reportGen.report)
    ensures fault.None? <==> MapResult(refs, PartUsers(getter.serve, l)).Ok?
    ensures fault.None? ==> done == |refs| && Fetched(getter.log, old(getter.log), l, refs)
    ensures fault.Some? ==> (done < |refs| && Fetched(getter.log, old(getter.log), l, refs[..done + 1])
      && MapResult(refs, PartUsers(getter.serve, l)) == Err(fault.value))
  {
    ghost var t0, r0 := db.session, reportGen.report;
    ghost var log0 := getter.log;
    webs, orders := [], [];
    fault := None;
    for i := 0 to |refs|
      invariant fault.None?
      invariant Fetched(getter.log, log0, l, refs[..i])
      invariant ListProgress(getter.serve, l, titles, t0, r0, refs[..i], webs, orders, db.session, reportGen.report)
    {
      ghost var webs', orders';
      fault, webs', orders' := CompareNext(getter, db, reportGen, l, refs, i, titles, t0, r0, log0, webs, orders);
      if fault.Some? {
        done := i;
        return;
      }
      webs, orders := webs', orders';
    }
    done := |refs|;
    assert refs[..|refs|] == refs;
  }

  /**
   * `check_fav_follow_changes`: the favourites of the stories in `favs`,
   * then the follows of those in `follows`, each keyed by the title the
   * catalogue held at the start. It fails exactly when one of the pages
   * cannot be read.
   */
  method CheckFavFollowChanges(favs: seq<int>, follows: seq<int>, db: ReadMeDb, getter: FanfictionGetter,
                               reportGen: ReportGen)
    returns (fault: Option<Fault>, ghost favOrders: seq<(seq<int>, seq<int>)>, ghost followOrders: seq<(seq<int>, seq<int>)>)
    modifies getter`log, db`session, reportGen`report
    ensures fault.None? <==>
      MapResult(favs, PartUsers(getter.serve, FavList)).Ok? && MapResult(follows, PartUsers(getter.serve, FollowList)).Ok?
    ensures fault.None? ==>
      var t0, r0 := old(db.session), old(reportGen.report);
      var titles := t0.stories;
      var favWebs := MapResult(favs, PartUsers(getter.serve, FavList)).value;
      var followWebs := MapResult(follows, PartUsers(getter.serve, FollowList)).value;
      && |favOrders| == |favs| && |followOrders| == |follows|
      && Fetched(getter.log, old(getter.log) + PartRequests(FavList, favs), FollowList, follows)
      && ListOrders(t0, FavList, favs, favWebs, favOrders)
      && var t1 := ListTables(t0, FavList, favs, favWebs);
      && ListOrders(t1, FollowList, follows, followWebs, followOrders)
      && db.session == ListTables(t1, FollowList, follows, followWebs)
      && reportGen.report == ListReport(t1, ListReport(t0, r0, titles, FavList, favs, favWebs, favOrders),
                                        titles, FollowList, follows, followWebs, followOrders)
  {
    var titles := db.session.stories;
    ghost var done, webs;
    fault, done, webs, favOrders := CheckListChanges(getter, db, reportGen, FavList, favs, titles);
    followOrders := [];
    if fault.Some? {
      return;
    }
    assert favs[..done] == favs;
    FetchedMeaning(getter.log, old(getter.log), FavList, favs);
    fault, done, webs, followOrders := CheckListChanges(getter, db, reportGen, FollowList, follows, titles);
    if fault.None? {
      assert follows[..done] == follows;
    }
  }

  /**
   * After both passes, each listed story's favourites and follows are the ones
   * its pages show, and every other list is as it was.
   */
  lemma FavFollowCodes(t0: Tables, favs: seq<int>, follows: seq<int>,
                       favRead: int -> Result<WebUsers>, followRead: int -> Result<WebUsers>,
                       favWebs: seq<WebUsers>, followWebs: seq<WebUsers>, l': List, o': Owner)
    requires MapResult(favs, favRead) == Ok(favWebs) && MapResult(follows, followRead) == Ok(followWebs)
    ensures var t := ListTables(ListTables(t0, FavList, favs, favWebs), FollowList, follows, followWebs);
      && (l' == FavList && o'.StoryOf? && o'.ref in favs ==>
            favRead(o'.ref).Ok? && Codes(t.members, l', o') == favRead(o'.ref).value.ids)
      && (l' == FollowList && o'.StoryOf? && o'.ref in follows ==>
            followRead(o'.ref).Ok? && Codes(t.members, l', o') == followRead(o'.ref).value.ids)
      && (!(o'.StoryOf? && (if l' == FavList then o'.ref in favs else o'.ref in follows)) ==>
            Codes(t.members, l', o') == Codes(t0.members, l', o'))
  {
    ListTablesCodes(t0, FavList, favs, favRead, favWebs, l', o');
    ListTablesCodes(ListTables(t0, FavList, favs, favWebs), FollowList, follows, followRead, followWebs, l', o');
  }
}
