/**
 * The baseline store. Every table is a map from its primary key to the
 * rest of its row (membership tables, whose rows are all key, are one set),
 * and `ReadMeDb` holds two copies of them: what the open session sees and
 * what the database file holds. Changes reach the file only when the
 * session is closed with the commit flag set.
 */
module Store {
  import opened Base
  import opened Text
  import opened Records

  /** Views and visitors of one row of a month-scoped counter table. */
  datatype Counts = Counts(views: int, visitors: int)

  /** The counters a get-or-create inserts. */
  const NoCounts := Counts(0, 0)

  /** Primary key of a row of one of the six month-scoped counter tables. */
  datatype CountKey =
    | TopKey(mid: int)                                             // MTop: the month as a whole
    | CtryKey(mid: int, country: string)                           // MCtry
    | StoryKey(mid: int, ref: int)                                 // MStory
    | ChapKey(mid: int, ref: int, chap: int)                       // MChap
    | StoryCtryKey(mid: int, ref: int, country: string)            // MStoryCtry
    | ChapCtryKey(mid: int, ref: int, chap: int, country: string)  // MChapCtry

  /** A counter column of a row, as `getattr` and `setattr` name it. */
  datatype CountColumn = Views | Visitors

  /** The attribute name of a column. */
  function ColumnName(f: CountColumn): string
  {
    if f == Views then "views" else "visitors"
  }

  /** `getattr(rec, name)` on a counter row. */
  function CountField(c: Counts, f: CountColumn): int
  {
    if f == Views then c.views else c.visitors
  }

  /** `setattr(rec, name, v)` on a counter row: that field changes, the other stays. */
  function WithCountField(c: Counts, f: CountColumn, v: int): (c': Counts)
    ensures CountField(c', f) == v
    ensures forall g :: g != f ==> CountField(c', g) == CountField(c, g)
  {
    if f == Views then c.(views := v) else c.(visitors := v)
  }

  /** A row of the Months table, keyed by its `mid`. */
  datatype MonthRow = MonthRow(year: int, month: int)

  /** A Months row together with its key, as a query returns it. */
  datatype MonthRec = MonthRec(mid: int, year: int, month: int)

  /** Strictly earlier in (year, month) order. */
  predicate Before(a: MonthRow, b: MonthRow)
  {
    a.year < b.year || (a.year == b.year && a.month < b.month)
  }

  /** No month on record is later than the one under `mid`. */
  predicate IsLatest(months: map<int, MonthRow>, mid: int)
  {
    mid in months && forall m :: m in months ==> !Before(months[mid], months[m])
  }

  /** Some Months row holds this (year, month). */
  predicate MonthOnRecord(months: map<int, MonthRow>, year: int, month: int)
  {
    exists m :: m in months && months[m] == MonthRow(year, month)
  }

  /**
   * The Months table after `get_or_create_month`: as it was when the month is
   * on record, otherwise with a row under `mid`, which fails when `mid` is
   * already taken (the key clash the session would raise).
   */
  function MonthCreated(months: map<int, MonthRow>, year: int, month: int, mid: int): (r: Result<map<int, MonthRow>>)
    ensures r.Err? <==> !MonthOnRecord(months, year, month) && mid in months
    ensures r.Ok? ==> MonthOnRecord(r.value, year, month)
    ensures r.Ok? ==> forall m :: m in months ==> m in r.value && r.value[m] == months[m]
    ensures r.Ok? ==> forall m :: m in r.value && m !in months ==> m == mid
  {
    if MonthOnRecord(months, year, month) then Ok(months)
    else if mid in months then Err(DuplicateKey)
    else
      var added := months[mid := MonthRow(year, month)];
      assert added[mid] == MonthRow(year, month);
      Ok(added)
  }

  /** Once the month is on record, asking again under any `mid` changes nothing. */
  lemma MonthCreatedAgain(months: map<int, MonthRow>, year: int, month: int, mid: int, mid': int)
    requires MonthCreated(months, year, month, mid).Ok?
    ensures var once := MonthCreated(months, year, month, mid).value;
      MonthCreated(once, year, month, mid') == Ok(once)
  {
  }

  /** A row of the Legacy table (the all-time counters of a story), keyed by story ref. */
  datatype LegacyRow = LegacyRow(chaps: int, reviews: int, views: int, c2s: int, favs: int, alerts: int)

  /** Column defaults of a new Legacy row: one chapter, everything else zero. */
  const EmptyLegacy := LegacyRow(1, 0, 0, 0, 0, 0)

  /** A counter column of a Legacy row, as `getattr` and `setattr` name it. */
  datatype LegacyColumn = Chaps | Reviews | AllViews | C2s | FavCount | AlertCount

  /** The attribute name of a Legacy column. */
  function LegacyName(c: LegacyColumn): string
  {
    match c
    case Chaps => "chaps"
    case Reviews => "reviews"
    case AllViews => "views"
    case C2s => "c2s"
    case FavCount => "favs"
    case AlertCount => "alerts"
  }

  function LegacyField(r: LegacyRow, c: LegacyColumn): int
  {
    match c
    case Chaps => r.chaps
    case Reviews => r.reviews
    case AllViews => r.views
    case C2s => r.c2s
    case FavCount => r.favs
    case AlertCount => r.alerts
  }

  /** `setattr(rec, name, v)` on a Legacy row: that field changes, the others stay. */
  function WithLegacyField(r: LegacyRow, c: LegacyColumn, v: int): (r': LegacyRow)
    ensures LegacyField(r', c) == v
    ensures forall d :: d != c ==> LegacyField(r', d) == LegacyField(r, d)
  {
    match c
    case Chaps => r.(chaps := v)
    case Reviews => r.(reviews := v)
    case AllViews => r.(views := v)
    case C2s => r.(c2s := v)
    case FavCount => r.(favs := v)
    case AlertCount => r.(alerts := v)
  }

  /** A row of the Chapters table, keyed by the chapter's own ref. */
  datatype ChapterRow = ChapterRow(storyRef: int, num: int, title: string, words: int)

  /** A row of the Users table, keyed by user code. */
  datatype UserRow = UserRow(country: string, dateAdded: string)

  /** Column default of `date_added`. */
  const NoDate := "00-00-0000"

  /** A row of the Ao3Stories table, keyed by title; every column defaults to zero. */
  datatype Ao3Row = Ao3Row(hits: int, kudos: int, comments: int, bookmarks: int, ref: int)

  const EmptyAo3 := Ao3Row(0, 0, 0, 0, 0)

  /** A column of an Ao3Stories row, as `getattr` and `setattr` name it. */
  datatype Ao3Column = Hits | Kudos | Comments | Bookmarks | WorkRef

  /** The attribute name of an Ao3Stories column. */
  function Ao3Name(c: Ao3Column): string
  {
    match c
    case Hits => "hits"
    case Kudos => "kudos"
    case Comments => "comments"
    case Bookmarks => "bookmarks"
    case WorkRef => "ref"
  }

  function Ao3Field(r: Ao3Row, c: Ao3Column): int
  {
    match c
    case Hits => r.hits
    case Kudos => r.kudos
    case Comments => r.comments
    case Bookmarks => r.bookmarks
    case WorkRef => r.ref
  }

  /** `setattr(rec, name, v)` on an Ao3Stories row: that field changes, the others stay. */
  function WithAo3Field(r: Ao3Row, c: Ao3Column, v: int): (r': Ao3Row)
    ensures Ao3Field(r', c) == v
    ensures forall d :: d != c ==> Ao3Field(r', d) == Ao3Field(r, d)
  {
    match c
    case Hits => r.(hits := v)
    case Kudos => r.(kudos := v)
    case Comments => r.(comments := v)
    case Bookmarks => r.(bookmarks := v)
    case WorkRef => r.(ref := v)
  }

  /** A row of one of the four membership tables; its columns are its whole key. */
  datatype Membership =
    | Fav(ref: int, code: int)      // user `code` has story `ref` among their favourites
    | Follow(ref: int, code: int)   // user `code` follows story `ref`
    | FavMe(code: int)              // user `code` has the author among their favourites
    | FollowMe(code: int)           // user `code` follows the author

  datatype Tables = Tables(
    stories: map<int, string>,       // Stories: ref -> title
    checkPend: map<int, int>,        // CheckPend: ref -> check_pending flag
    months: map<int, MonthRow>,      // Months: mid -> (year, month)
    counts: map<CountKey, Counts>,   // MTop, MCtry, MStory, MChap, MStoryCtry, MChapCtry
    legacy: map<int, LegacyRow>,     // Legacy: ref -> counters
    chapters: map<int, ChapterRow>,  // Chapters: ch_ref -> row
    users: map<int, UserRow>,        // Users: code -> row
    aliases: map<int, seq<string>>,  // Aliases: code -> names, oldest first
    members: set<Membership>,        // Favs, Follows, FavMe, FollowMe
    ao3: map<string, Ao3Row>)        // Ao3Stories: title -> row

  const EmptyTables := Tables(map[], map[], map[], map[], map[], map[], map[], map[], {}, map[])

  /** A get-or-create on a map: an existing row is kept as it is, a missing one gets `dflt`. */
  function WithDefault<K, V>(m: map<K, V>, k: K, dflt: V): (m': map<K, V>)
    ensures k in m' && m'[k] == (if k in m then m[k] else dflt)
    ensures m'.Keys == m.Keys + {k}
    ensures forall j :: j in m && j != k ==> m'[j] == m[j]
  {
    if k in m then m else m[k := dflt]
  }

  /** Calling a get-or-create twice has the effect of calling it once. */
  lemma WithDefaultIdempotent<K, V>(m: map<K, V>, k: K, dflt: V)
    ensures WithDefault(WithDefault(m, k, dflt), k, dflt) == WithDefault(m, k, dflt)
  {
  }

  /** Users who have story `ref` among their favourites. */
  function FavCodes(members: set<Membership>, ref: int): set<int>
  {
    set m | m in members && m.Fav? && m.ref == ref :: m.code
  }

  /** Users who follow story `ref`. */
  function FollowCodes(members: set<Membership>, ref: int): set<int>
  {
    set m | m in members && m.Follow? && m.ref == ref :: m.code
  }

  function FavMeCodes(members: set<Membership>): set<int>
  {
    set m | m in members && m.FavMe? :: m.code
  }

  function FollowMeCodes(members: set<Membership>): set<int>
  {
    set m | m in members && m.FollowMe? :: m.code
  }

  /** `get_fav_counts` turned into a dict: a ref is present iff it has a favourite; a missing ref reads as 0. */
  function FavCounts(members: set<Membership>): (m: map<int, int>)
    ensures forall ref :: ref in m <==> FavCodes(members, ref) != {}
    ensures forall ref :: Get(m, ref, 0) == |FavCodes(members, ref)|
  {
    var refs := set x | x in members && x.Fav? :: x.ref;
    assert forall ref :: ref in refs <==> FavCodes(members, ref) != {} by {
      forall ref ensures ref in refs <==> FavCodes(members, ref) != {} {
        if ref in refs {
          var x :| x in members && x.Fav? && x.ref == ref;
          assert x.code in FavCodes(members, ref);
        }
      }
    }
    map ref | ref in refs :: |FavCodes(members, ref)|
  }

  /** `get_follow_counts` turned into a dict: a ref is present iff it has a follower; a missing ref reads as 0. */
  function FollowCounts(members: set<Membership>): (m: map<int, int>)
    ensures forall ref :: ref in m <==> FollowCodes(members, ref) != {}
    ensures forall ref :: Get(m, ref, 0) == |FollowCodes(members, ref)|
  {
    var refs := set x | x in members && x.Follow? :: x.ref;
    assert forall ref :: ref in refs <==> FollowCodes(members, ref) != {} by {
      forall ref ensures ref in refs <==> FollowCodes(members, ref) != {} {
        if ref in refs {
          var x :| x in members && x.Follow? && x.ref == ref;
          assert x.code in FollowCodes(members, ref);
        }
      }
    }
    map ref | ref in refs :: |FollowCodes(members, ref)|
  }

  /** Refs whose chapter check is pending. */
  function PendingRefs(checkPend: map<int, int>): set<int>
  {
    set r | r in checkPend && checkPend[r] == 1
  }

  /** `clear_checks_pending`: every flag that was 1 becomes 0; no other row changes. */
  function Cleared(checkPend: map<int, int>): (c: map<int, int>)
    ensures c.Keys == checkPend.Keys
    ensures PendingRefs(c) == {}
    ensures forall r :: r in checkPend && checkPend[r] != 1 ==> c[r] == checkPend[r]
  {
    ClearedExcept(checkPend, {})
  }

  /** Clearing under way: the pending flags outside `keep` are already 0. */
  function ClearedExcept(checkPend: map<int, int>, keep: set<int>): map<int, int>
  {
    map r | r in checkPend :: if checkPend[r] == 1 && r !in keep then 0 else checkPend[r]
  }

  lemma ClearStep(checkPend: map<int, int>, keep: set<int>, ref: int)
    requires ref in keep && ref in PendingRefs(checkPend)
    ensures ClearedExcept(checkPend, keep)[ref := 0] == ClearedExcept(checkPend, keep - {ref})
  {
  }

  /** Listing order of pending checks: by title, then (for equal titles) by ref, the table's scan order. */
  predicate PairLess(a: (int, string), b: (int, string))
  {
    StrLess(a.1, b.1) || (a.1 == b.1 && a.0 < b.0)
  }

  predicate IsLeastPair(ps: set<(int, string)>, m: (int, string))
  {
    m in ps && forall p :: p in ps && p != m ==> PairLess(m, p)
  }

  lemma PairLessTransitive(a: (int, string), b: (int, string), c: (int, string))
    requires PairLess(a, b) && PairLess(b, c)
    ensures PairLess(a, c)
  {
    if StrLess(a.1, b.1) && StrLess(b.1, c.1) {
      StrLessTransitive(a.1, b.1, c.1);
    }
  }

  lemma PairLessTotal(a: (int, string), b: (int, string))
    ensures a == b || PairLess(a, b) || PairLess(b, a)
  {
    StrLessTotal(a.1, b.1);
  }

  lemma {:induction false} LeastPairExists(ps: set<(int, string)>)
    requires ps != {}
    ensures exists m :: IsLeastPair(ps, m)
    decreases |ps|
  {
    var x :| x in ps;
    if ps != {x} {
      var rest := ps - {x};
      LeastPairExists(rest);
      var m :| IsLeastPair(rest, m);
      PairLessTotal(m, x);
      if PairLess(m, x) {
        assert IsLeastPair(ps, m);
      } else {
        forall p | p in ps && p != x ensures PairLess(x, p) {
          if p != m {
            PairLessTransitive(x, m, p);
          }
        }
        assert IsLeastPair(ps, x);
      }
    } else {
      assert IsLeastPair(ps, x);
    }
  }

  lemma LeastPairUniqueAll(ps: set<(int, string)>)
    ensures forall a, b :: IsLeastPair(ps, a) && IsLeastPair(ps, b) ==> a == b
  {
    forall a, b | IsLeastPair(ps, a) && IsLeastPair(ps, b) ensures a == b {
      if a != b {
        assert PairLess(a, b) && PairLess(b, a);
        PairLessTransitive(a, b, a);
        StrLessIrreflexive(a.1);
      }
    }
  }

  function LeastPair(ps: set<(int, string)>): (m: (int, string))
    requires ps != {}
    ensures IsLeastPair(ps, m)
  {
    LeastPairExists(ps);
    LeastPairUniqueAll(ps);
    var m :| IsLeastPair(ps, m); m
  }

  function SortedPairs(ps: set<(int, string)>): (r: seq<(int, string)>)
    ensures |r| == |ps|
    ensures forall p :: p in r <==> p in ps
    ensures forall i, j :: 0 <= i < j < |r| ==> PairLess(r[i], r[j])
    decreases |ps|
  {
    if ps == {} then []
    else
      var m := LeastPair(ps);
      var rest := SortedPairs(ps - {m});
      forall j | 0 <= j < |rest| ensures PairLess(m, rest[j]) {
        assert rest[j] in rest;
      }
      [m] + rest
  }

  /** Catalogue entries that a list of title records writes: the last record under a ref wins. */
  function TitlesOf(recs: seq<TitleRec>): (m: map<int, string>)
    ensures forall ref :: ref in m <==> exists i :: 0 <= i < |recs| && recs[i].ref == ref
  {
    if recs == [] then map[]
    else
      var last := recs[|recs| - 1];
      TitlesOf(recs[..|recs| - 1])[last.ref := last.title]
  }

  /** The title kept under a ref is the one of the last record carrying that ref. */
  lemma {:induction false} TitlesOfLast(recs: seq<TitleRec>, i: int)
    requires 0 <= i < |recs|
    requires forall j :: i < j < |recs| ==> recs[j].ref != recs[i].ref
    ensures recs[i].ref in TitlesOf(recs) && TitlesOf(recs)[recs[i].ref] == recs[i].title
  {
    if i < |recs| - 1 {
      TitlesOfLast(recs[..|recs| - 1], i);
    }
  }

  predicate DistinctRefs(recs: seq<TitleRec>)
  {
    forall i, j :: 0 <= i < j < |recs| ==> recs[i].ref != recs[j].ref
  }

  /** A legacy record without its title (the named tuple `LegacyRecNoTitle`). */
  datatype LegacyNoTitle = LegacyNoTitle(ref: int, words: int, chaps: int, reviews: int, views: int,
                                         c2s: int, favs: int, alerts: int)

  /** `legacy_recs_iter`: each record in turn, title dropped, the other fields in order. */
  function LegacyRecsIter(recs: seq<LegacyRec>): (r: seq<LegacyNoTitle>)
    ensures |r| == |recs|
    ensures forall i :: 0 <= i < |recs| ==> r[i].ref == recs[i].ref && r[i].words == recs[i].words
  {
    if recs == [] then []
    else
      var x := recs[0];
      [LegacyNoTitle(x.ref, x.words, x.chaps, x.reviews, x.views, x.c2s, x.favs, x.alerts)]
        + LegacyRecsIter(recs[1..])
  }

  /** Putting the title back gives the original record: nothing but the title is dropped. */
  lemma {:induction false} LegacyRecsIterKeepsAll(recs: seq<LegacyRec>, i: int)
    requires 0 <= i < |recs|
    ensures var t := LegacyRecsIter(recs)[i];
      LegacyRec(t.ref, recs[i].title, t.words, t.chaps, t.reviews, t.views, t.c2s, t.favs, t.alerts) == recs[i]
  {
    if i > 0 {
      LegacyRecsIterKeepsAll(recs[1..], i - 1);
    }
  }

  /** Among any non-empty set of recorded months, one is not earlier than any other. */
  lemma {:induction false} LatestIn(months: map<int, MonthRow>, ks: set<int>)
    requires ks != {} && ks <= months.Keys
    ensures exists mid :: mid in ks && forall m :: m in ks ==> !Before(months[mid], months[m])
    decreases |ks|
  {
    var x := Pick(ks);
    var rest := ks - {x};
    if rest == {} {
      assert ks == {x};
    } else {
      LatestIn(months, rest);
      var m :| m in rest && forall y :: y in rest ==> !Before(months[m], months[y]);
      if Before(months[m], months[x]) {
        forall y | y in ks ensures !Before(months[x], months[y]) {
          if y != x {
            assert y in rest;
          }
        }
      } else {
        forall y | y in ks ensures !Before(months[m], months[y]) {
          if y != x {
            assert y in rest;
          }
        }
      }
    }
  }

  /** A latest month exists whenever any month is on record. */
  lemma LatestExists(months: map<int, MonthRow>)
    requires months.Keys != {}
    ensures exists mid :: IsLatest(months, mid)
  {
    LatestIn(months, months.Keys);
    var mid :| mid in months.Keys && forall m :: m in months.Keys ==> !Before(months[mid], months[m]);
    assert IsLatest(months, mid);
  }

  /**
   * `get_checks_pending`: the (ref, title) pairs whose flag is 1, sorted by title.
   * A pending ref with no story row has no title to read, and the call fails.
   */
  function ChecksPending(t: Tables): (r: Result<seq<(int, string)>>)
    ensures r.Ok? <==> forall ref :: ref in PendingRefs(t.checkPend) ==> ref in t.stories
    ensures r.Ok? ==> forall p :: p in r.value <==>
        p.0 in PendingRefs(t.checkPend) && p.0 in t.stories && t.stories[p.0] == p.1
    ensures r.Ok? ==> forall i, j :: 0 <= i < j < |r.value| ==> !StrLess(r.value[j].1, r.value[i].1)
    ensures r.Ok? ==> forall i, j :: 0 <= i < j < |r.value| ==> r.value[i].0 != r.value[j].0
  {
    var pending := PendingRefs(t.checkPend);
    if exists ref :: ref in pending && ref !in t.stories then Err(MissingStory)
    else
      var ps := set ref | ref in pending :: (ref, t.stories[ref]);
      assert forall p :: p in ps <==> p.0 in pending && p.0 in t.stories && t.stories[p.0] == p.1 by {
        forall p ensures p in ps <==> p.0 in pending && p.0 in t.stories && t.stories[p.0] == p.1 {
          if p.0 in pending && p.0 in t.stories && t.stories[p.0] == p.1 {
            var ref := p.0;
            assert ref in pending && p == (ref, t.stories[ref]);
          }
          if p in ps {
            var ref :| ref in pending && p == (ref, t.stories[ref]);
          }
        }
      }
      var r := SortedPairs(ps);
      assert forall i, j :: 0 <= i < j < |r| ==> !StrLess(r[j].1, r[i].1) by {
        forall i, j | 0 <= i < j < |r| ensures !StrLess(r[j].1, r[i].1) {
          assert PairLess(r[i], r[j]);
          if StrLess(r[j].1, r[i].1) {
            if StrLess(r[i].1, r[j].1) {
              StrLessAsymmetric(r[i].1, r[j].1);
            } else {
              StrLessIrreflexive(r[i].1);
            }
          }
        }
      }
      Ok(r)
  }

  class ReadMeDb {
    /** The tables as the open session sees them. */
    var session: Tables
    /** The tables as the database file holds them. */
    var persisted: Tables
    var commitFlag: bool

    constructor (stored: Tables)
      ensures session == stored && persisted == stored && !commitFlag
    {
      session := stored;
      persisted := stored;
      commitFlag := false;
    }

    /** Leaving the `with` block: commit if and only if the flag was set. */
    method Exit()
      modifies this`persisted
      ensures persisted == if commitFlag then session else old(persisted)
    {
      if commitFlag {
        persisted := session;
      }
    }

    method SetCommitFlag(flag: bool)
      modifies this`commitFlag
      ensures commitFlag == flag
    {
      commitFlag := flag;
    }

    /** One `get_or_create_mtop` … `get_or_create_chapctry`: the existing row, or a new one with zero counts. */
    method GetOrCreateCounts(key: CountKey) returns (row: Counts)
      modifies this`session
      ensures session == old(session).(counts := WithDefault(old(session).counts, key, NoCounts))
      ensures row == session.counts[key]
    {
      session := session.(counts := WithDefault(session.counts, key, NoCounts));
      row := session.counts[key];
    }

    /** Writing the fields of a counter row the caller holds. */
    method SetCounts(key: CountKey, c: Counts)
      requires key in session.counts
      modifies this`session
      ensures session == old(session).(counts := old(session).counts[key := c])
    {
      session := session.(counts := session.counts[key := c]);
    }

    method SetCheckPending(ref: int)
      modifies this`session
      ensures session == old(session).(checkPend := old(session).checkPend[ref := 1])
    {
      session := session.(checkPend := session.checkPend[ref := 1]);
    }

    /** `get_checks_pending` on the tables the session sees. */
    function GetChecksPending(): (r: Result<seq<(int, string)>>)
      reads this
      ensures r == ChecksPending(session)
    {
      ChecksPending(session)
    }

    method ClearChecksPending()
      modifies this`session
      ensures session == old(session).(checkPend := Cleared(old(session).checkPend))
    {
      var pending := PendingRefs(session.checkPend);
      ghost var start := session.checkPend;
      assert ClearedExcept(start, pending) == start;
      while pending != {}
        invariant pending <= PendingRefs(start)
        invariant session == old(session).(checkPend := ClearedExcept(start, pending))
        decreases |pending|
      {
        // Pick shows the set non-empty, which the `:|` below needs.
        ghost var w := Pick(pending);
        var ref :| ref in pending;
        ClearStep(start, pending, ref);
        session := session.(checkPend := session.checkPend[ref := 0]);
        pending := pending - {ref};
      }
    }

    /** A Months row with this (month, year), or a new one under `mid`; `mid` matters only on creation. */
    method GetOrCreateMonth(month: int, year: int, mid: int) returns (r: Result<MonthRec>)
      modifies this`session
      ensures var c := MonthCreated(old(session).months, year, month, mid);
        && session == (if c.Ok? then old(session).(months := c.value) else old(session))
        && (r.Ok? <==> c.Ok?) && (r.Err? ==> r.fault == c.fault)
      ensures r.Ok? ==> r.value.year == year && r.value.month == month
      ensures r.Ok? ==> r.value.mid in session.months && session.months[r.value.mid] == MonthRow(year, month)
      ensures r.Ok? && !MonthOnRecord(old(session).months, year, month) ==> r.value.mid == mid
    {
      if m :| m in session.months && session.months[m] == MonthRow(year, month) {
        return Ok(MonthRec(m, year, month));
      }
      if mid in session.months {
        return Err(DuplicateKey);
      }
      session := session.(months := session.months[mid := MonthRow(year, month)]);
      r := Ok(MonthRec(mid, year, month));
    }

    /** `get_last_month`: a month with the greatest (year, month), or None when no month is on record. */
    method GetLastMonth() returns (r: Option<MonthRec>)
      ensures r.None? <==> session.months.Keys == {}
      ensures r.Some? ==> (IsLatest(session.months, r.value.mid)
        && session.months[r.value.mid] == MonthRow(r.value.year, r.value.month))
    {
      if session.months.Keys == {} {
        return None;
      }
      LatestExists(session.months);
      var mid :| IsLatest(session.months, mid);
      r := Some(MonthRec(mid, session.months[mid].year, session.months[mid].month));
    }

    /** `get_last_mid`: the key of a latest month, or 0 when no month is on record. */
    method GetLastMid() returns (mid: int)
      ensures session.months.Keys == {} ==> mid == 0
      ensures session.months.Keys != {} ==> IsLatest(session.months, mid)
    {
      var last := GetLastMonth();
      if last.None? {
        return 0;
      }
      mid := last.value.mid;
    }

    /** `get_or_create_chapter`: an existing chapter row is kept; a new one is built from the scraped row. */
    method GetOrCreateChapter(sref: int, rec: MonthlyChapterRec) returns (row: ChapterRow)
      modifies this`session
      ensures session == old(session).(chapters := WithDefault(old(session).chapters, rec.chRef,
                                                               ChapterRow(sref, rec.num, rec.title, rec.words)))
      ensures row == session.chapters[rec.chRef]
    {
      session := session.(chapters := WithDefault(session.chapters, rec.chRef, ChapterRow(sref, rec.num, rec.title, rec.words)));
      row := session.chapters[rec.chRef];
    }

    method SetChapterTitle(chRef: int, title: string)
      requires chRef in session.chapters
      modifies this`session
      ensures session == old(session).(chapters := old(session).chapters[chRef := old(session).chapters[chRef].(title := title)])
    {
      session := session.(chapters := session.chapters[chRef := session.chapters[chRef].(title := title)]);
    }

    /** `get_or_create_user`: an existing user keeps its country; a new one gets `country` and no date. */
    method GetOrCreateUser(code: int, country: string) returns (row: UserRow)
      modifies this`session
      ensures session == old(session).(users := WithDefault(old(session).users, code, UserRow(country, NoDate)))
      ensures row == session.users[code]
    {
      session := session.(users := WithDefault(session.users, code, UserRow(country, NoDate)));
      row := session.users[code];
    }

    /** `get_or_create_alias`: the name is added after the user's existing aliases unless already there. */
    method GetOrCreateAlias(code: int, name: string)
      modifies this`session
      ensures var before := Get(old(session).aliases, code, []);
        session == old(session).(aliases := old(session).aliases[code := if name in before then before else before + [name]])
    {
      var before := Get(session.aliases, code, []);
      if name !in before {
        session := session.(aliases := session.aliases[code := before + [name]]);
      } else {
        session := session.(aliases := session.aliases[code := before]);
      }
    }

    /** `get_or_create_story`, returning the title of the row it found or made. */
    method GetOrCreateStory(ref: int, title: string) returns (stored: string)
      modifies this`session
      ensures session == old(session).(stories := WithDefault(old(session).stories, ref, title))
      ensures stored == session.stories[ref]
    {
      session := session.(stories := WithDefault(session.stories, ref, title));
      stored := session.stories[ref];
    }

    method SetStoryTitle(ref: int, title: string)
      requires ref in session.stories
      modifies this`session
      ensures session == old(session).(stories := old(session).stories[ref := title])
    {
      session := session.(stories := session.stories[ref := title]);
    }

    /** `batch_insert_stories`: the whole batch is inserted, or it fails on a repeated or existing ref. */
    method BatchInsertStories(recs: seq<TitleRec>) returns (err: Option<Fault>)
      modifies this`session
      ensures err.None? <==> DistinctRefs(recs) && forall i :: 0 <= i < |recs| ==> recs[i].ref !in old(session).stories
      ensures err.None? ==> session == old(session).(stories := old(session).stories + TitlesOf(recs))
      ensures err.Some? ==> err == Some(DuplicateKey) && session == old(session)
    {
      if !DistinctRefs(recs) || exists i :: 0 <= i < |recs| && recs[i].ref in session.stories {
        return Some(DuplicateKey);
      }
      session := session.(stories := session.stories + TitlesOf(recs));
      err := None;
    }

    /** `create_empty_legacy`: a Legacy row with the column defaults; the ref must be new. */
    method CreateEmptyLegacy(ref: int) returns (r: Result<LegacyRow>)
      modifies this`session
      ensures ref in old(session).legacy ==> r == Err(DuplicateKey) && session == old(session)
      ensures ref !in old(session).legacy ==>
          r == Ok(EmptyLegacy) && session == old(session).(legacy := old(session).legacy[ref := EmptyLegacy])
    {
      if ref in session.legacy {
        return Err(DuplicateKey);
      }
      session := session.(legacy := session.legacy[ref := EmptyLegacy]);
      r := Ok(EmptyLegacy);
    }

    /** Writing the fields of a Legacy row the caller holds. */
    method SetLegacy(ref: int, row: LegacyRow)
      requires ref in session.legacy
      modifies this`session
      ensures session == old(session).(legacy := old(session).legacy[ref := row])
    {
      session := session.(legacy := session.legacy[ref := row]);
    }

    method GetOrCreateAo3Story(title: string) returns (row: Ao3Row)
      modifies this`session
      ensures session == old(session).(ao3 := WithDefault(old(session).ao3, title, EmptyAo3))
      ensures row == session.ao3[title]
    {
      session := session.(ao3 := WithDefault(session.ao3, title, EmptyAo3));
      row := session.ao3[title];
    }

    method SetAo3(title: string, row: Ao3Row)
      requires title in session.ao3
      modifies this`session
      ensures session == old(session).(ao3 := old(session).ao3[title := row])
    {
      session := session.(ao3 := session.ao3[title := row]);
    }

    /** `get_or_create_favme` and `get_or_create_followme`: the row is there afterwards, nothing else changes. */
    method GetOrCreateMember(m: Membership)
      modifies this`session
      ensures session == old(session).(members := old(session).members + {m})
    {
      session := session.(members := session.members + {m});
    }

    /** `session.add` of a membership row whose key is not taken. */
    method AddMember(m: Membership)
      requires m !in session.members
      modifies this`session
      ensures session == old(session).(members := old(session).members + {m})
    {
      session := session.(members := session.members + {m});
    }

    /** `session.delete` of a membership row the caller holds. */
    method DeleteMember(m: Membership)
      requires m in session.members
      modifies this`session
      ensures session == old(session).(members := old(session).members - {m})
    {
      session := session.(members := session.members - {m});
    }
  }
}
