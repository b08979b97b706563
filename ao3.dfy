/**
 * The Archive of Our Own reader (`do_you_read_ao3`): the author's works
 * pages read (the first page, then each numbered page its pagination
 * lists), each work's counters compared with its Ao3Stories row, and
 * every counter that moved reported under the work's title and written.
 */
module Ao3 {
  import opened Base
  import opened Text
  import opened Records
  import opened Store
  import opened Report

  // ---------------------------------------------------------------------
  // The works pages

  /** A work's heading link: its text and its href ("/works/<id>"). */
  datatype Heading = Heading(text: string, href: string)

  /**
   * A work's stats block: the texts of its hits, kudos, comments and
   * bookmarks entries; a list is empty when the block has no such entry.
   */
  datatype StatBlock = StatBlock(hits: seq<string>, kudos: seq<string>, comments: seq<string>, bookmarks: seq<string>)

  /** A works page once selected: the work headings, the stats blocks and the pagination labels, in page order. */
  datatype WorksPage = WorksPage(headings: seq<Heading>, stats: seq<StatBlock>, navLabels: seq<string>)

  /**
   * The works page getter. What the site answers is the function `serve`:
   * `None` asks for the first page (no payload), `Some(n)` for the page
   * with payload `{"page": n}`; a failure is the error the getter raises.
   */
  class WorksGetter {
    const serve: Option<int> -> Result<WorksPage>
    /** Every page asked for so far, in order. */
    var log: seq<Option<int>>

    constructor (serve: Option<int> -> Result<WorksPage>)
      ensures this.serve == serve && log == []
    {
      this.serve := serve;
      log := [];
    }

    method GetPage(page: Option<int>) returns (r: Result<WorksPage>)
      modifies this`log
      ensures log == old(log) + [page] && r == serve(page)
    {
      log := log + [page];
      r := serve(page);
    }
  }

  /**
   * How the program reads a number from text: Python's `int()`, which the
   * driver passes as `PyInt`. The parsing below takes it as a parameter,
   * so that its proofs use only what they state about it.
   */
  type NumReader = string -> Result<int>

  /** `RepresentsInt`: whether `int(s)` succeeds. */
  predicate RepresentsInt(num: NumReader, s: string)
  {
    num(s).Ok?
  }

  /** Every formatted integer is recognised, and blank text is not. */
  lemma RepresentsIntCases(n: int)
    ensures RepresentsInt(PyInt, FormatInt(n))
    ensures !RepresentsInt(PyInt, "")
  {
    IntRoundTrip(n);
  }

  /** `int()` reads back every integer it formats. */
  ghost predicate ReadsBack(num: NumReader)
  {
    forall n: int :: num(FormatInt(n)) == Ok(n)
  }

  lemma PyIntReadsBack()
    ensures ReadsBack(PyInt)
  {
    forall n: int
      ensures PyInt(FormatInt(n)) == Ok(n)
    {
      IntRoundTrip(n);
    }
  }

  /** A stats entry's number: `int()` of the first entry's text, 0 when the block has none. */
  function StatValue(num: NumReader, texts: seq<string>): Result<int>
  {
    if texts == [] then Ok(0) else num(texts[0])
  }

  /** The work's id: `int()` of the href with its first seven characters dropped. */
  function RefOf(num: NumReader, href: string): Result<int>
  {
    num(href[if |href| < 7 then |href| else 7..])
  }

  /** One work's record from its heading and stats block; the first number that does not parse is the fault. */
  function Ao3RecOf(num: NumReader, pair: (Heading, StatBlock)): (r: Result<Ao3Rec>)
    ensures r.Ok? ==> r.value.title == pair.0.text
  {
    var (h, s) := pair;
    match RefOf(num, h.href)
    case Err(e) => Err(e)
    case Ok(ref) =>
      match StatValue(num, s.hits)
      case Err(e) => Err(e)
      case Ok(hits) =>
        match StatValue(num, s.kudos)
        case Err(e) => Err(e)
        case Ok(kudos) =>
          match StatValue(num, s.comments)
          case Err(e) => Err(e)
          case Ok(comments) =>
            match StatValue(num, s.bookmarks)
            case Err(e) => Err(e)
            case Ok(bookmarks) => Ok(Ao3Rec(h.text, ref, hits, kudos, comments, bookmarks))
  }

  /** `Ao3RecOf` as the function a list comprehension applies. */
  function RecReader(num: NumReader): ((Heading, StatBlock)) -> Result<Ao3Rec>
  {
    pair => Ao3RecOf(num, pair)
  }

  /**
   * The records of one page: headings and stats blocks paired by position,
   * as far as the shorter list goes, with no check that the counts agree.
   */
  function PageRecs(num: NumReader, page: WorksPage): Result<seq<Ao3Rec>>
  {
    MapResult(Zip(page.headings, page.stats), RecReader(num))
  }

  /**
   * A page reads as one record per heading that has a stats block, each
   * titled by its heading; it fails exactly when some such work has a
   * number that does not parse.
   */
  lemma PageRecsShape(num: NumReader, page: WorksPage)
    ensures var r := PageRecs(num, page);
      && (r.Ok? <==> forall i :: 0 <= i < |page.headings| && i < |page.stats| ==> Ao3RecOf(num, (page.headings[i], page.stats[i])).Ok?)
      && (r.Ok? ==> |r.value| == if |page.headings| <= |page.stats| then |page.headings| else |page.stats|)
      && (r.Ok? ==> forall i :: 0 <= i < |r.value| ==> r.value[i].title == page.headings[i].text)
  {
    var pairs := Zip(page.headings, page.stats);
    var r := MapResult(pairs, RecReader(num));
    assert forall i :: 0 <= i < |pairs| ==> RecReader(num)(pairs[i]) == Ao3RecOf(num, pairs[i]);
  }

  /** How the site shows a work: its link, and an entry for each counter, left out when it is zero. */
  function Shown(rec: Ao3Rec): (Heading, StatBlock)
  {
    (Heading(rec.title, "/works/" + FormatInt(rec.ref)),
     StatBlock(ShownValue(rec.hits), ShownValue(rec.kudos), ShownValue(rec.comments), ShownValue(rec.bookmarks)))
  }

  function ShownValue(n: int): seq<string>
  {
    if n == 0 then [] else [FormatInt(n)]
  }

  /** A work shown reads back as the same record. */
  lemma ShownRoundTrip(num: NumReader, rec: Ao3Rec)
    requires ReadsBack(num)
    ensures Ao3RecOf(num, Shown(rec)) == Ok(rec)
  {
    var s := FormatInt(rec.ref);
    assert ("/works/" + s)[7..] == s;
    assert num(s) == Ok(rec.ref);
    assert StatValue(num, ShownValue(rec.hits)) == Ok(rec.hits) by { assert num(FormatInt(rec.hits)) == Ok(rec.hits); }
    assert StatValue(num, ShownValue(rec.kudos)) == Ok(rec.kudos) by { assert num(FormatInt(rec.kudos)) == Ok(rec.kudos); }
    assert StatValue(num, ShownValue(rec.comments)) == Ok(rec.comments) by {
      assert num(FormatInt(rec.comments)) == Ok(rec.comments);
    }
    assert StatValue(num, ShownValue(rec.bookmarks)) == Ok(rec.bookmarks) by {
      assert num(FormatInt(rec.bookmarks)) == Ok(rec.bookmarks);
    }
  }

  /** A page showing `recs` in order, whatever its pagination, reads back as `recs`. */
  lemma PageRoundTrip(num: NumReader, recs: seq<Ao3Rec>, labels: seq<string>)
    requires ReadsBack(num)
    ensures PageRecs(num, WorksPage(seq(|recs|, i requires 0 <= i < |recs| => Shown(recs[i]).0),
                                    seq(|recs|, i requires 0 <= i < |recs| => Shown(recs[i]).1), labels)) == Ok(recs)
  {
    var page := WorksPage(seq(|recs|, i requires 0 <= i < |recs| => Shown(recs[i]).0),
                          seq(|recs|, i requires 0 <= i < |recs| => Shown(recs[i]).1), labels);
    var pairs := Zip(page.headings, page.stats);
    forall i | 0 <= i < |pairs|
      ensures RecReader(num)(pairs[i]) == Ok(recs[i])
    {
      assert pairs[i] == Shown(recs[i]);
      ShownRoundTrip(num, recs[i]);
    }
    var r := MapResult(pairs, RecReader(num));
    assert r.value == recs;
  }

  /**
   * `Ao3Scraper.parse_tree`: each heading paired with the stats block at
   * the same position and its record appended to the caller's list, whose
   * earlier entries stay as they were; a number that does not parse ends
   * the read with its error.
   */
  method ParseTree(num: NumReader, page: WorksPage, recs: seq<Ao3Rec>) returns (r: Result<seq<Ao3Rec>>)
    ensures r.Ok? <==> PageRecs(num, page).Ok?
    ensures r.Err? ==> r.fault == PageRecs(num, page).fault
    ensures r.Ok? ==> r.value == recs + PageRecs(num, page).value
  {
    var pairs := Zip(page.headings, page.stats);
    var read := RecReader(num);
    var out := recs;
    ghost var vs: seq<Ao3Rec> := [];
    for i := 0 to |pairs|
      invariant MapResult(pairs[..i], read) == Ok(vs) && out == recs + vs
    {
      var next := ParseNext(read, pairs, i, vs, recs, out);
      if next.Err? {
        return next;
      }
      out := next.value;
      vs := vs + [read(pairs[i]).value];
    }
    assert pairs[..|pairs|] == pairs;
    r := Ok(out);
  }

  /** One turn of `ParseTree`: the next work read and appended, or the read failing with its error. */
  method ParseNext(read: ((Heading, StatBlock)) -> Result<Ao3Rec>, pairs: seq<(Heading, StatBlock)>, i: nat,
                   ghost vs: seq<Ao3Rec>, ghost recs: seq<Ao3Rec>, out: seq<Ao3Rec>) returns (r: Result<seq<Ao3Rec>>)
    requires i < |pairs| && MapResult(pairs[..i], read) == Ok(vs) && out == recs + vs
    ensures r.Err? ==> MapResult(pairs, read) == r
    ensures r.Ok? ==> (read(pairs[i]).Ok? && MapResult(pairs[..i + 1], read) == Ok(vs + [read(pairs[i]).value])
      && r.value == recs + (vs + [read(pairs[i]).value]))
  {
    var rec := read(pairs[i]);
    MapResultStep(pairs, read, i, vs);
    if rec.Err? {
      return Err(rec.fault);
    }
    r := Ok(out + [rec.value]);
  }

  // ---------------------------------------------------------------------
  // Page numbers

  /** The leading labels that are integers, as integers: the pages after the first. */
  function LeadingInts(num: NumReader, labels: seq<string>): (keys: seq<int>)
    ensures |keys| <= |labels|
    ensures forall i :: 0 <= i < |keys| ==> num(labels[i]) == Ok(keys[i])
    ensures |keys| < |labels| ==> !RepresentsInt(num, labels[|keys|])
  {
    if labels == [] || !RepresentsInt(num, labels[0]) then []
    else [num(labels[0]).value] + LeadingInts(num, labels[1..])
  }

  /** The three properties of `LeadingInts` pick out exactly one list. */
  lemma {:induction false} LeadingIntsUnique(num: NumReader, labels: seq<string>, keys: seq<int>)
    requires |keys| <= |labels|
    requires forall i :: 0 <= i < |keys| ==> num(labels[i]) == Ok(keys[i])
    requires |keys| < |labels| ==> !RepresentsInt(num, labels[|keys|])
    ensures keys == LeadingInts(num, labels)
  {
    if keys != [] {
      assert num(labels[0]) == Ok(keys[0]);
      forall i | 0 <= i < |keys[1..]|
        ensures num(labels[1..][i]) == Ok(keys[1..][i])
      {
        assert num(labels[i + 1]) == Ok(keys[i + 1]);
      }
      LeadingIntsUnique(num, labels[1..], keys[1..]);
      assert keys == [keys[0]] + keys[1..];
    }
  }

  /** The pagination loop of the reader's driver: integer labels taken until the first that is not one. */
  method PageKeys(num: NumReader, labels: seq<string>) returns (keys: seq<int>)
    ensures keys == LeadingInts(num, labels)
  {
    keys := [];
    for i := 0 to |labels|
      invariant |keys| == i
      invariant forall j :: 0 <= j < i ==> num(labels[j]) == Ok(keys[j])
    {
      var text := labels[i];
      if RepresentsInt(num, text) {
        keys := keys + [num(text).value];
      } else {
        break;
      }
    }
    LeadingIntsUnique(num, labels, keys);
  }

  // ---------------------------------------------------------------------
  // Comparing one work

  /** The fields `compare_ao3_rec` compares, in its order. */
  const Ao3Tests: seq<Ao3Column> := [Hits, Kudos, Comments, Bookmarks, WorkRef]

  /** The counters of a scraped record as an Ao3Stories row. */
  function Ao3RowOf(rec: Ao3Rec): Ao3Row
  {
    Ao3Row(rec.hits, rec.kudos, rec.comments, rec.bookmarks, rec.ref)
  }

  /** The line one field of a comparison records, if the field moved. */
  function Ao3Entry(o: Ao3Row, cur: Ao3Rec, f: Ao3Column): seq<Entry>
  {
    var was, now := Ao3Field(o, f), Ao3Field(Ao3RowOf(cur), f);
    OnChange(was, now, Entry(cur.title, TitleLine(cur.title, "", Ao3Name(f), was, now)))
  }

  /** The lines a comparison of `fields` records, in order. */
  function Ao3Entries(o: Ao3Row, cur: Ao3Rec, fields: seq<Ao3Column>): seq<Entry>
  {
    if fields == [] then []
    else Ao3Entries(o, cur, fields[..|fields| - 1]) + Ao3Entry(o, cur, fields[|fields| - 1])
  }

  /** The fields of `fields` whose stored value differs from the scraped one, in order. */
  function Moved(o: Ao3Row, cur: Ao3Rec, fields: seq<Ao3Column>): seq<Ao3Column>
  {
    if fields == [] then []
    else
      var f := fields[|fields| - 1];
      Moved(o, cur, fields[..|fields| - 1]) + (if Ao3Field(o, f) != Ao3Field(Ao3RowOf(cur), f) then [f] else [])
  }

  /** The row once each moved field of `fields` is set from the scraped record. */
  function Ao3Written(o: Ao3Row, cur: Ao3Rec, fields: seq<Ao3Column>): Ao3Row
  {
    if fields == [] then o
    else
      var f := fields[|fields| - 1];
      var w := Ao3Written(o, cur, fields[..|fields| - 1]);
      if Ao3Field(o, f) != Ao3Field(Ao3RowOf(cur), f) then WithAo3Field(w, f, Ao3Field(Ao3RowOf(cur), f)) else w
  }

  /** A field reads as scraped once compared, and as stored before; either way, as scraped when it did not move. */
  lemma {:induction false} Ao3WrittenField(o: Ao3Row, cur: Ao3Rec, fields: seq<Ao3Column>, f: Ao3Column)
    ensures Ao3Field(Ao3Written(o, cur, fields), f) == if f in fields then Ao3Field(Ao3RowOf(cur), f) else Ao3Field(o, f)
  {
    if fields != [] {
      var front := fields[..|fields| - 1];
      Ao3WrittenField(o, cur, front, f);
      assert fields == front + [fields[|fields| - 1]];
    }
  }

  /** The changed list holds exactly the compared fields that moved. */
  lemma {:induction false} MovedMeaning(o: Ao3Row, cur: Ao3Rec, fields: seq<Ao3Column>, f: Ao3Column)
    ensures f in Moved(o, cur, fields) <==> f in fields && Ao3Field(o, f) != Ao3Field(Ao3RowOf(cur), f)
  {
    if fields != [] {
      var front, g := fields[..|fields| - 1], fields[|fields| - 1];
      MovedMeaning(o, cur, front, f);
      assert fields == front + [g];
    }
  }

  /** A comparison records one line per moved field. */
  lemma {:induction false} MovedCount(o: Ao3Row, cur: Ao3Rec, fields: seq<Ao3Column>)
    ensures |Ao3Entries(o, cur, fields)| == |Moved(o, cur, fields)|
  {
    if fields != [] {
      var front, g := fields[..|fields| - 1], fields[|fields| - 1];
      MovedCount(o, cur, front);
      assert |Ao3Entry(o, cur, g)| == if Ao3Field(o, g) != Ao3Field(Ao3RowOf(cur), g) then 1 else 0;
    }
  }

  /** A row is determined by its five fields. */
  lemma Ao3RowFields(a: Ao3Row, b: Ao3Row)
    requires forall f :: f in Ao3Tests ==> Ao3Field(a, f) == Ao3Field(b, f)
    ensures a == b
  {
    assert Ao3Field(a, Hits) == Ao3Field(b, Hits);
    assert Ao3Field(a, Kudos) == Ao3Field(b, Kudos);
    assert Ao3Field(a, Comments) == Ao3Field(b, Comments);
    assert Ao3Field(a, Bookmarks) == Ao3Field(b, Bookmarks);
    assert Ao3Field(a, WorkRef) == Ao3Field(b, WorkRef);
  }

  /**
   * After the whole comparison the row holds the scraped counters, and
   * nothing changed exactly when the stored row already held them.
   */
  lemma Ao3All(o: Ao3Row, cur: Ao3Rec)
    ensures Ao3Written(o, cur, Ao3Tests) == Ao3RowOf(cur)
    ensures Moved(o, cur, Ao3Tests) == [] <==> o == Ao3RowOf(cur)
  {
    forall f | f in Ao3Tests
      ensures Ao3Field(Ao3Written(o, cur, Ao3Tests), f) == Ao3Field(Ao3RowOf(cur), f)
    {
      Ao3WrittenField(o, cur, Ao3Tests, f);
    }
    Ao3RowFields(Ao3Written(o, cur, Ao3Tests), Ao3RowOf(cur));
    if Moved(o, cur, Ao3Tests) == [] {
      forall f | f in Ao3Tests
        ensures Ao3Field(o, f) == Ao3Field(Ao3RowOf(cur), f)
      {
        MovedMeaning(o, cur, Ao3Tests, f);
      }
      Ao3RowFields(o, Ao3RowOf(cur));
    } else if o == Ao3RowOf(cur) {
      var f := Moved(o, cur, Ao3Tests)[0];
      MovedMeaning(o, cur, Ao3Tests, f);
    }
  }

  /** Field `i` of the loop: still as stored before it is compared, and one step more of each closed form afterwards. */
  lemma Ao3Step(o: Ao3Row, cur: Ao3Rec, i: nat)
    requires i < |Ao3Tests|
    ensures var f, w := Ao3Tests[i], Ao3Written(o, cur, Ao3Tests[..i]);
      && Ao3Field(w, f) == Ao3Field(o, f)
      && Ao3Written(o, cur, Ao3Tests[..i + 1])
           == (if Ao3Field(o, f) != Ao3Field(Ao3RowOf(cur), f) then WithAo3Field(w, f, Ao3Field(Ao3RowOf(cur), f)) else w)
      && Moved(o, cur, Ao3Tests[..i + 1])
           == Moved(o, cur, Ao3Tests[..i]) + (if Ao3Field(o, f) != Ao3Field(Ao3RowOf(cur), f) then [f] else [])
      && Ao3Entries(o, cur, Ao3Tests[..i + 1]) == Ao3Entries(o, cur, Ao3Tests[..i]) + Ao3Entry(o, cur, f)
  {
    assert Ao3Tests[..i + 1][..i] == Ao3Tests[..i];
    Ao3WrittenField(o, cur, Ao3Tests[..i], Ao3Tests[i]);
  }

  /**
   * `compare_ao3_rec` on the work's row (the row stored under the
   * record's title): each field compared in turn, reported and set when it
   * moved; the moved fields returned in the order compared.
   */
  method CompareAo3Rec(db: ReadMeDb, current: Ao3Rec, reportGen: ReportGen) returns (changed: seq<Ao3Column>)
    requires current.title in db.session.ao3
    modifies db`session, reportGen`report
    ensures changed == Moved(old(db.session).ao3[current.title], current, Ao3Tests)
    ensures db.session == old(db.session).(ao3 := old(db.session).ao3[current.title := Ao3RowOf(current)])
    ensures reportGen.report == RecordAll(old(reportGen.report), Ao3Entries(old(db.session).ao3[current.title], current, Ao3Tests))
  {
    ghost var r0 := reportGen.report;
    var o := db.session.ao3[current.title];
    var row := o;
    changed := [];
    for i := 0 to |Ao3Tests|
      invariant changed == Moved(o, current, Ao3Tests[..i])
      invariant row == Ao3Written(o, current, Ao3Tests[..i])
      invariant db.session == old(db.session)
      invariant reportGen.report == RecordAll(r0, Ao3Entries(o, current, Ao3Tests[..i]))
    {
      row, changed := CompareAo3Field(current, o, i, row, changed, reportGen, r0);
    }
    assert Ao3Tests[..|Ao3Tests|] == Ao3Tests;
    Ao3All(o, current);
    db.SetAo3(current.title, row);
  }

  /** One turn of `compare_ao3_rec`: field `Ao3Tests[i]` compared, and when it moved, reported, set and listed. */
  method CompareAo3Field(current: Ao3Rec, o: Ao3Row, i: nat, row: Ao3Row, changed: seq<Ao3Column>,
                         reportGen: ReportGen, ghost r0: map<string, seq<string>>)
    returns (row': Ao3Row, changed': seq<Ao3Column>)
    requires i < |Ao3Tests|
    requires changed == Moved(o, current, Ao3Tests[..i])
    requires row == Ao3Written(o, current, Ao3Tests[..i])
    requires reportGen.report == RecordAll(r0, Ao3Entries(o, current, Ao3Tests[..i]))
    modifies reportGen`report
    ensures changed' == Moved(o, current, Ao3Tests[..i + 1])
    ensures row' == Ao3Written(o, current, Ao3Tests[..i + 1])
    ensures reportGen.report == RecordAll(r0, Ao3Entries(o, current, Ao3Tests[..i + 1]))
  {
    var f := Ao3Tests[i];
    Ao3Step(o, current, i);
    var now := Ao3Field(Ao3RowOf(current), f);
    var c := reportGen.CompareAndPrint(current.title, Ao3Name(f), now, Some(Ao3Field(row, f)), "");
    RecordAllAppend(r0, Ao3Entries(o, current, Ao3Tests[..i]), Ao3Entry(o, current, f));
    row', changed' := row, changed;
    if c > 0 {
      row' := WithAo3Field(row, f, now);
      changed' := changed + [f];
    }
  }

  // ---------------------------------------------------------------------
  // The reader's run

  /** The requests for the numbered pages, in order. */
  function PageRequests(keys: seq<int>): (r: seq<Option<int>>)
    ensures |r| == |keys| && forall i :: 0 <= i < |keys| ==> r[i] == Some(keys[i])
  {
    seq(|keys|, i requires 0 <= i < |keys| => Some(keys[i]))
  }

  lemma PageRequestsSnoc(keys: seq<int>, i: nat)
    requires i < |keys|
    ensures keys[..i + 1][..i] == keys[..i]
    ensures PageRequests(keys[..i + 1]) == PageRequests(keys[..i]) + [Some(keys[i])]
  {
    assert keys[..i + 1][..i] == keys[..i];
  }

  /** The records of the first page and then of each numbered page in turn; the first failure stops the read. */
  function Collected(num: NumReader, serve: Option<int> -> Result<WorksPage>, first: WorksPage, keys: seq<int>): Result<seq<Ao3Rec>>
  {
    if keys == [] then PageRecs(num, first)
    else
      match Collected(num, serve, first, keys[..|keys| - 1])
      case Err(e) => Err(e)
      case Ok(rs) =>
        match serve(Some(keys[|keys| - 1]))
        case Err(e) => Err(e)
        case Ok(p) =>
          match PageRecs(num, p)
          case Err(e) => Err(e)
          case Ok(more) => Ok(rs + more)
  }

  /** Everything the reader scrapes: the first page, then the pages its pagination numbers. */
  function Scraped(num: NumReader, serve: Option<int> -> Result<WorksPage>): Result<seq<Ao3Rec>>
  {
    match serve(None)
    case Err(e) => Err(e)
    case Ok(first) => Collected(num, serve, first, LeadingInts(num, first.navLabels))
  }

  /** The reading half of the driver: every works page fetched and parsed onto one list. */
  method ReadWorks(num: NumReader, getter: WorksGetter) returns (r: Result<seq<Ao3Rec>>)
    modifies getter`log
    ensures r == Scraped(num, getter.serve)
    ensures r.Ok? ==>
      getter.log == old(getter.log) + [None] + PageRequests(LeadingInts(num, getter.serve(None).value.navLabels))
  {
    var first := getter.GetPage(None);
    if first.Err? {
      return Err(first.fault);
    }
    var keys := PageKeys(num, first.value.navLabels);
    var recs := ParseTree(num, first.value, []);
    assert keys[..0] == [];
    if recs.Err? {
      WorksPrefixErr(num, getter.serve, first.value, keys, 0);
      return Err(recs.fault);
    }
    ghost var log1 := getter.log;
    var all := recs.value;
    assert all == PageRecs(num, first.value).value;
    for i := 0 to |keys|
      invariant Collected(num, getter.serve, first.value, keys[..i]) == Ok(all)
      invariant getter.log == log1 + PageRequests(keys[..i])
    {
      var next := ReadPage(num, getter, first.value, keys, i, all, log1);
      if next.Err? {
        return next;
      }
      all := next.value;
    }
    assert keys[..|keys|] == keys;
    r := Ok(all);
  }

  /** One turn of `ReadWorks`: the next numbered page fetched and its records appended. */
  method ReadPage(num: NumReader, getter: WorksGetter, first: WorksPage, keys: seq<int>, i: nat, all: seq<Ao3Rec>,
                  ghost log1: seq<Option<int>>) returns (r: Result<seq<Ao3Rec>>)
    requires i < |keys|
    requires Collected(num, getter.serve, first, keys[..i]) == Ok(all)
    requires getter.log == log1 + PageRequests(keys[..i])
    modifies getter`log
    ensures getter.log == log1 + PageRequests(keys[..i + 1])
    ensures r.Ok? ==> Collected(num, getter.serve, first, keys[..i + 1]) == r
    ensures r.Err? ==> Collected(num, getter.serve, first, keys) == r
  {
    PageRequestsSnoc(keys, i);
    var page := getter.GetPage(Some(keys[i]));
    if page.Err? {
      WorksPrefixErr(num, getter.serve, first, keys, i + 1);
      return Err(page.fault);
    }
    r := ParseTree(num, page.value, all);
    if r.Err? {
      WorksPrefixErr(num, getter.serve, first, keys, i + 1);
    }
  }

  /** Once the pages up to some point have failed, the whole read fails with the same fault. */
  lemma {:induction false} WorksPrefixErr(num: NumReader, serve: Option<int> -> Result<WorksPage>, first: WorksPage, keys: seq<int>, n: nat)
    requires n <= |keys| && Collected(num, serve, first, keys[..n]).Err?
    ensures Collected(num, serve, first, keys) == Collected(num, serve, first, keys[..n])
    decreases |keys| - n
  {
    if n < |keys| {
      assert keys[..n + 1][..n] == keys[..n];
      WorksPrefixErr(num, serve, first, keys, n + 1);
    } else {
      assert keys[..n] == keys;
    }
  }

  /** The Ao3Stories table once each record is taken in order: every record's title holds its counters. */
  function Ao3Stored(ao3: map<string, Ao3Row>, recs: seq<Ao3Rec>): map<string, Ao3Row>
  {
    if recs == [] then ao3
    else
      var rec := recs[|recs| - 1];
      Ao3Stored(ao3, recs[..|recs| - 1])[rec.title := Ao3RowOf(rec)]
  }

  /** The lines of taking the records in order: each compared with its row as the earlier records left it. */
  function Ao3Report(ao3: map<string, Ao3Row>, recs: seq<Ao3Rec>): seq<Entry>
  {
    if recs == [] then []
    else
      var front, rec := recs[..|recs| - 1], recs[|recs| - 1];
      Ao3Report(ao3, front) + Ao3Entries(Get(Ao3Stored(ao3, front), rec.title, EmptyAo3), rec, Ao3Tests)
  }

  /** A work's row after the run is the counters of the last record with its title. */
  lemma {:induction false} Ao3StoredLast(ao3: map<string, Ao3Row>, recs: seq<Ao3Rec>, i: nat)
    requires i < |recs| && forall j :: i < j < |recs| ==> recs[j].title != recs[i].title
    ensures recs[i].title in Ao3Stored(ao3, recs) && Ao3Stored(ao3, recs)[recs[i].title] == Ao3RowOf(recs[i])
  {
    var front := recs[..|recs| - 1];
    if i < |recs| - 1 {
      assert front[i] == recs[i];
      Ao3StoredLast(ao3, front, i);
    }
  }

  /** A title no record has keeps its row, or stays absent. */
  lemma {:induction false} Ao3StoredOther(ao3: map<string, Ao3Row>, recs: seq<Ao3Rec>, t: string)
    requires forall i :: 0 <= i < |recs| ==> recs[i].title != t
    ensures t in Ao3Stored(ao3, recs) <==> t in ao3
    ensures t in ao3 ==> Ao3Stored(ao3, recs)[t] == ao3[t]
  {
    if recs != [] {
      var front := recs[..|recs| - 1];
      assert recs[|recs| - 1].title != t;
      forall i | 0 <= i < |front| ensures front[i].title != t { assert front[i] == recs[i]; }
      Ao3StoredOther(ao3, front, t);
    }
  }

  /** One more record taken: one more step of each closed form. */
  lemma Ao3Snoc(ao3: map<string, Ao3Row>, recs: seq<Ao3Rec>, i: nat)
    requires i < |recs|
    ensures var rec := recs[i];
      && Ao3Stored(ao3, recs[..i + 1]) == Ao3Stored(ao3, recs[..i])[rec.title := Ao3RowOf(rec)]
      && Ao3Report(ao3, recs[..i + 1])
           == Ao3Report(ao3, recs[..i]) + Ao3Entries(Get(Ao3Stored(ao3, recs[..i]), rec.title, EmptyAo3), rec, Ao3Tests)
  {
    assert recs[..i + 1][..i] == recs[..i];
  }

  /** The driver's loop over the records: each work's row got or made, then compared. */
  method StoreWorks(recs: seq<Ao3Rec>, db: ReadMeDb, reportGen: ReportGen)
    modifies db`session, reportGen`report
    ensures db.session == old(db.session).(ao3 := Ao3Stored(old(db.session).ao3, recs))
    ensures reportGen.report == RecordAll(old(reportGen.report), Ao3Report(old(db.session).ao3, recs))
  {
    ghost var t0, r0 := db.session, reportGen.report;
    assert recs[..0] == [];
    for i := 0 to |recs|
      invariant db.session == t0.(ao3 := Ao3Stored(t0.ao3, recs[..i]))
      invariant reportGen.report == RecordAll(r0, Ao3Report(t0.ao3, recs[..i]))
    {
      StoreNext(recs, i, db, reportGen, t0, r0);
    }
    assert recs[..|recs|] == recs;
  }

  /** One turn of `StoreWorks`. */
  method StoreNext(recs: seq<Ao3Rec>, i: nat, db: ReadMeDb, reportGen: ReportGen, ghost t0: Tables,
                   ghost r0: map<string, seq<string>>)
    requires i < |recs|
    requires db.session == t0.(ao3 := Ao3Stored(t0.ao3, recs[..i]))
    requires reportGen.report == RecordAll(r0, Ao3Report(t0.ao3, recs[..i]))
    modifies db`session, reportGen`report
    ensures db.session == t0.(ao3 := Ao3Stored(t0.ao3, recs[..i + 1]))
    ensures reportGen.report == RecordAll(r0, Ao3Report(t0.ao3, recs[..i + 1]))
  {
    var rec := recs[i];
    ghost var before := Ao3Stored(t0.ao3, recs[..i]);
    var story := db.GetOrCreateAo3Story(rec.title);
    var changed := CompareAo3Rec(db, rec, reportGen);
    CreatedThenSet(before, rec.title, Ao3RowOf(rec));
    Ao3Snoc(t0.ao3, recs, i);
    RecordAllAppend(r0, Ao3Report(t0.ao3, recs[..i]), Ao3Entries(Get(before, rec.title, EmptyAo3), rec, Ao3Tests));
  }

  /** A row got or made and then overwritten: as if written directly, compared against the old row or a blank one. */
  lemma CreatedThenSet(ao3: map<string, Ao3Row>, title: string, row: Ao3Row)
    ensures WithDefault(ao3, title, EmptyAo3)[title] == Get(ao3, title, EmptyAo3)
    ensures WithDefault(ao3, title, EmptyAo3)[title := row] == ao3[title := row]
  {
  }

  /**
   * The work of the reader's driver: every works page read, then each
   * record taken in page order. A failed fetch or a number that does not
   * parse ends the run before any row is touched.
   */
  method Ao3Update(getter: WorksGetter, db: ReadMeDb, reportGen: ReportGen) returns (fault: Option<Fault>)
    modifies getter`log, db`session, reportGen`report
    ensures fault.Some? <==> Scraped(PyInt, getter.serve).Err?
    ensures fault.Some? ==> (fault.value == Scraped(PyInt, getter.serve).fault
      && db.session == old(db.session) && reportGen.report == old(reportGen.report))
    ensures fault.None? ==>
      var recs := Scraped(PyInt, getter.serve).value;
      && db.session == old(db.session).(ao3 := Ao3Stored(old(db.session).ao3, recs))
      && reportGen.report == RecordAll(old(reportGen.report), Ao3Report(old(db.session).ao3, recs))
  {
    var recs := ReadWorks(PyInt, getter);
    if recs.Err? {
      return Some(recs.fault);
    }
    StoreWorks(recs.value, db, reportGen);
    fault := None;
  }

  /**
   * A second run against the same pages, when no two works share a title,
   * reports nothing and leaves the table as the first run left it.
   */
  lemma {:induction false} Ao3RunQuiet(ao3: map<string, Ao3Row>, recs: seq<Ao3Rec>)
    requires forall i, j :: 0 <= i < j < |recs| ==> recs[i].title != recs[j].title
    ensures Ao3Report(Ao3Stored(ao3, recs), recs) == []
    ensures Ao3Stored(Ao3Stored(ao3, recs), recs) == Ao3Stored(ao3, recs)
  {
    var s := Ao3Stored(ao3, recs);
    assert recs[..|recs|] == recs;
    assert recs[..0] == [];
    for k := 0 to |recs|
      invariant Ao3Report(s, recs[..k]) == [] && Ao3Stored(s, recs[..k]) == s
    {
      Ao3QuietStep(ao3, recs, k);
    }
  }

  /** One record of the second run: its row already holds its counters, so it is rewritten unchanged and reports nothing. */
  lemma Ao3QuietStep(ao3: map<string, Ao3Row>, recs: seq<Ao3Rec>, k: nat)
    requires k < |recs| && forall i, j :: 0 <= i < j < |recs| ==> recs[i].title != recs[j].title
    requires var s := Ao3Stored(ao3, recs); Ao3Report(s, recs[..k]) == [] && Ao3Stored(s, recs[..k]) == s
    ensures var s := Ao3Stored(ao3, recs); Ao3Report(s, recs[..k + 1]) == [] && Ao3Stored(s, recs[..k + 1]) == s
  {
    var s := Ao3Stored(ao3, recs);
    var rec := recs[k];
    Ao3Snoc(s, recs, k);
    Ao3StoredLast(ao3, recs, k);
    assert Get(s, rec.title, EmptyAo3) == Ao3RowOf(rec);
    Ao3EntriesQuiet(Ao3RowOf(rec), rec, Ao3Tests);
  }

  /** Comparing a row with the counters it already holds records nothing. */
  lemma {:induction false} Ao3EntriesQuiet(o: Ao3Row, cur: Ao3Rec, fields: seq<Ao3Column>)
    requires o == Ao3RowOf(cur)
    ensures Ao3Entries(o, cur, fields) == []
  {
    if fields != [] {
      Ao3EntriesQuiet(o, cur, fields[..|fields| - 1]);
    }
  }
}
