/**
 * The page parsers of the scraper, after the XPath selection: ids out of
 * link targets, table rows split into columns, the month caption and menu,
 * and the visitor charts. Every parser keeps the nodes its `set_tree`
 * selected and builds its records from them; each getter is specified by
 * a function of those nodes, and the functions carry the properties.
 */
module Extract {
  import opened Base
  import opened Text
  import opened Records
  import opened Site
  import opened Pattern

  // ---------------------------------------------------------------------
  // Ids in link targets

  /** `<lit>([0-9]+)<tail>`, the shape of every id pattern. */
  function IdPattern(lit: string, tail: string): seq<Tok>
  {
    [Lit(lit), Digits] + (if tail == [] then [] else [Lit(tail)])
  }

  lemma IdPatternGroups(lit: string, tail: string)
    ensures Groups(IdPattern(lit, tail)) == [Digits]
  {
    var p := IdPattern(lit, tail);
    var rest := p[1..][1..];
    assert rest == (if tail == [] then [] else [Lit(tail)]);
    if tail != [] {
      assert rest[1..] == [];
      assert Groups(rest) == Groups(rest[1..]);
    }
    assert Groups(rest) == [];
    assert Groups(p[1..]) == [Digits] + Groups(rest);
    assert Groups(p) == Groups(p[1..]);
  }

  /** `ref_from_href`: the number the id pattern captures, 0 when it does not occur. */
  function RefBy(lit: string, tail: string, href: string): nat
  {
    match Search(IdPattern(lit, tail), href)
    case None => 0
    case Some(gs) => IdPatternGroups(lit, tail); DigitsValue(gs[0])
  }

  /** `storyid=([0-9]+)` */
  function StoryRef(href: string): nat
  {
    RefBy("storyid=", "", href)
  }

  /** `storytextid=([0-9]+)` */
  function ChapterRef(href: string): nat
  {
    RefBy("storytextid=", "", href)
  }

  /** `/u/([0-9]+)/` */
  function UserRef(href: string): nat
  {
    RefBy("/u/", "/", href)
  }

  /**
   * The id written after the first occurrence of the literal is the one
   * read back: `pre` holds no occurrence of the literal, and the digits end
   * where the tail starts.
   */
  lemma RefRoundTrip(lit: string, tail: string, pre: string, n: nat, post: string)
    requires lit != []
    requires !IsSubstring(lit, pre + lit[..|lit| - 1])
    requires tail + post == [] || !IsDigit((tail + post)[0])
    ensures RefBy(lit, tail, pre + lit + NatStr(n) + tail + post) == n
  {
    var p := IdPattern(lit, tail);
    var d := NatStr(n);
    var s := pre + lit + d + tail + post;
    var head := pre + lit[..|lit| - 1];
    assert s[..|head|] == head;
    forall j | 0 <= j < |pre|
      ensures Match(p, s[j..]).None?
    {
      assert !OccursAt(lit, head, j);
      LitNotAt(lit, head, s, j);
    }
    assert s[|pre|..] == lit + (d + (tail + post));
    MatchLit(p, lit, d + (tail + post));
    assert p[1..][0] == Digits;
    MatchGroup(p[1..], d, tail + post);
    var rest := p[1..][1..];
    if tail == [] {
      assert rest == [];
    } else {
      assert rest == [Lit(tail)];
      MatchLit(rest, tail, post);
    }
    SearchFinds(p, s, |pre|);
  }

  /** With no occurrence of the literal, the id is 0. */
  lemma RefAbsent(lit: string, tail: string, href: string)
    requires !IsSubstring(lit, href)
    ensures RefBy(lit, tail, href) == 0
  {
    var p := IdPattern(lit, tail);
    forall j | 0 <= j <= |href|
      ensures Match(p, href[j..]).None?
    {
      if j + |lit| <= |href| {
        assert !OccursAt(lit, href, j);
        LitNotAt(lit, href, href, j);
      }
    }
    SearchMisses(p, href);
  }

  /** A literal that does not occur in `head` at `j` does not start the text from `j` on. */
  lemma LitNotAt(lit: string, head: string, s: string, j: nat)
    requires |head| <= |s| && s[..|head|] == head
    requires j + |lit| <= |head| && !OccursAt(lit, head, j)
    ensures !(lit <= s[j..])
  {
    assert s[j..][..|lit|] == head[j..j + |lit|];
  }

  lemma StoryRefRoundTrip(pre: string, n: nat, post: string)
    requires !IsSubstring("storyid=", pre + "storyid")
    requires post == [] || !IsDigit(post[0])
    ensures StoryRef(pre + "storyid=" + NatStr(n) + post) == n
  {
    assert "storyid="[..7] == "storyid";
    assert pre + "storyid=" + NatStr(n) + post == pre + "storyid=" + NatStr(n) + "" + post;
    RefRoundTrip("storyid=", "", pre, n, post);
  }

  lemma ChapterRefRoundTrip(pre: string, n: nat, post: string)
    requires !IsSubstring("storytextid=", pre + "storytextid")
    requires post == [] || !IsDigit(post[0])
    ensures ChapterRef(pre + "storytextid=" + NatStr(n) + post) == n
  {
    assert "storytextid="[..11] == "storytextid";
    assert pre + "storytextid=" + NatStr(n) + post == pre + "storytextid=" + NatStr(n) + "" + post;
    RefRoundTrip("storytextid=", "", pre, n, post);
  }

  lemma UserRefRoundTrip(pre: string, n: nat, post: string)
    requires !IsSubstring("/u/", pre + "/u")
    ensures UserRef(pre + "/u/" + NatStr(n) + "/" + post) == n
  {
    assert "/u/"[..2] == "/u";
    assert ("/" + post)[0] == '/';
    RefRoundTrip("/u/", "/", pre, n, post);
  }

  // ---------------------------------------------------------------------
  // Columns

  /** `cols[k]`, or the IndexError a short row raises. */
  function Col(cols: seq<string>, k: nat): (r: Result<string>)
    ensures r.Ok? <==> k < |cols|
    ensures r.Ok? ==> r.value == cols[k]
    ensures r.Err? ==> r.fault == MissingColumn
  {
    if k < |cols| then Ok(cols[k]) else Err(MissingColumn)
  }

  /**
   * Columns `lo` to `hi - 1` all exist and all read as numbers under `num`
   * (the parsers use `uncomma`; the column logic does not depend on it).
   */
  predicate ReadableBy(num: string -> Result<int>, cols: seq<string>, lo: nat, hi: nat)
  {
    (lo < hi ==> hi <= |cols|) && forall k :: lo <= k < hi && k < |cols| ==> num(cols[k]).Ok?
  }

  /** `num(cols[lo])`, …, `num(cols[hi - 1])` evaluated in order; a missing column or the first failure stops. */
  function NumColsBy(num: string -> Result<int>, cols: seq<string>, lo: nat, hi: nat): (r: Result<seq<int>>)
    requires lo <= hi
    ensures r.Ok? <==> ReadableBy(num, cols, lo, hi)
    ensures r.Ok? ==> |r.value| == hi - lo && forall k :: 0 <= k < hi - lo ==> num(cols[lo + k]) == Ok(r.value[k])
    ensures r.Err? && hi <= |cols| ==> exists k :: lo <= k < hi && num(cols[k]) == Err(r.fault)
    decreases hi - lo
  {
    if lo == hi then Ok([])
    else if lo >= |cols| then Err(MissingColumn)
    else
      match num(cols[lo])
      case Err(e) => Err(e)
      case Ok(v) =>
        match NumColsBy(num, cols, lo + 1, hi)
        case Err(e) => Err(e)
        case Ok(vs) =>
          ConsShift(v, vs);
          Ok([v] + vs)
  }

  lemma ConsShift<T>(v: T, vs: seq<T>)
    ensures forall k :: 0 < k <= |vs| ==> ([v] + vs)[k] == vs[k - 1]
  {
  }

  /** `uncomma(cols[lo])`, …, `uncomma(cols[hi - 1])`: the counts of a row, in column order. */
  function NumCols(cols: seq<string>, lo: nat, hi: nat): Result<seq<int>>
    requires lo <= hi
  {
    NumColsBy(Uncomma, cols, lo, hi)
  }

  /** Text printed in a table cell has no newline and no surrounding whitespace. */
  predicate CellText(t: string)
  {
    '\n' !in t && (t != [] ==> !IsSpace(t[0]) && !IsSpace(t[|t| - 1]))
  }

  lemma GroupedNoNewline(n: nat)
    ensures '\n' !in Grouped(n)
  {
    GroupedChars(n);
  }

  function GroupedAll(ns: seq<nat>): (r: seq<string>)
    ensures |r| == |ns| && forall k :: 0 <= k < |ns| ==> r[k] == Grouped(ns[k])
  {
    if ns == [] then [] else [Grouped(ns[0])] + GroupedAll(ns[1..])
  }

  /** Numbers printed with thousands separators read back from their columns. */
  lemma NumColsGrouped(cols: seq<string>, before: seq<string>, ns: seq<nat>, after: seq<string>)
    requires cols == before + GroupedAll(ns) + after
    ensures NumCols(cols, |before|, |before| + |ns|) == Ok(ns)
  {
    var g := GroupedAll(ns);
    UncommaGroupedAll(ns, g);
    NumColsAt(Uncomma, cols, before, g, after, ns);
  }

  lemma UncommaGroupedAll(ns: seq<nat>, g: seq<string>)
    requires g == GroupedAll(ns)
    ensures forall k :: 0 <= k < |g| ==> Uncomma(g[k]) == Ok(ns[k])
  {
    forall k | 0 <= k < |g| ensures Uncomma(g[k]) == Ok(ns[k]) {
      UncommaGrouped(ns[k]);
    }
  }

  /** Columns that all read as numbers give exactly those numbers. */
  lemma NumColsAt(num: string -> Result<int>, cols: seq<string>, before: seq<string>, texts: seq<string>,
                  after: seq<string>, ns: seq<int>)
    requires cols == before + texts + after && |texts| == |ns|
    requires forall k :: 0 <= k < |texts| ==> num(texts[k]) == Ok(ns[k])
    ensures NumColsBy(num, cols, |before|, |before| + |ns|) == Ok(ns)
  {
    var lo := |before|;
    var r := NumColsBy(num, cols, lo, lo + |ns|);
    forall k | lo <= k < lo + |ns| ensures num(cols[k]) == Ok(ns[k - lo]) {
      assert cols[k] == texts[k - lo];
    }
    assert r.Ok?;
    forall i | 0 <= i < |ns| ensures r.value[i] == ns[i] {
      assert num(cols[lo + i]) == Ok(r.value[i]);
      assert cols[lo + i] == texts[i];
    }
    assert r.value == ns;
  }

  /** Texts that fit on one line each. */
  predicate Lines(xs: seq<string>)
  {
    forall k :: 0 <= k < |xs| ==> '\n' !in xs[k]
  }

  lemma LinesConcat(a: seq<string>, b: seq<string>)
    requires Lines(a) && Lines(b)
    ensures Lines(a + b)
  {
    forall k | 0 <= k < |a + b| ensures '\n' !in (a + b)[k] {
      if k >= |a| {
        assert (a + b)[k] == b[k - |a|];
      }
    }
  }

  lemma LinesGrouped(ns: seq<nat>)
    ensures Lines(GroupedAll(ns))
  {
    forall k | 0 <= k < |ns| ensures '\n' !in GroupedAll(ns)[k] {
      GroupedNoNewline(ns[k]);
    }
  }

  // ---------------------------------------------------------------------
  // Monthly story rows (table gui_table2i of the story-eyes page)

  /** One row of the monthly story table, and the link beside it. */
  function StoryRowOf(text: string, href: string): Result<MonthlyStoryRec>
  {
    var cols := Split(text, '\n');
    var sref := StoryRef(href);
    match Col(cols, 1)
    case Err(e) => Err(e)
    case Ok(title) =>
      match NumCols(cols, 2, 5)
      case Err(e) => Err(e)
      case Ok(ns) => Ok(MonthlyStoryRec(sref, Strip(title), ns[0], ns[1], ns[2]))
  }

  function StoryRowOfPair(x: (string, string)): Result<MonthlyStoryRec>
  {
    StoryRowOf(x.0, x.1)
  }

  /** The row text the site prints for a story, the fields on lines of their own. */
  function StoryRowText(lead: string, title: string, words: nat, views: nat, visitors: nat, trail: seq<string>): string
  {
    Join([lead, title] + GroupedAll([words, views, visitors]) + trail, '\n')
  }

  lemma {:induction false} StoryRowRoundTrip(lead: string, title: string, words: nat, views: nat, visitors: nat,
                                            trail: seq<string>, pre: string, ref: nat)
    requires '\n' !in lead && CellText(title) && Lines(trail)
    requires !IsSubstring("storyid=", pre + "storyid")
    ensures StoryRowOf(StoryRowText(lead, title, words, views, visitors, trail), pre + "storyid=" + NatStr(ref))
         == Ok(MonthlyStoryRec(ref, title, words, views, visitors))
  {
    var ns := [words, views, visitors];
    var text := StoryRowText(lead, title, words, views, visitors, trail);
    assert Split(text, '\n') == [lead, title] + GroupedAll(ns) + trail by {
      LinesGrouped(ns);
      LinesConcat([lead, title], GroupedAll(ns));
      LinesConcat([lead, title] + GroupedAll(ns), trail);
      JoinSplit([lead, title] + GroupedAll(ns) + trail, '\n');
    }
    var href := pre + "storyid=" + NatStr(ref);
    assert StoryRef(href) == ref by {
      StoryRefRoundTrip(pre, ref, "");
      assert href + "" == href;
    }
    StoryRowRead(text, href, lead, title, ns, trail);
  }

  lemma StoryRowRead(text: string, href: string, lead: string, title: string, ns: seq<nat>, trail: seq<string>)
    requires Split(text, '\n') == [lead, title] + GroupedAll(ns) + trail && |ns| == 3 && CellText(title)
    ensures StoryRowOf(text, href) == Ok(MonthlyStoryRec(StoryRef(href), title, ns[0], ns[1], ns[2]))
  {
    var cols := [lead, title] + GroupedAll(ns) + trail;
    NumColsGrouped(cols, [lead, title], ns, trail);
    StripKeeps(title);
    StoryRowOfCols(text, href, cols, title, ns);
  }

  lemma StoryRowOfCols(text: string, href: string, cols: seq<string>, title: string, ns: seq<int>)
    requires Split(text, '\n') == cols && |cols| >= 2 && cols[1] == title && Strip(title) == title
    requires NumCols(cols, 2, 5) == Ok(ns)
    ensures StoryRowOf(text, href) == Ok(MonthlyStoryRec(StoryRef(href), title, ns[0], ns[1], ns[2]))
  {
    assert Col(cols, 1) == Ok(title);
  }

  /**
   * `MonthStoryRowsParser.get_rows`: `None` (the parser's False) when the
   * rows and the links are not equally many, otherwise one record per row.
   */
  function StoryRows(rows: seq<string>, links: seq<string>): (r: Result<Option<seq<MonthlyStoryRec>>>)
    ensures r == Ok(None) <==> |rows| != |links|
    ensures r.Ok? && r.value.Some? ==>
      |r.value.value| == |rows| && forall i :: 0 <= i < |rows| ==> StoryRowOf(rows[i], links[i]) == Ok(r.value.value[i])
    ensures r.Err? <==> |rows| == |links| && exists i :: 0 <= i < |rows| && StoryRowOf(rows[i], links[i]).Err?
  {
    if |rows| != |links| then Ok(None)
    else
      var z := Zip(rows, links);
      match MapResult(z, StoryRowOfPair)
      case Err(e) =>
        var i :| 0 <= i < |z| && StoryRowOfPair(z[i]) == Err(e);
        assert StoryRowOf(rows[i], links[i]).Err?;
        Err(e)
      case Ok(recs) =>
        assert forall i :: 0 <= i < |rows| ==> StoryRowOfPair(z[i]) == StoryRowOf(rows[i], links[i]);
        Ok(Some(recs))
  }

  // ---------------------------------------------------------------------
  // Monthly chapter rows (table gui_table2i of a story's page)

  function ChapterRowOf(text: string, href: string): Result<MonthlyChapterRec>
  {
    var ref := ChapterRef(href);
    var cols := Split(text, '\n');
    match NumCols(cols, 1, 2)
    case Err(e) => Err(e)
    case Ok(num) =>
      match Col(cols, 2)
      case Err(e) => Err(e)
      case Ok(title) =>
        match NumCols(cols, 3, 6)
        case Err(e) => Err(e)
        case Ok(ns) => Ok(MonthlyChapterRec(ref, num[0], Strip(title), ns[0], ns[1], ns[2]))
  }

  function ChapterRowOfPair(x: (string, string)): Result<MonthlyChapterRec>
  {
    ChapterRowOf(x.0, x.1)
  }

  function ChapterRowText(lead: string, num: nat, title: string, words: nat, views: nat, visitors: nat,
                          trail: seq<string>): string
  {
    Join([lead] + GroupedAll([num]) + ([title] + GroupedAll([words, views, visitors]) + trail), '\n')
  }

  lemma {:induction false} ChapterRowRoundTrip(lead: string, num: nat, title: string, words: nat, views: nat,
                                              visitors: nat, trail: seq<string>, pre: string, chRef: nat)
    requires '\n' !in lead && CellText(title) && Lines(trail)
    requires !IsSubstring("storytextid=", pre + "storytextid")
    ensures ChapterRowOf(ChapterRowText(lead, num, title, words, views, visitors, trail),
                         pre + "storytextid=" + NatStr(chRef))
         == Ok(MonthlyChapterRec(chRef, num, title, words, views, visitors))
  {
    ChapterLines(lead, num, title, words, views, visitors, trail);
    var cols := Split(ChapterRowText(lead, num, title, words, views, visitors, trail), '\n');
    ChapterCols(cols, lead, num, title, words, views, visitors, trail);
    ChapterRefRoundTrip(pre, chRef, "");
    assert pre + "storytextid=" + NatStr(chRef) + "" == pre + "storytextid=" + NatStr(chRef);
    StripKeeps(title);
  }

  /** The columns of a printed chapter row read back as its fields. */
  lemma ChapterCols(cols: seq<string>, lead: string, num: nat, title: string, words: nat, views: nat, visitors: nat,
                    trail: seq<string>)
    requires cols == [lead] + GroupedAll([num]) + ([title] + GroupedAll([words, views, visitors]) + trail)
    ensures NumCols(cols, 1, 2) == Ok([num]) && Col(cols, 2) == Ok(title)
    ensures NumCols(cols, 3, 6) == Ok([words, views, visitors])
  {
    var counts := GroupedAll([words, views, visitors]);
    var g := GroupedAll([num]);
    NumColsGrouped(cols, [lead], [num], [title] + counts + trail);
    Regroup(lead, g[0], title, counts, trail);
    assert g == [g[0]];
    NumColsGrouped(cols, [lead, g[0], title], [words, views, visitors], trail);
  }

  lemma Regroup<T>(a: T, b: T, c: T, d: seq<T>, e: seq<T>)
    ensures [a] + [b] + ([c] + d + e) == [a, b, c] + d + e
    ensures ([a] + [b] + ([c] + d + e))[2] == c
  {
  }

  lemma ChapterLines(lead: string, num: nat, title: string, words: nat, views: nat, visitors: nat, trail: seq<string>)
    requires '\n' !in lead && '\n' !in title && Lines(trail)
    ensures Split(ChapterRowText(lead, num, title, words, views, visitors, trail), '\n')
         == [lead] + GroupedAll([num]) + ([title] + GroupedAll([words, views, visitors]) + trail)
  {
    var counts := GroupedAll([words, views, visitors]);
    var tail := [title] + counts + trail;
    LinesGrouped([num]);
    LinesGrouped([words, views, visitors]);
    LinesConcat([title], counts);
    LinesConcat([title] + counts, trail);
    LinesConcat([lead], GroupedAll([num]));
    LinesConcat([lead] + GroupedAll([num]), tail);
    JoinSplit([lead] + GroupedAll([num]) + tail, '\n');
  }

  /** `MonthChapterRowsParser.get_rows`. */
  function ChapterRows(rows: seq<string>, links: seq<string>): (r: Result<Option<seq<MonthlyChapterRec>>>)
    ensures r == Ok(None) <==> |rows| != |links|
    ensures r.Ok? && r.value.Some? ==>
      |r.value.value| == |rows| && forall i :: 0 <= i < |rows| ==> ChapterRowOf(rows[i], links[i]) == Ok(r.value.value[i])
    ensures r.Err? <==> |rows| == |links| && exists i :: 0 <= i < |rows| && ChapterRowOf(rows[i], links[i]).Err?
  {
    if |rows| != |links| then Ok(None)
    else
      var z := Zip(rows, links);
      match MapResult(z, ChapterRowOfPair)
      case Err(e) =>
        var i :| 0 <= i < |z| && ChapterRowOfPair(z[i]) == Err(e);
        assert ChapterRowOf(rows[i], links[i]).Err?;
        Err(e)
      case Ok(recs) =>
        assert forall i :: 0 <= i < |rows| ==> ChapterRowOfPair(z[i]) == ChapterRowOf(rows[i], links[i]);
        Ok(Some(recs))
  }

  // ---------------------------------------------------------------------
  // Users of a favourites or follows table (table gui_table1i)

  function UserRowOf(text: string, href: string): Result<UserRec>
  {
    var ref := UserRef(href);
    var cols := Split(text, '\n');
    match Col(cols, 1)
    case Err(e) => Err(e)
    case Ok(alias) =>
      match Col(cols, 2)
      case Err(e) => Err(e)
      case Ok(date) => Ok(UserRec(ref, Strip(alias), Strip(date)))
  }


  function UserRowOfPair(x: (string, string)): Result<UserRec>
  {
    UserRowOf(x.0, x.1)
  }

  /** A printed user row reads back as its alias and date, and as the id its link carries. */
  lemma UserRowRoundTrip(lead: string, alias: string, date: string, trail: seq<string>, href: string)
    requires '\n' !in lead && CellText(alias) && CellText(date) && Lines(trail)
    ensures UserRowOf(Join([lead, alias, date] + trail, '\n'), href) == Ok(UserRec(UserRef(href), alias, date))
  {
    UserLines(lead, alias, date, trail);
    UserRowRead(Join([lead, alias, date] + trail, '\n'), href, lead, alias, date, trail);
  }

  lemma UserLines(lead: string, alias: string, date: string, trail: seq<string>)
    requires '\n' !in lead && '\n' !in alias && '\n' !in date && Lines(trail)
    ensures Split(Join([lead, alias, date] + trail, '\n'), '\n') == [lead, alias, date] + trail
  {
    LinesConcat([lead, alias, date], trail);
    JoinSplit([lead, alias, date] + trail, '\n');
  }

  lemma UserRowRead(text: string, href: string, lead: string, alias: string, date: string, trail: seq<string>)
    requires Split(text, '\n') == [lead, alias, date] + trail && CellText(alias) && CellText(date)
    ensures UserRowOf(text, href) == Ok(UserRec(UserRef(href), alias, date))
  {
    UserRowOfCols(text, href, lead, alias, date, trail);
    StripKeeps(alias);
    StripKeeps(date);
  }

  /** A row whose lines are known reads as its second and third lines, stripped. */
  lemma UserRowOfCols(text: string, href: string, lead: string, alias: string, date: string, trail: seq<string>)
    requires Split(text, '\n') == [lead, alias, date] + trail
    ensures UserRowOf(text, href) == Ok(UserRec(UserRef(href), Strip(alias), Strip(date)))
  {
    var cols := [lead, alias, date] + trail;
    assert Col(cols, 1) == Ok(alias) && Col(cols, 2) == Ok(date);
  }

  /**
   * `UserParser.get_users`: `None` on a count mismatch. Only a short row
   * can fail, and it fails with an IndexError.
   */
  function Users(rows: seq<string>, links: seq<string>): (r: Result<Option<seq<UserRec>>>)
    ensures r == Ok(None) <==> |rows| != |links|
    ensures r.Ok? && r.value.Some? ==>
      |r.value.value| == |rows| && forall i :: 0 <= i < |rows| ==> UserRowOf(rows[i], links[i]) == Ok(r.value.value[i])
    ensures r.Err? ==> r.fault == MissingColumn
  {
    if |rows| != |links| then Ok(None)
    else
      var z := Zip(rows, links);
      match MapResult(z, UserRowOfPair)
      case Err(e) =>
        var i :| 0 <= i < |z| && UserRowOfPair(z[i]) == Err(e);
        Err(e)
      case Ok(recs) =>
        assert forall i :: 0 <= i < |rows| ==> UserRowOfPair(z[i]) == UserRowOf(rows[i], links[i]);
        Ok(Some(recs))
  }

  // ---------------------------------------------------------------------
  // The legacy story table (table gui_table1i of the stats page)

  function CellTexts(cells: seq<Cell>): (r: seq<string>)
    ensures |r| == |cells| && forall k :: 0 <= k < |cells| ==> r[k] == cells[k].text
  {
    seq(|cells|, k requires 0 <= k < |cells| => cells[k].text)
  }

  /**
   * One legacy row: the first cell's link gives the id and its text the
   * title; cells 1 to 7 give words, chapters, reviews, views, C2s,
   * favourites and follows. A first cell without a link target fails.
   */
  function LegacyRowOf(row: Row): (r: Result<LegacyRec>)
    ensures r.Ok? ==> |row.cells| >= 8 && row.cells[0].firstHref.Some?
    ensures r.Ok? ==> r.value.ref == StoryRef(row.cells[0].firstHref.value) && r.value.title == Strip(row.cells[0].text)
  {
    LegacyRowBy(Uncomma, row)
  }

  /** The same row with its counters read by `num`. */
  function LegacyRowBy(num: string -> Result<int>, row: Row): (r: Result<LegacyRec>)
    ensures r.Ok? ==> |row.cells| >= 8 && row.cells[0].firstHref.Some?
    ensures r.Ok? ==> r.value.ref == StoryRef(row.cells[0].firstHref.value) && r.value.title == Strip(row.cells[0].text)
  {
    var cells := row.cells;
    if |cells| == 0 || cells[0].firstHref.None? then Err(MissingColumn)
    else
      var ref := StoryRef(cells[0].firstHref.value);
      var title := Strip(cells[0].text);
      match NumColsBy(num, CellTexts(cells), 1, 8)
      case Err(e) => Err(e)
      case Ok(ns) => Ok(LegacyRec(ref, title, ns[0], ns[1], ns[2], ns[3], ns[4], ns[5], ns[6]))
  }

  /** Cells without links, one per text. */
  function PlainCells(ts: seq<string>): (r: seq<Cell>)
    ensures |r| == |ts| && forall k :: 0 <= k < |ts| ==> r[k] == Cell(ts[k], None)
  {
    seq(|ts|, k requires 0 <= k < |ts| => Cell(ts[k], None))
  }

  lemma CellTextsLayout(first: Cell, ts: seq<string>, others: seq<Cell>)
    ensures CellTexts([first] + PlainCells(ts) + others) == [first.text] + ts + CellTexts(others)
  {
    var cells := [first] + PlainCells(ts) + others;
    var want := [first.text] + ts + CellTexts(others);
    forall k | 0 <= k < |cells| ensures cells[k].text == want[k] {
      if 1 <= k < 1 + |ts| {
        assert cells[k] == PlainCells(ts)[k - 1];
      } else if k >= 1 + |ts| {
        assert cells[k] == others[k - 1 - |ts|];
      }
    }
  }

  /** The seven counts of a legacy record, in column order. */
  function LegacyCounts(rec: LegacyRec): seq<int>
  {
    [rec.words, rec.chaps, rec.reviews, rec.views, rec.c2s, rec.favs, rec.alerts]
  }

  predicate Counted(ns: seq<int>)
  {
    forall k :: 0 <= k < |ns| ==> ns[k] >= 0
  }

  /** The legacy row the site prints for a record with non-negative counts. */
  function LegacyRowFor(rec: LegacyRec, linkPre: string, others: seq<Cell>): Row
    requires rec.ref >= 0 && Counted(LegacyCounts(rec))
  {
    var ns: seq<nat> := LegacyCounts(rec);
    Row([Cell(rec.title, Some(linkPre + "storyid=" + NatStr(rec.ref)))] + PlainCells(GroupedAll(ns)) + others)
  }

  lemma LegacyRowRoundTrip(rec: LegacyRec, linkPre: string, others: seq<Cell>)
    requires rec.ref >= 0 && Counted(LegacyCounts(rec))
    requires Strip(rec.title) == rec.title
    requires !IsSubstring("storyid=", linkPre + "storyid")
    ensures LegacyRowOf(LegacyRowFor(rec, linkPre, others)) == Ok(rec)
  {
    var ns: seq<nat> := LegacyCounts(rec);
    var row := LegacyRowFor(rec, linkPre, others);
    var href := linkPre + "storyid=" + NatStr(rec.ref);
    var first := Cell(rec.title, Some(href));
    assert row.cells == [first] + PlainCells(GroupedAll(ns)) + others;
    assert NumCols(CellTexts(row.cells), 1, 8) == Ok(ns) by {
      CellTextsLayout(first, GroupedAll(ns), others);
      NumColsGrouped(CellTexts(row.cells), [rec.title], ns, CellTexts(others));
    }
    assert StoryRef(href) == rec.ref by {
      StoryRefRoundTrip(linkPre, rec.ref, "");
      assert href + "" == href;
    }
    assert row.cells[0] == first;
    LegacyRowRead(Uncomma, row, rec);
  }

  /** A row whose first cell and counts are known reads as that record. */
  lemma LegacyRowRead(num: string -> Result<int>, row: Row, rec: LegacyRec)
    requires |row.cells| > 0 && row.cells[0].firstHref.Some?
    requires NumColsBy(num, CellTexts(row.cells), 1, 8) == Ok(LegacyCounts(rec))
    requires StoryRef(row.cells[0].firstHref.value) == rec.ref && Strip(row.cells[0].text) == rec.title
    ensures LegacyRowBy(num, row) == Ok(rec)
  {
  }

  /** `LegacyTableParser.get_rows`: one record per row, the first failing row stopping the run. */
  function LegacyRows(rows: seq<Row>): (r: Result<seq<LegacyRec>>)
    ensures r.Ok? <==> forall i :: 0 <= i < |rows| ==> LegacyRowOf(rows[i]).Ok?
    ensures r.Ok? ==> |r.value| == |rows| && forall i :: 0 <= i < |rows| ==> LegacyRowOf(rows[i]) == Ok(r.value[i])
  {
    MapResult(rows, LegacyRowOf)
  }

  function TitleOf(rec: LegacyRec): TitleRec
  {
    TitleRec(rec.ref, rec.title)
  }

  /** `LegacyTableParser.get_titles`: the id and title of every legacy row. */
  function LegacyTitles(rows: seq<Row>): (r: Result<seq<TitleRec>>)
    ensures r.Ok? <==> LegacyRows(rows).Ok?
    ensures r.Ok? ==> |r.value| == |rows| && forall i :: 0 <= i < |rows| ==>
      r.value[i] == TitleRec(LegacyRows(rows).value[i].ref, LegacyRows(rows).value[i].title)
  {
    match LegacyRows(rows)
    case Err(e) => Err(e)
    case Ok(recs) => Ok(seq(|recs|, i requires 0 <= i < |recs| => TitleOf(recs[i])))
  }

  // ---------------------------------------------------------------------
  // Visitor charts

  function Labels(items: seq<ChartItem>): (r: seq<string>)
    ensures |r| == |items| && forall k :: 0 <= k < |items| ==> r[k] == items[k].category
  {
    seq(|items|, k requires 0 <= k < |items| => items[k].category)
  }

  function ItemValue(it: ChartItem): Result<int>
  {
    Uncomma(it.value)
  }

  function Min3(a: nat, b: nat, c: nat): nat
  {
    if a <= b && a <= c then a else if b <= c then b else c
  }

  /** `[VisCounter(*item) for item in zip(cats, views, visitors)]` */
  function Counters(cats: seq<string>, views: seq<int>, visitors: seq<int>): (r: seq<VisCounter>)
    ensures |r| == Min3(|cats|, |views|, |visitors|)
    ensures forall i :: 0 <= i < |r| ==> r[i] == VisCounter(cats[i], views[i], visitors[i])
  {
    var n := Min3(|cats|, |views|, |visitors|);
    seq(n, i requires 0 <= i < n => VisCounter(cats[i], views[i], visitors[i]))
  }

  /**
   * The counters of one chart's XML: labels, views and visitors from the
   * first three element groups, read in that order and zipped. A missing
   * group raises when it is reached, so a bad view count in a chart of two
   * groups is reported before the missing third group.
   */
  function ChartVisits(gs: seq<seq<ChartItem>>): (r: Result<seq<VisCounter>>)
    ensures |gs| < 2 ==> r == Err(MissingColumn)
    ensures |gs| < 3 ==> r.Err?
    ensures r.Ok? ==> |gs| >= 3 && |r.value| == Min3(|gs[0]|, |gs[1]|, |gs[2]|)
    ensures r.Ok? ==> forall i :: 0 <= i < |r.value| ==>
      r.value[i].cat == gs[0][i].category && ItemValue(gs[1][i]) == Ok(r.value[i].views) &&
      ItemValue(gs[2][i]) == Ok(r.value[i].visitors)
  {
    if |gs| < 1 then Err(MissingColumn)
    else
      var cats := Labels(gs[0]);
      if |gs| < 2 then Err(MissingColumn)
      else
        match MapResult(gs[1], ItemValue)
        case Err(e) => Err(e)
        case Ok(views) =>
          if |gs| < 3 then Err(MissingColumn)
          else
            match MapResult(gs[2], ItemValue)
            case Err(e) => Err(e)
            case Ok(visitors) => Ok(Counters(cats, views, visitors))
  }

  /**
   * `VisitorChartParser.get_visits(num)`: nothing when `num` is past the
   * last chart or the chart carries no XML, otherwise the chart's counters.
   * A negative `num` counts from the end, as Python indexing does.
   */
  function Visits(charts: seq<Chart>, num: int): (r: Result<seq<VisCounter>>)
    ensures num >= |charts| ==> r == Ok([])
    ensures 0 <= num < |charts| ==> r == (match charts[num] case NoXml => Ok([]) case Xml(gs) => ChartVisits(gs))
  {
    if num >= |charts| then Ok([])
    else if num < -|charts| then Err(MissingColumn)
    else
      match charts[if num < 0 then |charts| + num else num]
      case NoXml => Ok([])
      case Xml(gs) => ChartVisits(gs)
  }

  // ---------------------------------------------------------------------
  // The month menu: `([0-9]+) / ([0-9]+)` under re.VERBOSE, i.e. `([0-9]+)/([0-9]+)`

  const MonthPattern: seq<Tok> := [Digits, Lit("/"), Digits]

  lemma MonthPatternGroups()
    ensures Groups(MonthPattern) == [Digits, Digits]
  {
    assert MonthPattern[1..][1..][1..] == [];
  }

  /**
   * `MonthMenuParser.get_month_latest`: month and year of the first menu
   * entry, as the texts shown; `None` when it does not read "M/Y"; an empty
   * menu raises.
   */
  function MonthLatest(menu: seq<string>): (r: Result<Option<MonthMenuRec>>)
    ensures r.Err? <==> menu == []
    ensures r.Err? ==> r.fault == NoMenuEntry
    ensures r.Ok? && r.value.Some? ==>
      r.value.value.month != [] && AllDigits(r.value.value.month) &&
      r.value.value.year != [] && AllDigits(r.value.value.year)
    ensures r.Ok? ==> (r.value.None? <==> Search(MonthPattern, menu[0]).None?)
  {
    if menu == [] then Err(NoMenuEntry)
    else
      match Search(MonthPattern, menu[0])
      case None => Ok(None)
      case Some(gs) =>
        MonthPatternGroups();
        assert Fits(Digits, gs[0]) && Fits(Digits, gs[1]);
        Ok(Some(MonthMenuRec(gs[0], gs[1])))
  }

  /** A menu entry "MM/YYYY" gives back its month and year texts. */
  lemma MonthLatestRoundTrip(month: string, year: string, rest: seq<string>)
    requires month != [] && AllDigits(month) && year != [] && AllDigits(year)
    ensures MonthLatest([month + "/" + year] + rest) == Ok(Some(MonthMenuRec(month, year)))
  {
    var s := month + ("/" + (year + ""));
    assert year + "" == year;
    assert month + "/" + year == s;
    var p := MonthPattern;
    MatchGroup(p, month, "/" + (year + ""));
    MatchLit(p[1..], "/", year + "");
    MatchGroup(p[1..][1..], year, "");
    assert p[1..][1..][1..] == [];
    assert s[0..] == s;
    SearchFinds(p, s, 0);
  }

  // ---------------------------------------------------------------------
  // The month caption

  /**
   * "For the month of Y-M, there have been a total of V Views and W Visitors":
   * `For\ the\ month\ of\s(\d+)-(\d+)\,\ there\ have\ been\ a\ total\ of\s+([0-9,]+)\ Views\ and\s([0-9,]+)\ Visitors`
   */
  const CaptionPattern: seq<Tok> :=
    [Lit("For the month of")] + ([Space] + ([Digits] + ([Lit("-")] + ([Digits] +
    ([Lit(", there have been a total of")] + TotalsPattern)))))

  /** `\s+([0-9,]+) Views and\s([0-9,]+) Visitors` */
  const TotalsPattern: seq<Tok> := [Spaces] + ([NumText] + ([Lit(" Views and")] + VisitorsPattern))

  /** `\s([0-9,]+) Visitors` */
  const VisitorsPattern: seq<Tok> := [Space] + ([NumText] + [Lit(" Visitors")])

  /** The groups of a pattern with one more token in front. */
  lemma GroupsCons(t: Tok, q: seq<Tok>)
    ensures Groups([t] + q) == (if IsGroup(t) then [t] else []) + Groups(q)
  {
    assert ([t] + q)[1..] == q;
  }

  lemma CaptionPatternGroups()
    ensures Groups(CaptionPattern) == [Digits, Digits, NumText, NumText]
  {
    TotalsPatternGroups();
    var q5 := [Lit(", there have been a total of")] + TotalsPattern;
    GroupsCons(Lit(", there have been a total of"), TotalsPattern);
    GroupsCons(Digits, q5);
    GroupsCons(Lit("-"), [Digits] + q5);
    GroupsCons(Digits, [Lit("-")] + ([Digits] + q5));
    GroupsCons(Space, [Digits] + ([Lit("-")] + ([Digits] + q5)));
    GroupsCons(Lit("For the month of"), [Space] + ([Digits] + ([Lit("-")] + ([Digits] + q5))));
  }

  lemma TotalsPatternGroups()
    ensures Groups(TotalsPattern) == [NumText, NumText]
  {
    assert Groups([Lit(" Visitors")]) == [] by { GroupsCons(Lit(" Visitors"), []); }
    GroupsCons(NumText, [Lit(" Visitors")]);
    GroupsCons(Space, [NumText] + [Lit(" Visitors")]);
    assert Groups(VisitorsPattern) == [NumText];
    GroupsCons(Lit(" Views and"), VisitorsPattern);
    GroupsCons(NumText, [Lit(" Views and")] + VisitorsPattern);
    GroupsCons(Spaces, [NumText] + ([Lit(" Views and")] + VisitorsPattern));
  }

  /** The caption record of one matching cell: the totals go through `uncomma`. */
  function CaptionOf(gs: seq<string>): Result<Option<MonthCaption>>
    requires |gs| == 4
  {
    match Uncomma(gs[2])
    case Err(e) => Err(e)
    case Ok(views) =>
      match Uncomma(gs[3])
      case Err(e) => Err(e)
      case Ok(visitors) => Ok(Some(MonthCaption(gs[0], gs[1], views, visitors)))
  }

  function CaptionGroups(text: string): (r: Option<seq<string>>)
    ensures r.Some? ==> |r.value| == 4
  {
    CaptionPatternGroups();
    Search(CaptionPattern, text)
  }

  /** Cell `k` is the first cell holding a caption. */
  predicate FirstCaptionAt(cells: seq<string>, k: int)
  {
    0 <= k < |cells| && CaptionGroups(cells[k]).Some? && forall j :: 0 <= j < k ==> CaptionGroups(cells[j]).None?
  }

  /**
   * `MonthCaptionParser.get_caption`: the caption of the first cell that
   * matches; `None` when none does.
   */
  function CaptionFromCells(cells: seq<string>): (r: Result<Option<MonthCaption>>)
    ensures r == Ok(None) <==> forall k :: 0 <= k < |cells| ==> CaptionGroups(cells[k]).None?
  {
    match FirstSome(cells, CaptionGroups)
    case None => Ok(None)
    case Some((k, gs)) => CaptionOf(gs)
  }

  /** A caption comes from the first cell that matches the caption pattern. */
  lemma CaptionFromFirstCell(cells: seq<string>)
    requires CaptionFromCells(cells) != Ok(None)
    ensures exists k :: FirstCaptionAt(cells, k) && CaptionFromCells(cells) == CaptionOf(CaptionGroups(cells[k]).value)
  {
    var k := FirstSome(cells, CaptionGroups).value.0;
    assert FirstCaptionAt(cells, k);
  }

  /** The caption the site prints, as built from the month and the totals, and the text after it in the cell. */
  function CaptionText(year: nat, month: nat, views: nat, visitors: nat, post: string): string
  {
    "For the month of" + (" " + (NatStr(year) + ("-" + (ZFill(NatStr(month), 2) + (", there have been a total of" +
    (" " + (Grouped(views) + (" Views and" + (" " + (Grouped(visitors) + (" Visitors" + post)))))))))))
  }

  /** A printed caption reads back as its year and zero-padded month texts and its totals. */
  lemma {:induction false} CaptionRoundTrip(year: nat, month: nat, views: nat, visitors: nat, post: string)
    ensures CaptionGroups(CaptionText(year, month, views, visitors, post))
         == Some([NatStr(year), ZFill(NatStr(month), 2), Grouped(views), Grouped(visitors)])
  {
    var y := NatStr(year);
    var m := ZFill(NatStr(month), 2);
    ZFillDigits(NatStr(month), 2);
    var v := Grouped(views);
    var w := Grouped(visitors);
    GroupedChars(views);
    GroupedChars(visitors);
    CaptionTotals(v, w, post);
    CaptionMonth(y, m, v, w, post);
    var s := CaptionText(year, month, views, visitors, post);
    assert s[0..] == s;
    SearchFinds(CaptionPattern, s, 0);
    Append22(y, m, v, w);
  }

  /** `Views and\s([0-9,]+) Visitors` */
  lemma CaptionVisitors(w: string, post: string)
    requires Fits(NumText, w)
    ensures Match(VisitorsPattern, " " + (w + (" Visitors" + post))) == Some([w])
  {
    assert Match([], post) == Some([]);
    LitThen(" Visitors", [], post, []);
    var q := [Lit(" Visitors")];
    assert [Lit(" Visitors")] + [] == q;
    GroupThen(NumText, q, w, " Visitors" + post, []);
    assert [w] + [] == [w];
    SpaceThen([NumText] + [Lit(" Visitors")], ' ', w + (" Visitors" + post), [w]);
  }

  /** `\s+([0-9,]+) Views and\s([0-9,]+) Visitors` */
  lemma CaptionTotals(v: string, w: string, post: string)
    requires Fits(NumText, v) && Fits(NumText, w)
    ensures Match(TotalsPattern, " " + (v + (" Views and" + (" " + (w + (" Visitors" + post)))))) == Some([v, w])
  {
    var u3 := " " + (w + (" Visitors" + post));
    CaptionVisitors(w, post);
    var q3 := VisitorsPattern;
    LitThen(" Views and", q3, u3, [w]);
    var q2 := [Lit(" Views and")] + q3;
    var u2 := " Views and" + u3;
    GroupThen(NumText, q2, v, u2, [w]);
    var q1 := [NumText] + q2;
    var u1 := v + u2;
    assert u1[0] == v[0];
    NotSpace(v[0]);
    SpacesThen(q1, ' ', u1, [v] + [w]);
    assert [Spaces] + q1 == TotalsPattern;
    assert [v] + [w] == [v, w];
    assert [' '] + u1 == " " + (v + (" Views and" + (" " + (w + (" Visitors" + post)))));
  }

  lemma Append22<T>(a: T, b: T, c: T, d: T)
    ensures [a, b] + [c, d] == [a, b, c, d]
  {
  }

  lemma Cons2<T>(a: T, b: T, xs: seq<T>)
    ensures [a] + ([b] + xs) == [a, b] + xs
  {
  }

  /** `For the month of\s(\d+)-(\d+), there have been a total of`, in front of the totals. */
  lemma CaptionMonth(y: string, m: string, v: string, w: string, post: string)
    requires Fits(Digits, y) && Fits(Digits, m)
    requires Match(TotalsPattern, " " + (v + (" Views and" + (" " + (w + (" Visitors" + post)))))) == Some([v, w])
    ensures Match(CaptionPattern, "For the month of" + (" " + (y + ("-" + (m + (", there have been a total of" +
      (" " + (v + (" Views and" + (" " + (w + (" Visitors" + post)))))))))))) == Some([y, m] + [v, w])
  {
    var q6 := TotalsPattern;
    var u6 := " " + (v + (" Views and" + (" " + (w + (" Visitors" + post)))));
    LitThen(", there have been a total of", q6, u6, [v, w]);
    var q5 := [Lit(", there have been a total of")] + q6;
    var u5 := ", there have been a total of" + u6;
    GroupThen(Digits, q5, m, u5, [v, w]);
    var q4 := [Digits] + q5;
    var u4 := m + u5;
    LitThen("-", q4, u4, [m] + [v, w]);
    var q3 := [Lit("-")] + q4;
    var u3 := "-" + u4;
    GroupThen(Digits, q3, y, u3, [m] + [v, w]);
    var q2 := [Digits] + q3;
    var u2 := y + u3;
    SpaceThen(q2, ' ', u2, [y] + ([m] + [v, w]));
    var q1 := [Space] + q2;
    LitThen("For the month of", q1, [' '] + u2, [y] + ([m] + [v, w]));
    assert [Lit("For the month of")] + q1 == CaptionPattern;
    Cons2(y, m, [v, w]);
    assert [' '] + u2 == " " + u2;
  }

  /** A caption cell after cells without a caption gives the month and the totals it shows. */
  lemma CaptionCellRoundTrip(before: seq<string>, year: nat, month: nat, views: nat, visitors: nat,
                             post: string, after: seq<string>)
    requires forall k :: 0 <= k < |before| ==> CaptionGroups(before[k]).None?
    ensures CaptionFromCells(before + [CaptionText(year, month, views, visitors, post)] + after)
         == Ok(Some(MonthCaption(NatStr(year), ZFill(NatStr(month), 2), views, visitors)))
  {
    var text := CaptionText(year, month, views, visitors, post);
    var cells := before + [text] + after;
    var k := |before|;
    assert FirstCaptionAt(cells, k) by {
      forall j | 0 <= j < k ensures CaptionGroups(cells[j]).None? {
        assert cells[j] == before[j];
      }
      assert cells[k] == text;
      CaptionRecordRoundTrip(year, month, views, visitors, post);
    }
    CaptionFromCellsAt(cells, k);
    CaptionRecordRoundTrip(year, month, views, visitors, post);
  }

  /** The caption of cells whose first caption is at `k` is the caption read from cell `k`. */
  lemma CaptionFromCellsAt(cells: seq<string>, k: int)
    requires FirstCaptionAt(cells, k)
    ensures CaptionFromCells(cells) == CaptionOf(CaptionGroups(cells[k]).value)
  {
    FirstSomeAt(cells, CaptionGroups, k);
  }

  /** The record read from a printed caption holds the month and totals it was printed from. */
  lemma CaptionRecordRoundTrip(year: nat, month: nat, views: nat, visitors: nat, post: string)
    ensures var gs := CaptionGroups(CaptionText(year, month, views, visitors, post));
      gs.Some? && CaptionOf(gs.value) == Ok(Some(MonthCaption(NatStr(year), ZFill(NatStr(month), 2), views, visitors)))
  {
    CaptionRoundTrip(year, month, views, visitors, post);
    UncommaGrouped(views);
    UncommaGrouped(visitors);
  }

  // ---------------------------------------------------------------------
  // The parsers

  class LegacyTableParser {
    var rows: seq<Row>

    constructor ()
      ensures rows == []
    {
      rows := [];
    }

    method SetTree(page: Page)
      modifies this
      ensures rows == page.table1Rows
    {
      rows := page.table1Rows;
    }

    method GetNumRows() returns (n: nat)
      ensures n == |rows|
    {
      n := |rows|;
    }

    method GetRows() returns (r: Result<seq<LegacyRec>>)
      ensures r == LegacyRows(rows)
    {
      r := MapLoop(rows, LegacyRowOf);
    }

    method GetTitles() returns (r: Result<seq<TitleRec>>)
      ensures r == LegacyTitles(rows)
    {
      var recs := GetRows();
      if recs.Err? {
        return Err(recs.fault);
      }
      r := Ok(seq(|recs.value|, i requires 0 <= i < |recs.value| => TitleOf(recs.value[i])));
    }
  }

  class VisitorChartParser {
    var charts: seq<Chart>

    constructor ()
      ensures charts == []
    {
      charts := [];
    }

    method SetTree(page: Page)
      modifies this
      ensures charts == page.charts
    {
      charts := page.charts;
    }

    method GetNumCharts() returns (n: nat)
      ensures n == |charts|
    {
      n := |charts|;
    }

    method GetVisits(num: int) returns (r: Result<seq<VisCounter>>)
      ensures r == Visits(charts, num)
    {
      r := Visits(charts, num);
    }
  }

  class MonthMenuParser {
    var menuEntries: seq<string>

    constructor ()
      ensures menuEntries == []
    {
      menuEntries := [];
    }

    method SetTree(page: Page)
      modifies this
      ensures menuEntries == page.menu
    {
      menuEntries := page.menu;
    }

    method GetMenu() returns (recs: seq<string>)
      ensures recs == menuEntries
    {
      recs := [];
      var i := 0;
      while i < |menuEntries|
        invariant 0 <= i <= |menuEntries|
        invariant recs == menuEntries[..i]
      {
        recs := recs + [menuEntries[i]];
        i := i + 1;
      }
    }

    method GetMonthLatest() returns (r: Result<Option<MonthMenuRec>>)
      ensures r == MonthLatest(menuEntries)
    {
      r := MonthLatest(menuEntries);
    }
  }

  class MonthStoryRowsParser {
    var storyRows: seq<string>
    var storyHref: seq<string>

    constructor ()
      ensures storyRows == [] && storyHref == []
    {
      storyRows := [];
      storyHref := [];
    }

    method SetTree(page: Page)
      modifies this
      ensures storyRows == page.table2RowTexts && storyHref == page.table2Links
    {
      storyRows := page.table2RowTexts;
      storyHref := page.table2Links;
    }

    method GetRows() returns (r: Result<Option<seq<MonthlyStoryRec>>>)
      ensures r == StoryRows(storyRows, storyHref)
    {
      if |storyRows| != |storyHref| {
        return Ok(None);
      }
      var z := Zip(storyRows, storyHref);
      var recs := MapLoop(z, StoryRowOfPair);
      if recs.Err? {
        return Err(recs.fault);
      }
      r := Ok(Some(recs.value));
    }
  }

  class MonthCaptionParser {
    /** `None` until `set_tree` has run: iterating it then raises. */
    var monthCaptions: Option<seq<string>>

    constructor ()
      ensures monthCaptions == None
    {
      monthCaptions := None;
    }

    method SetTree(page: Page)
      modifies this
      ensures monthCaptions == Some(page.captionCells)
    {
      monthCaptions := Some(page.captionCells);
    }

    method GetCaption() returns (r: Result<Option<MonthCaption>>)
      ensures monthCaptions.None? ==> r == Err(NotIterable)
      ensures monthCaptions.Some? ==> r == CaptionFromCells(monthCaptions.value)
    {
      if monthCaptions.None? {
        return Err(NotIterable);
      }
      var cells := monthCaptions.value;
      var i := 0;
      while i < |cells|
        invariant 0 <= i <= |cells|
        invariant CaptionFromCells(cells) == CaptionFromCells(cells[i..])
      {
        var gs := CaptionGroups(cells[i]);
        if gs.Some? {
          return CaptionOf(gs.value);
        }
        assert cells[i..][1..] == cells[i + 1..];
        i := i + 1;
      }
      r := Ok(None);
    }
  }

  class UserParser {
    var userRows: seq<string>
    var userHref: seq<string>

    constructor ()
      ensures userRows == [] && userHref == []
    {
      userRows := [];
      userHref := [];
    }

    method SetTree(page: Page)
      modifies this
      ensures userRows == page.table1RowTexts && userHref == page.table1Links
    {
      userRows := page.table1RowTexts;
      userHref := page.table1Links;
    }

    method GetUsers() returns (r: Result<Option<seq<UserRec>>>)
      ensures r == Users(userRows, userHref)
    {
      if |userRows| != |userHref| {
        return Ok(None);
      }
      var z := Zip(userRows, userHref);
      var recs := MapLoop(z, UserRowOfPair);
      if recs.Err? {
        return Err(recs.fault);
      }
      r := Ok(Some(recs.value));
    }
  }

  class MonthChapterRowsParser {
    var chapterRows: seq<string>
    var chapterHref: seq<string>

    constructor ()
      ensures chapterRows == [] && chapterHref == []
    {
      chapterRows := [];
      chapterHref := [];
    }

    method SetTree(page: Page)
      modifies this
      ensures chapterRows == page.table2RowTexts && chapterHref == page.table2Links
    {
      chapterRows := page.table2RowTexts;
      chapterHref := page.table2Links;
    }

    method GetRows() returns (r: Result<Option<seq<MonthlyChapterRec>>>)
      ensures r == ChapterRows(chapterRows, chapterHref)
    {
      if |chapterRows| != |chapterHref| {
        return Ok(None);
      }
      var z := Zip(chapterRows, chapterHref);
      var recs := MapLoop(z, ChapterRowOfPair);
      if recs.Err? {
        return Err(recs.fault);
      }
      r := Ok(Some(recs.value));
    }
  }
}
