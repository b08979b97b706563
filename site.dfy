/**
 * The site as the scrapers see it. A page is the handful of node lists the
 * parsers select from it (as text and attribute strings); a request is a
 * URL and an ordered query payload; the getter answers each request from a
 * fixed function of the request and keeps a log of what it asked for.
 */
module Site {
  import opened Base
  import opened Text

  /** A table cell: its text, and the href of its first child element when it has one. */
  datatype Cell = Cell(text: string, firstHref: Option<string>)

  /** A table row of the legacy table, cell by cell. */
  datatype Row = Row(cells: seq<Cell>)

  /** One `<set>` element of a chart's XML: its label (a category) and value attributes. */
  datatype ChartItem = ChartItem(category: string, value: string)

  /** A chart script: without a `setDataXML("…");` call, or with the element groups of its XML. */
  datatype Chart = NoXml | Xml(groups: seq<seq<ChartItem>>)

  /** A works-list heading link of the archive: its text and href. */
  datatype WorkHeader = WorkHeader(text: string, href: string)

  /** The texts of the `dd` entries of one archive statistics block, by class. */
  datatype StatBlock = StatBlock(hits: seq<string>, kudos: seq<string>, comments: seq<string>, bookmarks: seq<string>)

  datatype Page = Page(
    table1Rows: seq<Row>,          // rows of table gui_table1i (the legacy table)
    table1RowTexts: seq<string>,   // text of those rows (user tables)
    table1Links: seq<string>,      // hrefs of the links in gui_table1i cells
    captionCells: seq<string>,     // gui_table1i cells whose text mentions 'month'
    table2RowTexts: seq<string>,   // text of the rows of table gui_table2i
    table2Links: seq<string>,      // hrefs of the links in gui_table2i cells
    charts: seq<Chart>,            // scripts that build a FusionChart
    menu: seq<string>,             // options of the month menu
    workHeaders: seq<WorkHeader>,  // archive works headings
    statBlocks: seq<StatBlock>,    // archive statistics blocks
    pageLinks: seq<string>)        // labels of the archive pagination links

  /** A payload value: the getter passes strings, and story and chapter ids as numbers. */
  datatype Param = Text(text: string) | Number(n: int)

  /** An ordered query payload, as a Python dict keeps it. */
  type Payload = seq<(string, Param)>

  /** The statistics scripts the getter asks for. */
  datatype Script = EyesScript | StoryScript | PartScript | EyesStoryScript | EyesChapterScript | UserScript

  /** A request: the script under the statistics root, and the query payload. */
  datatype Request = Request(script: Script, payload: Payload)

  /** `payload.get(k)`. */
  function Lookup(p: Payload, k: string): Option<Param>
  {
    if p == [] then None
    else if p[0].0 == k then Some(p[0].1)
    else Lookup(p[1..], k)
  }

  /** No key occurs twice, as in a dict. */
  predicate DistinctKeys(p: Payload)
  {
    p == [] || (Lookup(p[1..], p[0].0).None? && DistinctKeys(p[1..]))
  }

  /** `payload[k] = v`: an existing key keeps its place and takes the new value, a new key goes last. */
  function Put(p: Payload, k: string, v: Param): (r: Payload)
    ensures Lookup(r, k) == Some(v)
    ensures forall j :: j != k ==> Lookup(r, j) == Lookup(p, j)
    ensures DistinctKeys(p) ==> DistinctKeys(r)
    ensures Lookup(p, k).None? ==> r == p + [(k, v)]
    ensures Lookup(p, k).Some? ==> |r| == |p|
  {
    if p == [] then [(k, v)]
    else if p[0].0 == k then [(k, v)] + p[1..]
    else [p[0]] + Put(p[1..], k, v)
  }

  const StatsBase := "https://www.fanfiction.net/stats/"

  function ScriptName(s: Script): string
  {
    match s
    case EyesScript => "story_eyes.php"
    case StoryScript => "story.php"
    case PartScript => "part.php"
    case EyesStoryScript => "story_eyes_story.php"
    case EyesChapterScript => "story_eyes_chapter.php"
    case UserScript => "user.php"
  }

  /** The URL a request is sent to. */
  function Url(r: Request): string
  {
    StatsBase + ScriptName(r.script)
  }

  /** `get_old_story_eyes_tree`: the story-eyes page of a given month. */
  function OldStoryEyesRequest(month: string, year: string): Request
  {
    Request(EyesScript, [("month", Text(month)), ("year", Text(year))])
  }

  /** `get_story_eyes_tree` without a payload: the current month. */
  function StoryEyesRequest(): Request
  {
    Request(EyesScript, [])
  }

  function LegacyRequest(): Request
  {
    Request(StoryScript, [])
  }

  /** `get_legacy_part`: the favourites ("favs") or follows ("alerts") of one story. */
  function LegacyPartRequest(ref: int, part: string): Request
  {
    Request(PartScript, [("storyid", Number(ref)), ("part", Text(part))])
  }

  /** `get_chapters_tree`: `storyid` is set in the given payload, or in a new one. */
  function ChaptersRequest(ref: int, payload: Option<Payload>): (r: Request)
    ensures Lookup(r.payload, "storyid") == Some(Number(ref))
    ensures payload.Some? ==> forall k :: k != "storyid" ==> Lookup(r.payload, k) == Lookup(payload.value, k)
    ensures payload.None? ==> r.payload == [("storyid", Number(ref))]
  {
    var p := if payload.None? then [] else payload.value;
    Request(EyesStoryScript, Put(p, "storyid", Number(ref)))
  }

  /**
   * `get_chapter_single`: the chapter id, then month and year, each only when
   * given and non-empty (an absent and an empty value are both `""` here).
   */
  function ChapterSingleRequest(chRef: int, month: string, year: string): (r: Request)
    ensures Lookup(r.payload, "storytextid") == Some(Number(chRef))
    ensures Lookup(r.payload, "month") == if month != "" then Some(Text(month)) else None
    ensures Lookup(r.payload, "year") == if year != "" then Some(Text(year)) else None
    ensures DistinctKeys(r.payload)
  {
    var p := Put([], "storytextid", Number(chRef));
    var p := if month != "" then Put(p, "month", Text(month)) else p;
    var p := if year != "" then Put(p, "year", Text(year)) else p;
    Request(EyesChapterScript, p)
  }

  function FavMeRequest(): Request
  {
    Request(UserScript, [("action", Text("favs"))])
  }

  function FollowMeRequest(): Request
  {
    Request(UserScript, [("action", Text("alerts"))])
  }

  /**
   * `FanfictionGetter` over a page getter. What the site answers is the
   * function `serve`; a failure is the error the page getter raises.
   */
  class FanfictionGetter {
    const serve: Request -> Result<Page>
    /** Every request made so far, in order. */
    var log: seq<Request>

    constructor (serve: Request -> Result<Page>)
      ensures this.serve == serve && log == []
    {
      this.serve := serve;
      log := [];
    }

    method Fetch(req: Request) returns (r: Result<Page>)
      modifies this`log
      ensures log == old(log) + [req] && r == serve(req)
    {
      log := log + [req];
      r := serve(req);
    }

    method GetOldStoryEyesTree(month: string, year: string) returns (r: Result<Page>)
      modifies this`log
      ensures log == old(log) + [OldStoryEyesRequest(month, year)] && r == serve(OldStoryEyesRequest(month, year))
    {
      r := Fetch(OldStoryEyesRequest(month, year));
    }

    method GetStoryEyesTree() returns (r: Result<Page>)
      modifies this`log
      ensures log == old(log) + [StoryEyesRequest()] && r == serve(StoryEyesRequest())
    {
      r := Fetch(StoryEyesRequest());
    }

    method GetLegacyTree() returns (r: Result<Page>)
      modifies this`log
      ensures log == old(log) + [LegacyRequest()] && r == serve(LegacyRequest())
    {
      r := Fetch(LegacyRequest());
    }

    method GetLegacyPart(ref: int, part: string) returns (r: Result<Page>)
      modifies this`log
      ensures log == old(log) + [LegacyPartRequest(ref, part)] && r == serve(LegacyPartRequest(ref, part))
    {
      r := Fetch(LegacyPartRequest(ref, part));
    }

    method GetChaptersTree(ref: int, payload: Option<Payload>) returns (r: Result<Page>)
      modifies this`log
      ensures log == old(log) + [ChaptersRequest(ref, payload)] && r == serve(ChaptersRequest(ref, payload))
    {
      r := Fetch(ChaptersRequest(ref, payload));
    }

    method GetChapterSingle(chRef: int, month: string, year: string) returns (r: Result<Page>)
      modifies this`log
      ensures log == old(log) + [ChapterSingleRequest(chRef, month, year)]
      ensures r == serve(ChapterSingleRequest(chRef, month, year))
    {
      r := Fetch(ChapterSingleRequest(chRef, month, year));
    }

    method GetFavMe() returns (r: Result<Page>)
      modifies this`log
      ensures log == old(log) + [FavMeRequest()] && r == serve(FavMeRequest())
    {
      r := Fetch(FavMeRequest());
    }

    method GetFollowMe() returns (r: Result<Page>)
      modifies this`log
      ensures log == old(log) + [FollowMeRequest()] && r == serve(FollowMeRequest())
    {
      r := Fetch(FollowMeRequest());
    }
  }
}
