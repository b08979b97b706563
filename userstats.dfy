/**
 * The author's own favourites and follows (`get_userstats`): the pages
 * listing who favourited and who follows the author compared with the
 * FavMe and FollowMe tables, each user who joined or left reported under
 * "Me" and the table brought level with the page.
 */
module UserStats {
  import opened Base
  import opened Store
  import opened Report
  import opened Site
  import opened Members

  /** The report key of every line of this program. */
  const MeKey := "Me"

  /** The page listing the author's favourites or follows. */
  function MeRequest(l: List): (r: Request)
    ensures r.script == UserScript
  {
    if l == FavList then FavMeRequest() else FollowMeRequest()
  }

  /**
   * `print_favs` and `print_follows`: the author's list on the site read,
   * the users who joined reported with the page's aliases and added, those
   * who left reported and deleted. A page that fails to load stops the
   * run before anything is written.
   */
  method PrintList(getter: FanfictionGetter, db: ReadMeDb, reportGen: ReportGen, l: List)
    returns (fault: Option<Fault>, ghost added: seq<int>, ghost removed: seq<int>)
    modifies getter`log, db`session, reportGen`report
    ensures getter.log == old(getter.log) + [MeRequest(l)]
    ensures fault.Some? <==> WebFrom(getter.serve(MeRequest(l))).Err?
    ensures fault.Some? ==> (fault.value == WebFrom(getter.serve(MeRequest(l))).fault
      && db.session == old(db.session) && reportGen.report == old(reportGen.report))
    ensures fault.None? ==>
      var web := WebFrom(getter.serve(MeRequest(l))).value;
      var stored := Codes(old(db.session).members, l, Me);
      && Enumerates(added, web.ids - stored) && Enumerates(removed, stored - web.ids)
      && db.session == Compared(old(db.session), web, l, Me)
      && Codes(db.session.members, l, Me) == web.ids
      && reportGen.report == ComparisonReport(old(reportGen.report), old(db.session), web, MeKey, "", l, added, removed)
      && |LinesOf(reportGen.report, MeKey)| == |LinesOf(old(reportGen.report), MeKey)| + |web.ids - stored| + |stored - web.ids|
  {
    fault, added, removed := CompareList(getter, db, reportGen, MeRequest(l), MeKey, "", l, Me);
    if fault.None? {
      var web := WebFrom(getter.serve(MeRequest(l))).value;
      ComparedMembers(old(db.session), web, l, Me);
      ComparisonLines(old(reportGen.report), old(db.session), web, MeKey, "", l, Me, added, removed, MeKey);
    }
  }

  /**
   * The work of the program's driver: favourites first, then follows,
   * under one report. Afterwards each of the author's tables is the
   * site's list, and no story's list has moved.
   */
  method UserStatsRun(getter: FanfictionGetter, db: ReadMeDb, reportGen: ReportGen) returns (fault: Option<Fault>)
    modifies getter`log, db`session, reportGen`report
    ensures var favs, follows := WebFrom(getter.serve(FavMeRequest())), WebFrom(getter.serve(FollowMeRequest()));
      && (fault.None? <==> favs.Ok? && follows.Ok?)
      && (favs.Err? ==>
            && fault == Some(favs.fault) && getter.log == old(getter.log) + [FavMeRequest()]
            && db.session == old(db.session) && reportGen.report == old(reportGen.report))
      && (favs.Ok? ==> getter.log == old(getter.log) + [FavMeRequest(), FollowMeRequest()])
      && (favs.Ok? && follows.Err? ==> fault == Some(follows.fault))
    ensures var favs, follows := WebFrom(getter.serve(FavMeRequest())), WebFrom(getter.serve(FollowMeRequest()));
      favs.Ok? && follows.Err? ==>
        var favs0 := FavMeCodes(old(db.session).members);
        && db.session == Compared(old(db.session), favs.value, FavList, Me)
        && FavMeCodes(db.session.members) == favs.value.ids
        && |LinesOf(reportGen.report, MeKey)| == |LinesOf(old(reportGen.report), MeKey)|
          + |favs.value.ids - favs0| + |favs0 - favs.value.ids|
    ensures fault.None? ==>
      var favs, follows := WebFrom(getter.serve(FavMeRequest())).value, WebFrom(getter.serve(FollowMeRequest())).value;
      && db.session == Compared(Compared(old(db.session), favs, FavList, Me), follows, FollowList, Me)
      && FavMeCodes(db.session.members) == favs.ids && FollowMeCodes(db.session.members) == follows.ids
    ensures fault.None? ==>
      var favs, follows := WebFrom(getter.serve(FavMeRequest())).value, WebFrom(getter.serve(FollowMeRequest())).value;
      var favs0, follows0 := FavMeCodes(old(db.session).members), FollowMeCodes(old(db.session).members);
      |LinesOf(reportGen.report, MeKey)| == |LinesOf(old(reportGen.report), MeKey)|
        + |favs.ids - favs0| + |favs0 - favs.ids| + |follows.ids - follows0| + |follows0 - follows.ids|
  {
    fault := None;
    ghost var log0, t0, r0 := getter.log, db.session, reportGen.report;
    ghost var favAdded, favRemoved, followAdded, followRemoved;
    var favFault;
    favFault, favAdded, favRemoved := PrintList(getter, db, reportGen, FavList);
    if favFault.Some? {
      return favFault;
    }
    ghost var t1, r1 := db.session, reportGen.report;
    ghost var favs := WebFrom(getter.serve(FavMeRequest())).value;
    assert |LinesOf(r1, MeKey)| == |LinesOf(r0, MeKey)| + |favs.ids - FavMeCodes(t0.members)| + |FavMeCodes(t0.members) - favs.ids|;
    ComparedCodes(t0, favs, FavList, Me, FollowList, Me);
    assert FollowMeCodes(t1.members) == FollowMeCodes(t0.members);
    fault, followAdded, followRemoved := PrintList(getter, db, reportGen, FollowList);
    LogTwo(getter.log, log0, MeRequest(FavList), MeRequest(FollowList));
    if fault.None? {
      ComparedCodes(t1, WebFrom(getter.serve(FollowMeRequest())).value, FollowList, Me, FavList, Me);
    }
  }

  /** Two fetches in a row, as one log extension. */
  lemma LogTwo(log: seq<Request>, log0: seq<Request>, a: Request, b: Request)
    requires log == log0 + [a] + [b]
    ensures log == log0 + [a, b]
  {
  }

  /** Running the program again against the same pages reports nothing and writes nothing. */
  lemma UserStatsAgain(t: Tables, favs: WebUsers, follows: WebUsers)
    ensures var t' := Compared(Compared(t, favs, FavList, Me), follows, FollowList, Me);
      && Codes(t'.members, FavList, Me) == favs.ids && Codes(t'.members, FollowList, Me) == follows.ids
      && Compared(Compared(t', favs, FavList, Me), follows, FollowList, Me) == t'
  {
    var t1 := Compared(t, favs, FavList, Me);
    var t' := Compared(t1, follows, FollowList, Me);
    ComparedCodes(t, favs, FavList, Me, FavList, Me);
    ComparedCodes(t1, follows, FollowList, Me, FavList, Me);
    ComparedCodes(t1, follows, FollowList, Me, FollowList, Me);
    ComparedNoop(t', favs, FavList, Me);
    ComparedNoop(t', follows, FollowList, Me);
  }
}
