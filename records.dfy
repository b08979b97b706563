/**
 * The records the page parsers produce (the named tuples of the scraper
 * module). Counts are already numbers; the month caption keeps its year
 * and month as the strings the page showed.
 */
module Records {

  /** One row of the legacy story table. */
  datatype LegacyRec = LegacyRec(ref: int, title: string, words: int, chaps: int, reviews: int,
                                 views: int, c2s: int, favs: int, alerts: int)

  /** One bar of a visitor chart: its label (a date or a country) and two counts. */
  datatype VisCounter = VisCounter(cat: string, views: int, visitors: int)

  /** The latest entry of the month menu, as the strings shown. */
  datatype MonthMenuRec = MonthMenuRec(month: string, year: string)

  datatype TitleRec = TitleRec(ref: int, title: string)

  /** One row of the monthly story table. */
  datatype MonthlyStoryRec = MonthlyStoryRec(ref: int, title: string, words: int, views: int, visitors: int)

  /** The month caption: year and month as shown, totals as numbers. */
  datatype MonthCaption = MonthCaption(year: string, month: string, views: int, visitors: int)

  /** One row of a favourites or follows table. */
  datatype UserRec = UserRec(id: int, alias: string, dateAdded: string)

  /** One row of the monthly chapter table of a story. */
  datatype MonthlyChapterRec = MonthlyChapterRec(chRef: int, num: int, title: string, words: int,
                                                 views: int, visitors: int)

  /** One work scraped from an archive works page. */
  datatype Ao3Rec = Ao3Rec(title: string, ref: int, hits: int, kudos: int, comments: int, bookmarks: int)
}
