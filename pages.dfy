/** What the scrapers read from a loaded page once BeautifulSoup has parsed
    it: only the elements they look for, each either found with its text or
    absent. Loading, scrolling and the matching of CSS classes are not part
    of this model. */
module Pages {
  import opened Py

  /** One `div.feed-post-body` of G1: the title link, the three spans and
      the summary div, each `None` when `find` does not find it. */
  datatype G1Item = G1Item(
    title: Option<string>,
    header: Option<string>,
    time: Option<string>,
    theme: Option<string>,
    resume: Option<string>)

  /** The G1 front page after scrolling: its `div._evg` blocks, each holding
      its news items in document order. */
  type G1Page = seq<seq<G1Item>>

  /** One `li.home__list__item` of CNN Brasil: the title heading and the date
      span. */
  datatype CnnItem = CnnItem(title: Option<string>, date: Option<string>)

  /** A CNN Brasil theme page after scrolling: the items of its
      `div.col__l--9 col--12` container, or `None` when the page has no such
      container. */
  type CnnPage = Option<seq<CnnItem>>
}
