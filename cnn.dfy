/** `CNNNewsScraper` (src/scrapers.py): the news items of four CNN Brasil
    theme pages as three columns, one frame per theme concatenated, then
    the dates ("15/03/2024 às 10:30") turned into datetimes and the titles
    stripped. `browse` stands for the browser: the page it shows for a
    URL once loaded and scrolled. */
module Cnn {
  import opened Py
  import opened Calendar
  import opened Strptime
  import opened Frames
  import opened Pages

  const Url: string := "https://www.cnnbrasil.com.br/"

  /** The theme pages visited, in order. */
  const Themes: seq<string> := ["politica", "economia", "esportes", "pop"]

  const TitleCol: string := "Title"
  const TimeCol: string := "Time"
  const ThemeCol: string := "Theme"

  /** The column names of each page's frame, in order. */
  const Names: seq<string> := [TitleCol, TimeCol, ThemeCol]

  /** The attributes `__init__` gives the scraper object. */
  datatype Scraper = Scraper(url: string, themes: seq<string>, nScrolls: int)

  /** `CNNNewsScraper(n_scrolls)`. */
  function NewScraper(nScrolls: int): Scraper {
    Scraper(Url, Themes, nScrolls)
  }

  lemma NamesDistinct()
    ensures Distinct(Names)
  {
    assert TitleCol[1] == 'i' && TimeCol[1] == 'i' && ThemeCol[1] == 'h';
    assert TitleCol[2] == 't' && TimeCol[2] == 'm';
  }

  // ---------------------------------------------------------------- one page

  predicate TitlesPresent(items: seq<CnnItem>) {
    forall i :: 0 <= i < |items| ==> items[i].title.Some?
  }

  function Titles(items: seq<CnnItem>): (col: seq<Cell>)
    ensures |col| == |items|
  {
    seq(|items|, i requires 0 <= i < |items| => TextCell(items[i].title))
  }

  function Dates(items: seq<CnnItem>): (col: seq<Cell>)
    ensures |col| == |items|
  {
    seq(|items|, i requires 0 <= i < |items| => TextCell(items[i].date))
  }

  /** The three lists `_scrape_news_from_page` fills, in column order. */
  function Lists(items: seq<CnnItem>, theme: string): seq<seq<Cell>> {
    [Titles(items), Dates(items), Broadcast(Str(theme), |items|)]
  }

  /** What `_scrape_news_from_page` returns: AttributeError when the page
      has no news container (`find_all` on `None`) or an item has no title
      (`title.text` on `None`), otherwise the frame of titles, dates and
      the theme. */
  function PageTable(page: CnnPage, theme: string): Result<Table> {
    match page
    case None => Err(AttributeError)
    case Some(items) =>
      if !TitlesPresent(items) then Err(AttributeError)
      else FromColumns(Names, Lists(items, theme))
  }

  lemma ListsTable(items: seq<CnnItem>, theme: string)
    ensures FromColumns(Names, Lists(items, theme)).Ok?
    ensures var t := FromColumns(Names, Lists(items, theme)).value;
            WellFormed(t) && t.names == Names && t.height == |items|
            && t.cols[TitleCol] == Titles(items) && t.cols[TimeCol] == Dates(items)
            && t.cols[ThemeCol] == Broadcast(Str(theme), |items|)
  {
    var lists := Lists(items, theme);
    NamesDistinct();
    assert SameLength(lists, |lists[0]|);
    FromColumnsSpec(Names, lists);
    var t := FromColumns(Names, lists).value;
    assert t.cols[Names[0]] == lists[0] && t.cols[Names[1]] == lists[1] && t.cols[Names[2]] == lists[2];
  }

  /** A page gives a frame exactly when it has the container and every item
      has a title; the frame has one row per item, in order: its title, its
      date or `None`, and the page's theme. */
  lemma PageTableSpec(page: CnnPage, theme: string)
    ensures PageTable(page, theme).Ok? <==> page.Some? && TitlesPresent(page.value)
    ensures PageTable(page, theme).Ok? ==>
              var t := PageTable(page, theme).value;
              var items := page.value;
              WellFormed(t) && t.names == Names && t.height == |items|
              && forall i :: 0 <= i < |items| ==>
                   t.cols[TitleCol][i] == Str(items[i].title.value)
                   && t.cols[TimeCol][i] == TextCell(items[i].date)
                   && t.cols[ThemeCol][i] == Str(theme)
  {
    if page.Some? && TitlesPresent(page.value) {
      ListsTable(page.value, theme);
    }
  }

  /** `_scrape_news_from_page`: walks the container's items, appending the
      title, the date and the theme; a missing title aborts the walk. */
  method ScrapeNewsFromPage(page: CnnPage, theme: string) returns (r: Result<Table>)
    ensures r == PageTable(page, theme)
  {
    if page.None? {
      return Err(AttributeError);
    }
    var newsList := page.value;
    var titles: seq<Cell> := [];
    var times: seq<Cell> := [];
    var themes: seq<Cell> := [];
    var i := 0;
    while i < |newsList|
      invariant 0 <= i <= |newsList|
      invariant TitlesPresent(newsList[..i])
      invariant titles == Titles(newsList[..i])
      invariant times == Dates(newsList[..i])
      invariant themes == Broadcast(Str(theme), i)
    {
      var news := newsList[i];
      if news.title.None? {
        return Err(AttributeError);
      }
      assert newsList[..i + 1] == newsList[..i] + [news];
      titles := titles + [Str(news.title.value)];
      times := times + [TextCell(news.date)];
      themes := themes + [Str(theme)];
      i := i + 1;
    }
    assert newsList[..|newsList|] == newsList;
    assert [titles, times, themes] == Lists(newsList, theme);
    r := FromColumns(Names, [titles, times, themes]);
  }

  // ---------------------------------------------------------------- all pages

  /** The frames of the pages of `themes`, in order; the first page that
      raises stops the walk. */
  function PageTables(s: Scraper, browse: string -> CnnPage, themes: seq<string>): (r: Result<seq<Table>>)
    ensures r.Ok? ==> |r.value| == |themes| && AllWellFormed(r.value)
                      && forall k :: 0 <= k < |themes| ==> PageTable(browse(s.url + themes[k]), themes[k]) == Ok(r.value[k])
  {
    if themes == [] then Ok([])
    else
      var init := themes[..|themes| - 1];
      var theme := themes[|themes| - 1];
      match PageTables(s, browse, init)
      case Err(e) => Err(e)
      case Ok(ts) =>
        match PageTable(browse(s.url + theme), theme)
        case Err(e) => Err(e)
        case Ok(t) =>
          PageTableSpec(browse(s.url + theme), theme);
          assert forall k :: 0 <= k < |init| ==> init[k] == themes[k];
          Ok(ts + [t])
  }

  /** What `_get_scraped_data` returns: the pages' frames concatenated, or
      ValueError from `pd.concat` when there are no themes at all. */
  function ScrapedData(s: Scraper, browse: string -> CnnPage): Result<Table> {
    match PageTables(s, browse, s.themes)
    case Err(e) => Err(e)
    case Ok(ts) => if ts == [] then Err(ValueError) else Ok(ConcatAll(ts))
  }

  /** `_get_scraped_data`: loads each theme page in turn and scrapes it. */
  method GetScrapedData(s: Scraper, browse: string -> CnnPage) returns (r: Result<Table>)
    ensures r == ScrapedData(s, browse)
  {
    var newsDfs: seq<Table> := [];
    var k := 0;
    while k < |s.themes|
      invariant 0 <= k <= |s.themes|
      invariant PageTables(s, browse, s.themes[..k]) == Ok(newsDfs)
    {
      var theme := s.themes[k];
      var data := ScrapeNewsFromPage(browse(s.url + theme), theme);
      assert s.themes[..k + 1][..k] == s.themes[..k];
      if data.Err? {
        PageTablesPrefix(s, browse, s.themes, k + 1);
        return Err(data.exc);
      }
      newsDfs := newsDfs + [data.value];
      k := k + 1;
    }
    assert s.themes[..|s.themes|] == s.themes;
    if newsDfs == [] {
      return Err(ValueError);
    }
    r := Ok(ConcatAll(newsDfs));
  }

  /** A page that raises makes the whole walk raise the same exception. */
  lemma {:induction false} PageTablesPrefix(s: Scraper, browse: string -> CnnPage, themes: seq<string>, k: nat)
    requires k <= |themes| && PageTables(s, browse, themes[..k]).Err?
    ensures PageTables(s, browse, themes) == PageTables(s, browse, themes[..k])
    decreases |themes|
  {
    if k < |themes| {
      var init := themes[..|themes| - 1];
      assert init[..k] == themes[..k];
      PageTablesPrefix(s, browse, init, k);
    } else {
      assert themes[..k] == themes;
    }
  }

  /** The scraped frame exists exactly when there is a theme and every
      theme page gives a frame; it has the three columns and the pages'
      rows, all of them. */
  lemma ScrapedDataSpec(s: Scraper, browse: string -> CnnPage)
    ensures ScrapedData(s, browse).Ok? <==>
              |s.themes| > 0 && forall k :: 0 <= k < |s.themes| ==> PageTable(browse(s.url + s.themes[k]), s.themes[k]).Ok?
    ensures ScrapedData(s, browse).Ok? ==>
              var t := ScrapedData(s, browse).value;
              WellFormed(t) && t.names == Names && t.height == Height(PageTables(s, browse, s.themes).value)
  {
    PageTablesOk(s, browse, s.themes);
    if ScrapedData(s, browse).Ok? {
      var ts := PageTables(s, browse, s.themes).value;
      ConcatWellFormed(ts);
      NamesDistinct();
      forall k | 0 <= k < |ts| ensures ts[k].names == Names {
        PageTableSpec(browse(s.url + s.themes[k]), s.themes[k]);
      }
      UnionNamesSame(ts, Names);
    }
  }

  /** Each theme's page gave the `k`-th frame of the concatenation. */
  lemma ScrapedDataPage(s: Scraper, browse: string -> CnnPage, k: nat)
    requires ScrapedData(s, browse).Ok? && k < |s.themes|
    ensures PageTables(s, browse, s.themes).Ok?
    ensures var page := browse(s.url + s.themes[k]);
            var ts := PageTables(s, browse, s.themes).value;
            page.Some? && TitlesPresent(page.value) && k < |ts| && ts[k].height == |page.value|
            && WellFormed(ts[k]) && ts[k].names == Names
            && ts[k].cols[TitleCol] == Titles(page.value) && ts[k].cols[TimeCol] == Dates(page.value)
            && ts[k].cols[ThemeCol] == Broadcast(Str(s.themes[k]), |page.value|)
  {
    var page := browse(s.url + s.themes[k]);
    PageTableSpec(page, s.themes[k]);
    ListsTable(page.value, s.themes[k]);
  }

  /** Row `Offset(ts, k) + j` of the scraped frame is item `j` of the page
      of theme `k`: pages in theme order, items in page order, each row
      tagged with its theme. */
  lemma ScrapedDataRow(s: Scraper, browse: string -> CnnPage, ts: seq<Table>, k: nat, j: nat)
    requires PageTables(s, browse, s.themes) == Ok(ts) && ts != []
    requires k < |s.themes| && j < ts[k].height
    ensures AllWellFormed(ts) && ScrapedData(s, browse) == Ok(ConcatAll(ts))
    ensures WellFormed(ConcatAll(ts)) && ConcatAll(ts).names == Names
    ensures var page := browse(s.url + s.themes[k]);
            page.Some? && TitlesPresent(page.value) && j < |page.value|
            && Offset(ts, k) + j < ConcatAll(ts).height
            && ConcatAll(ts).cols[TitleCol][Offset(ts, k) + j] == Str(page.value[j].title.value)
            && ConcatAll(ts).cols[TimeCol][Offset(ts, k) + j] == TextCell(page.value[j].date)
            && ConcatAll(ts).cols[ThemeCol][Offset(ts, k) + j] == Str(s.themes[k])
  {
    ScrapedDataSpec(s, browse);
    ScrapedDataPage(s, browse, k);
    var items := browse(s.url + s.themes[k]).value;
    assert Titles(items)[j] == Str(items[j].title.value);
    ConcatAt(ts, TitleCol, k, j);
    ConcatAt(ts, TimeCol, k, j);
    ConcatAt(ts, ThemeCol, k, j);
  }

  /** The walk succeeds exactly when every page gives a frame. */
  lemma {:induction false} PageTablesOk(s: Scraper, browse: string -> CnnPage, themes: seq<string>)
    ensures PageTables(s, browse, themes).Ok? <==>
              forall k :: 0 <= k < |themes| ==> PageTable(browse(s.url + themes[k]), themes[k]).Ok?
    decreases |themes|
  {
    if themes != [] {
      var init := themes[..|themes| - 1];
      PageTablesOk(s, browse, init);
      assert forall k :: 0 <= k < |init| ==> init[k] == themes[k];
    }
  }

  // ---------------------------------------------------------------- cleaning

  /** `_convert_to_datetime`: strips the text, replaces " às " by a space and
      parses `'%d/%m/%Y %H:%M'`; a missing date (`None`) raises
      AttributeError. */
  function ConvertTime(c: Cell): (r: Result<Cell>)
    ensures !c.Str? ==> r == Err(AttributeError)
    ensures r.Ok? ==> r.value.When? && Valid(r.value.dt)
  {
    if !c.Str? then Err(AttributeError)
    else
      match Strptime.Strptime(Replace(Strip(c.s), " às ", " "), DayMonthYearTime)
      case Err(e) => Err(e)
      case Ok(dt) => Ok(When(dt))
  }

  /** The date as CNN Brasil shows it: "dd/mm/yyyy às HH:MM". */
  function DisplayText(day: nat, month: nat, year: nat, hour: nat, minute: nat): string
    requires day < 100 && month < 100 && year < 10000 && hour < 100 && minute < 100
  {
    var s := DayMonthYearTimeText(day, month, year, hour, minute);
    s[..10] + " às " + s[11..]
  }

  /** One " às " between two fields without spaces becomes one space. */
  lemma ReplaceConnective(date: string, time: string)
    requires ' ' !in date && ' ' !in time
    ensures Replace(date + " às " + time, " às ", " ") == date + " " + time
  {
    assert date + " às " + time == date + (" às " + time);
    ReplaceSkip(date, " às " + time, " às ", " ");
    ReplaceFront(time, " às ", " ");
    MissingCharNotContained(time, " às ", ' ');
    ReplaceAbsent(time, " às ", " ");
  }

  /** A date and a time joined by " às ", without surrounding whitespace,
      are cleaned to the date and the time joined by a space. */
  lemma CleanedSpelling(date: string, time: string)
    requires ' ' !in date && ' ' !in time && |date| > 0 && |time| > 0
    requires !IsSpace(date[0]) && !IsSpace(time[|time| - 1])
    ensures Replace(Strip(date + " às " + time), " às ", " ") == date + " " + time
  {
    var text := date + " às " + time;
    assert text[0] == date[0] && text[|text| - 1] == time[|time| - 1];
    StripUnchanged(text);
    ReplaceConnective(date, time);
  }

  /** CNN's spelling of a `dd/mm/yyyy HH:MM` text is cleaned back to it. */
  lemma LayoutCleaned(s: string)
    requires Layout(s)
    ensures Replace(Strip(s[..10] + " às " + s[11..]), " às ", " ") == s
  {
    var date, time := s[..10], s[11..];
    assert ' ' !in date by {
      forall i | 0 <= i < 10 ensures date[i] != ' ' { assert date[i] == s[i]; }
    }
    assert ' ' !in time by {
      forall i | 0 <= i < 5 ensures time[i] != ' ' { assert time[i] == s[11 + i]; }
    }
    assert date[0] == s[0] && time[4] == s[15];
    CleanedSpelling(date, time);
    assert s[10..] == [' '] + time;
    assert s == date + s[10..];
  }

  /** Reading CNN's date text back gives the date and time it shows, and
      ValueError for a day, month, hour or minute out of range. */
  lemma DisplayRoundTrip(day: nat, month: nat, year: nat, hour: nat, minute: nat)
    requires day < 100 && month < 100 && year < 10000 && hour < 100 && minute < 100
    ensures var t := DateTime(year, month, day, hour, minute);
            ConvertTime(Str(DisplayText(day, month, year, hour, minute)))
            == if Valid(t) then Ok(When(t)) else Err(ValueError)
  {
    LayoutCleaned(DayMonthYearTimeText(day, month, year, hour, minute));
    DayMonthYearTimeRoundTrip(day, month, year, hour, minute);
  }

  /** `str.strip()` on one Title cell; pandas gives NaN for a cell that is
      not a string. */
  function StripTitle(c: Cell): (r: Result<Cell>)
    ensures r.Ok?
    ensures c.Str? ==> r.value == Str(Strip(c.s))
    ensures !c.Str? ==> r.value == Null
  {
    if c.Str? then Ok(Str(Strip(c.s))) else Ok(Null)
  }

  function TimeConverter(): Cell -> Result<Cell> {
    c => ConvertTime(c)
  }

  function TitleStripper(): Cell -> Result<Cell> {
    c => StripTitle(c)
  }

  /** `news_df['Time'] = news_df['Time'].apply(...)`. */
  function TimesConverted(t: Table): (r: Result<Table>)
    requires WellFormed(t)
    ensures r.Ok? ==> WellFormed(r.value)
  {
    match Lookup(t, TimeCol)
    case Err(e) => Err(e)
    case Ok(col) =>
      match Apply(col, TimeConverter())
      case Err(e) => Err(e)
      case Ok(converted) =>
        AssignedSpec(t, TimeCol, converted);
        Ok(Assigned(t, TimeCol, converted))
  }

  /** `news_df['Title'] = news_df['Title'].str.strip()`. */
  function TitlesStripped(t: Table): (r: Result<Table>)
    requires WellFormed(t)
  {
    match Lookup(t, TitleCol)
    case Err(e) => Err(e)
    case Ok(titles) =>
      match Apply(titles, TitleStripper())
      case Err(e) => Err(e)
      case Ok(stripped) => Ok(Assigned(t, TitleCol, stripped))
  }

  /** What `_data_cleaning` leaves: the Time column converted, then the
      Title column stripped; or the first exception a conversion raises. */
  function Cleaned(t: Table): Result<Table>
    requires WellFormed(t)
  {
    match TimesConverted(t)
    case Err(e) => Err(e)
    case Ok(u) => TitlesStripped(u)
  }

  /** Cleaning a frame with the three columns: it succeeds exactly when
      every date converts, raising the first failure's exception otherwise;
      each Time cell becomes its datetime, each title its stripped text,
      and the themes stay. */
  lemma CleanedSpec(t: Table)
    requires WellFormed(t) && t.names == Names
    ensures Cleaned(t).Ok? <==> forall i :: 0 <= i < t.height ==> ConvertTime(t.cols[TimeCol][i]).Ok?
    ensures Cleaned(t).Err? ==>
              exists i :: 0 <= i < t.height && ConvertTime(t.cols[TimeCol][i]) == Err(Cleaned(t).exc)
                          && forall j :: 0 <= j < i ==> ConvertTime(t.cols[TimeCol][j]).Ok?
    ensures Cleaned(t).Ok? ==>
              var u := Cleaned(t).value;
              WellFormed(u) && u.names == Names && u.height == t.height
              && u.cols[ThemeCol] == t.cols[ThemeCol]
              && forall i :: 0 <= i < t.height ==>
                   ConvertTime(t.cols[TimeCol][i]) == Ok(u.cols[TimeCol][i])
                   && StripTitle(t.cols[TitleCol][i]) == Ok(u.cols[TitleCol][i])
  {
    NamesDistinct();
    assert TitleCol != TimeCol && ThemeCol != TimeCol && ThemeCol != TitleCol;
    var f := TimeConverter();
    assert forall c :: f(c) == ConvertTime(c);
    var g := TitleStripper();
    assert forall c :: g(c) == StripTitle(c);
    match Apply(t.cols[TimeCol], f)
    case Err(e) => {
    }
    case Ok(converted) => {
      AssignedSpec(t, TimeCol, converted);
      var u := Assigned(t, TimeCol, converted);
      var stripped := Apply(u.cols[TitleCol], g).value;
      AssignedSpec(u, TitleCol, stripped);
    }
  }

  /** Stripping the cleaned titles again changes nothing. */
  lemma CleanedTitlesStripped(t: Table)
    requires WellFormed(t) && t.names == Names && Cleaned(t).Ok?
    ensures var u := Cleaned(t).value;
            forall i :: 0 <= i < u.height ==> StripTitle(u.cols[TitleCol][i]) == Ok(u.cols[TitleCol][i])
  {
    CleanedSpec(t);
    var u := Cleaned(t).value;
    forall i | 0 <= i < u.height
      ensures StripTitle(u.cols[TitleCol][i]) == Ok(u.cols[TitleCol][i])
    {
      var c := t.cols[TitleCol][i];
      if c.Str? {
        StripIdempotent(c.s);
      }
    }
  }

  /** `_data_cleaning`: overwrites the Time and then the Title column in
      place. */
  method DataCleaning(df: Frame) returns (raised: Option<Exc>)
    requires df.Valid()
    modifies df
    ensures df.Valid()
    ensures raised.None? ==> Cleaned(old(df.Value())) == Ok(df.Value())
    ensures raised.Some? ==> Cleaned(old(df.Value())) == Err(raised.value)
    ensures raised.Some? ==>
              (TimesConverted(old(df.Value())).Err? && df.Value() == old(df.Value()))
              || (TimesConverted(old(df.Value())).Ok? && df.Value() == TimesConverted(old(df.Value())).value)
  {
    ghost var t0 := df.Value();
    var col := df.Get(TimeCol);
    if col.Err? {
      return Some(col.exc);
    }
    var converted := Apply(col.value, TimeConverter());
    if converted.Err? {
      return Some(converted.exc);
    }
    df.SetColumn(TimeCol, converted.value);
    assert TimesConverted(t0) == Ok(df.Value());
    var titles := df.Get(TitleCol);
    if titles.Err? {
      return Some(titles.exc);
    }
    var stripped := Apply(titles.value, TitleStripper());
    if stripped.Err? {
      return Some(stripped.exc);
    }
    df.SetColumn(TitleCol, stripped.value);
    raised := None;
  }

  // ---------------------------------------------------------------- scrap_news

  /** The frame `scrap_news` returns. */
  function Scraped(s: Scraper, browse: string -> CnnPage): Result<Table> {
    match ScrapedData(s, browse)
    case Err(e) => Err(e)
    case Ok(t) =>
      ScrapedDataSpec(s, browse);
      Cleaned(t)
  }

  /** `scrap_news`: scrapes every theme page, then cleans the result on a
      frame object. */
  method ScrapNews(s: Scraper, browse: string -> CnnPage) returns (r: Result<Table>)
    ensures r == Scraped(s, browse)
  {
    var data := GetScrapedData(s, browse);
    if data.Err? {
      return Err(data.exc);
    }
    ScrapedDataSpec(s, browse);
    var df := new Frame(data.value);
    var raised := DataCleaning(df);
    if raised.Some? {
      return Err(raised.value);
    }
    r := Ok(df.Value());
  }
}
