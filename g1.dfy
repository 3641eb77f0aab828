/** `G1NewsScraper` (src/scrapers.py): the news items of the G1 front page
    as five columns, and the relative times ("Há 3 horas") turned into
    times. A time is counted in whole seconds since 0001-01-01 00:00, the
    first instant `datetime` represents; `now` stands for `datetime.now()`. */
module G1 {
  import opened Py
  import opened Calendar
  import opened Frames
  import opened Pages

  const Url: string := "https://g1.globo.com/"

  /** The column names of the scraped frame, in order. */
  const Names: seq<string> := [TitleCol, TimeCol, ThemeCol, HeaderCol, ResumeCol]

  const TitleCol: string := "Title"
  const TimeCol: string := "Time"
  const ThemeCol: string := "Theme"
  const HeaderCol: string := "Header"
  const ResumeCol: string := "Resume"

  /** The attributes `__init__` gives the scraper object: `url` and
      `n_scroll`. */
  datatype Scraper = Scraper(url: string, nScroll: int)

  datatype AttrValue = Text(s: string) | Number(n: int)

  /** `G1NewsScraper(n_scrolls)`. */
  function NewScraper(nScrolls: int): Scraper {
    Scraper(Url, nScrolls)
  }

  /** `self.<name>` for an instance data attribute: AttributeError for a
      name `__init__` did not set, such as `n_scrolls`. The class's methods
      and the attributes every object inherits are not modelled. */
  function Attribute(s: Scraper, name: string): (r: Result<AttrValue>)
    ensures r.Ok? <==> name == "url" || name == "n_scroll"
  {
    if name == "url" then Ok(Text(s.url))
    else if name == "n_scroll" then Ok(Number(s.nScroll))
    else Err(AttributeError)
  }

  // ---------------------------------------------------------------- items

  /** The items of all blocks, block after block. */
  function Items(page: G1Page): seq<G1Item> {
    if page == [] then [] else Items(page[..|page| - 1]) + page[|page| - 1]
  }

  lemma {:induction false} ItemsAppend(a: G1Page, b: G1Page)
    ensures Items(a + b) == Items(a) + Items(b)
    decreases |b|
  {
    if b == [] {
      assert a + b == a;
    } else {
      var b' := b[..|b| - 1];
      assert (a + b)[..|a + b| - 1] == a + b';
      assert (a + b)[|a + b| - 1] == b[|b| - 1];
      assert Items(a + b) == Items(a + b') + b[|b| - 1];
      assert Items(b) == Items(b') + b[|b| - 1];
      ItemsAppend(a, b');
      assert Items(a + b) == Items(a) + (Items(b') + b[|b| - 1]);
    }
  }

  /** Item `j` of block `k` is row `|Items(page[..k])| + j`: rows follow the
      blocks' order, and the items' order within each block. */
  lemma ItemsAt(page: G1Page, k: nat, j: nat)
    requires k < |page| && j < |page[k]|
    ensures |Items(page[..k])| + j < |Items(page)|
    ensures Items(page)[|Items(page[..k])| + j] == page[k][j]
  {
    assert page == page[..k] + [page[k]] + page[k + 1..];
    ItemsAppend(page[..k] + [page[k]], page[k + 1..]);
    ItemsAppend(page[..k], [page[k]]);
    assert Items([page[k]]) == page[k] by {
      assert [page[k]][..0] == [];
    }
  }

  datatype Part = TitlePart | TimePart | ThemePart | HeaderPart | ResumePart

  function PartOf(item: G1Item, p: Part): Option<string> {
    match p
    case TitlePart => item.title
    case TimePart => item.time
    case ThemePart => item.theme
    case HeaderPart => item.header
    case ResumePart => item.resume
  }

  /** One cell per item: the text found, or `None`. */
  function Cells(items: seq<G1Item>, p: Part): (col: seq<Cell>)
    ensures |col| == |items|
  {
    seq(|items|, i requires 0 <= i < |items| => TextCell(PartOf(items[i], p)))
  }

  lemma CellsAt(items: seq<G1Item>, p: Part, i: nat)
    requires i < |items|
    ensures Cells(items, p)[i] == TextCell(PartOf(items[i], p))
  {
  }

  lemma CellsSnoc(items: seq<G1Item>, item: G1Item, p: Part)
    ensures Cells(items + [item], p) == Cells(items, p) + [TextCell(PartOf(item, p))]
  {
    assert forall i :: 0 <= i < |items| ==> (items + [item])[i] == items[i];
  }

  predicate TitlesPresent(items: seq<G1Item>) {
    forall i :: 0 <= i < |items| ==> items[i].title.Some?
  }

  /** The five lists `_get_scraped_news` fills, in column order. */
  function Lists(items: seq<G1Item>): seq<seq<Cell>> {
    [Cells(items, TitlePart), Cells(items, TimePart), Cells(items, ThemePart),
     Cells(items, HeaderPart), Cells(items, ResumePart)]
  }

  /** What `_get_scraped_news` returns for `page`: AttributeError when an
      item lacks its title link (`title.text` on `None`), otherwise the frame
      of the five columns. */
  function NewsTable(page: G1Page): Result<Table> {
    var items := Items(page);
    if !TitlesPresent(items) then Err(AttributeError)
    else FromColumns(Names, Lists(items))
  }

  lemma NamesDistinct()
    ensures Distinct(Names)
  {
    assert TitleCol[2] == 't' && TimeCol[2] == 'm' && ThemeCol[1] == 'h' && TitleCol[1] == 'i' && TimeCol[1] == 'i';
    assert HeaderCol[0] == 'H' && ResumeCol[0] == 'R' && TitleCol[0] == 'T' && TimeCol[0] == 'T' && ThemeCol[0] == 'T';
  }

  lemma ListsTable(items: seq<G1Item>)
    ensures FromColumns(Names, Lists(items)).Ok?
    ensures var t := FromColumns(Names, Lists(items)).value;
            WellFormed(t) && t.names == Names && t.height == |items|
            && t.cols[TitleCol] == Cells(items, TitlePart) && t.cols[TimeCol] == Cells(items, TimePart)
            && t.cols[ThemeCol] == Cells(items, ThemePart) && t.cols[HeaderCol] == Cells(items, HeaderPart)
            && t.cols[ResumeCol] == Cells(items, ResumePart)
  {
    var lists := Lists(items);
    NamesDistinct();
    assert SameLength(lists, |lists[0]|);
    FromColumnsSpec(Names, lists);
    var t := FromColumns(Names, lists).value;
    assert t.cols[Names[0]] == lists[0] && t.cols[Names[1]] == lists[1] && t.cols[Names[2]] == lists[2];
    assert t.cols[Names[3]] == lists[3] && t.cols[Names[4]] == lists[4];
  }

  /** The frame exists exactly when every item has a title; it then has one
      row per item, in order, with five columns of that length, the item's
      title and its other fields or `None` where they are missing. */
  lemma NewsTableSpec(page: G1Page)
    ensures NewsTable(page).Ok? <==> TitlesPresent(Items(page))
    ensures NewsTable(page).Ok? ==>
              var t := NewsTable(page).value;
              var items := Items(page);
              WellFormed(t) && t.names == Names && t.height == |items|
              && forall i :: 0 <= i < |items| ==>
                   t.cols[TitleCol][i] == Str(items[i].title.value)
                   && t.cols[TimeCol][i] == TextCell(items[i].time)
                   && t.cols[ThemeCol][i] == TextCell(items[i].theme)
                   && t.cols[HeaderCol][i] == TextCell(items[i].header)
                   && t.cols[ResumeCol][i] == TextCell(items[i].resume)
  {
    var items := Items(page);
    if TitlesPresent(items) {
      ListsTable(items);
      Rows(items, NewsTable(page).value);
    }
  }

  /** Row `i` of the five columns holds item `i`'s fields. */
  lemma Rows(items: seq<G1Item>, t: Table)
    requires TitlesPresent(items)
    requires TitleCol in t.cols && t.cols[TitleCol] == Cells(items, TitlePart)
    requires TimeCol in t.cols && t.cols[TimeCol] == Cells(items, TimePart)
    requires ThemeCol in t.cols && t.cols[ThemeCol] == Cells(items, ThemePart)
    requires HeaderCol in t.cols && t.cols[HeaderCol] == Cells(items, HeaderPart)
    requires ResumeCol in t.cols && t.cols[ResumeCol] == Cells(items, ResumePart)
    ensures forall i :: 0 <= i < |items| ==>
              t.cols[TitleCol][i] == Str(items[i].title.value)
              && t.cols[TimeCol][i] == TextCell(items[i].time)
              && t.cols[ThemeCol][i] == TextCell(items[i].theme)
              && t.cols[HeaderCol][i] == TextCell(items[i].header)
              && t.cols[ResumeCol][i] == TextCell(items[i].resume)
  {
    forall i | 0 <= i < |items|
      ensures t.cols[TitleCol][i] == Str(items[i].title.value)
      ensures t.cols[TimeCol][i] == TextCell(items[i].time)
      ensures t.cols[ThemeCol][i] == TextCell(items[i].theme)
      ensures t.cols[HeaderCol][i] == TextCell(items[i].header)
      ensures t.cols[ResumeCol][i] == TextCell(items[i].resume)
    {
      CellsAt(items, TitlePart, i);
      CellsAt(items, TimePart, i);
      CellsAt(items, ThemePart, i);
      CellsAt(items, HeaderPart, i);
      CellsAt(items, ResumePart, i);
    }
  }

  /** `_get_scraped_news`: walks the blocks and their items, appending each
      field to its list; a missing title aborts the walk. */
  method GetScrapedNews(page: G1Page) returns (r: Result<Table>)
    ensures r == NewsTable(page)
  {
    var titles: seq<Cell> := [];
    var times: seq<Cell> := [];
    var themes: seq<Cell> := [];
    var headers: seq<Cell> := [];
    var resumes: seq<Cell> := [];
    var b := 0;
    while b < |page|
      invariant 0 <= b <= |page|
      invariant TitlesPresent(Items(page[..b]))
      invariant titles == Cells(Items(page[..b]), TitlePart)
      invariant times == Cells(Items(page[..b]), TimePart)
      invariant themes == Cells(Items(page[..b]), ThemePart)
      invariant headers == Cells(Items(page[..b]), HeaderPart)
      invariant resumes == Cells(Items(page[..b]), ResumePart)
    {
      var news := page[b];
      var done := Items(page[..b]);
      var i := 0;
      while i < |news|
        invariant 0 <= i <= |news|
        invariant TitlesPresent(done + news[..i])
        invariant titles == Cells(done + news[..i], TitlePart)
        invariant times == Cells(done + news[..i], TimePart)
        invariant themes == Cells(done + news[..i], ThemePart)
        invariant headers == Cells(done + news[..i], HeaderPart)
        invariant resumes == Cells(done + news[..i], ResumePart)
      {
        var item := news[i];
        if item.title.None? {
          ItemsAt(page, b, i);
          return Err(AttributeError);
        }
        assert news[..i + 1] == news[..i] + [item];
        assert done + news[..i + 1] == (done + news[..i]) + [item];
        CellsSnoc(done + news[..i], item, TitlePart);
        CellsSnoc(done + news[..i], item, TimePart);
        CellsSnoc(done + news[..i], item, ThemePart);
        CellsSnoc(done + news[..i], item, HeaderPart);
        CellsSnoc(done + news[..i], item, ResumePart);
        titles := titles + [Str(item.title.value)];
        headers := headers + [TextCell(item.header)];
        times := times + [TextCell(item.time)];
        themes := themes + [TextCell(item.theme)];
        resumes := resumes + [TextCell(item.resume)];
        i := i + 1;
      }
      assert page[..b + 1][..b] == page[..b];
      assert news[..|news|] == news;
      b := b + 1;
    }
    assert page[..|page|] == page;
    assert [titles, times, themes, headers, resumes] == Lists(Items(page));
    r := FromColumns(Names, [titles, times, themes, headers, resumes]);
  }

  // ---------------------------------------------------------------- times

  /** 10000-01-01 00:00 in seconds: every representable time lies before it. */
  function EndSeconds(): int {
    MaxOrdinal() * 86400
  }

  /** `now - timedelta(seconds=secs)`: the timedelta's day count must stay
      within 999999999 either way and the result within the years 1..9999,
      otherwise OverflowError. */
  function Ago(now: int, secs: int): (r: Result<Cell>)
    ensures r.Ok? <==> -999999999 <= secs / 86400 <= 999999999 && 0 <= now - secs < EndSeconds()
    ensures r.Ok? ==> r.value == Seconds(now - secs)
    ensures r.Err? ==> r.exc == OverflowError
  {
    if secs / 86400 < -999999999 || secs / 86400 > 999999999 then Err(OverflowError)
    else if 0 <= now - secs < EndSeconds() then Ok(Seconds(now - secs))
    else Err(OverflowError)
  }

  /** `int(time_str.split(' ')[1])` units of `unit` seconds before now. */
  function UnitsAgo(now: int, s: string, unit: int): Result<Cell> {
    var parts := Split(s, ' ');
    if |parts| < 2 then Err(IndexError)
    else match PyInt(parts[1])
      case Err(e) => Err(e)
      case Ok(n) => Ago(now, n * unit)
  }

  predicate HasKeyword(s: string) {
    Contains(s, "hora") || Contains(s, "horas") || Contains(s, "minuto") || Contains(s, "minutos")
    || Contains(s, "dia") || Contains(s, "dias") || Contains(s, "mês") || Contains(s, "meses")
  }

  /** `_convert_to_datetime`: the first keyword found, in the order hours,
      minutes, days, months, decides the unit; a month is 30 days. The
      result is `None` exactly when there is no keyword, and otherwise a
      representable time; `None` itself raises TypeError (`'hora' in None`). */
  function ConvertTime(now: int, c: Cell): (r: Result<Cell>)
    ensures !c.Str? ==> r == Err(TypeError)
    ensures r == Ok(Null) <==> c.Str? && !HasKeyword(c.s)
    ensures r.Ok? && r.value != Null ==> r.value.Seconds? && 0 <= r.value.t < EndSeconds()
  {
    if !c.Str? then Err(TypeError)
    else
      var s := c.s;
      if Contains(s, "hora") || Contains(s, "horas") then UnitsAgo(now, s, 3600)
      else if Contains(s, "minuto") || Contains(s, "minutos") then UnitsAgo(now, s, 60)
      else if Contains(s, "dia") || Contains(s, "dias") then UnitsAgo(now, s, 86400)
      else if Contains(s, "mês") || Contains(s, "meses") then UnitsAgo(now, s, 30 * 86400)
      else Ok(Null)
  }

  /** The units G1 writes. */
  datatype Unit = Hours | Minutes | Days | Months

  function Word(u: Unit, plural: bool): string {
    match u
    case Hours => if plural then "horas" else "hora"
    case Minutes => if plural then "minutos" else "minuto"
    case Days => if plural then "dias" else "dia"
    case Months => if plural then "meses" else "mês"
  }

  function UnitSeconds(u: Unit): int {
    match u
    case Hours => 3600
    case Minutes => 60
    case Days => 86400
    case Months => 30 * 86400
  }
  /** A phrase of G1's shape with `count` in the middle. */
  function Sentence(count: string, u: Unit, plural: bool): string {
    "Há" + [' '] + count + [' '] + Word(u, plural)
  }

  /** The phrase G1 shows: "Há 3 horas". */
  function Phrase(n: nat, u: Unit, plural: bool): string {
    Sentence(Decimal(n), u, plural)
  }

  lemma SplitPhrase(n: nat, u: Unit, plural: bool)
    ensures Split(Phrase(n, u, plural), ' ') == ["Há", Decimal(n), Word(u, plural)]
  {
    var d := Decimal(n);
    assert ' ' !in d by {
      forall i | 0 <= i < |d| ensures d[i] != ' ' { assert IsDigit(d[i]); }
    }
    assert ' ' !in Word(u, plural);
    SplitThree("Há", d, Word(u, plural), ' ');
  }

  /** A character that occurs in none of the phrase's parts. */
  lemma NotInPhrase(n: nat, u: Unit, plural: bool, c: char, sub: string)
    requires c in sub && !IsDigit(c) && c != ' ' && c !in "Há" && c !in Word(u, plural)
    ensures !Contains(Phrase(n, u, plural), sub)
  {
    var d := Decimal(n);
    assert c !in d by {
      forall i | 0 <= i < |d| ensures d[i] != c { assert IsDigit(d[i]); }
    }
    assert c !in Phrase(n, u, plural);
    MissingCharNotContained(Phrase(n, u, plural), sub, c);
  }

  lemma EndsWithWord(count: string, u: Unit, plural: bool)
    ensures Contains(Sentence(count, u, plural), Word(u, plural))
  {
    var s := Sentence(count, u, plural);
    var w := Word(u, plural);
    assert s[|s| - |w|..] == w;
    assert OccursAt(s, w, |s| - |w|);
  }

  /** The keyword test picks the phrase's own unit: no earlier keyword
      occurs in it. */
  lemma PhraseKeyword(now: int, n: nat, u: Unit, plural: bool)
    ensures ConvertTime(now, Str(Phrase(n, u, plural))) == UnitsAgo(now, Phrase(n, u, plural), UnitSeconds(u))
  {
    var s := Phrase(n, u, plural);
    EndsWithWord(Decimal(n), u, plural);
    PluralHoldsSingular(s);
    if u != Hours {
      NotInPhrase(n, u, plural, 'r', "hora");
      NotInPhrase(n, u, plural, 'r', "horas");
      if u != Minutes {
        NotInPhrase(n, u, plural, 'u', "minuto");
        NotInPhrase(n, u, plural, 'u', "minutos");
        if u != Days {
          NotInPhrase(n, u, plural, 'i', "dia");
          NotInPhrase(n, u, plural, 'i', "dias");
        }
      }
    }
  }

  lemma PhraseCount(now: int, n: nat, u: Unit, plural: bool, unit: int)
    ensures UnitsAgo(now, Phrase(n, u, plural), unit) == Ago(now, n * unit)
  {
    SplitPhrase(n, u, plural);
    PyIntDecimal(n);
  }

  /** Reading a phrase back: "Há N <unit>" gives exactly `now` minus N
      units, in the singular and in the plural, for every unit. */
  lemma PhraseRoundTrip(now: int, n: nat, u: Unit, plural: bool)
    ensures ConvertTime(now, Str(Phrase(n, u, plural))) == Ago(now, n * UnitSeconds(u))
  {
    PhraseKeyword(now, n, u, plural);
    PhraseCount(now, n, u, plural, UnitSeconds(u));
  }

  /** "Há N meses" is read as "Há 30·N dias": a fixed 30-day month, not a
      calendar month. */
  lemma MonthIsThirtyDays(now: int, n: nat)
    ensures ConvertTime(now, Str(Phrase(n, Months, true))) == ConvertTime(now, Str(Phrase(30 * n, Days, true)))
    ensures ConvertTime(now, Str(Phrase(n, Months, false))) == ConvertTime(now, Str(Phrase(30 * n, Days, true)))
  {
    PhraseRoundTrip(now, n, Months, true);
    PhraseRoundTrip(now, n, Months, false);
    PhraseRoundTrip(now, 30 * n, Days, true);
    assert n * (30 * 86400) == (30 * n) * 86400;
  }

  /** The plural tests are redundant for hours, minutes and days: a string
      holding the plural holds the singular. Only "meses" adds a case. */
  lemma PluralHoldsSingular(s: string)
    ensures Contains(s, "horas") ==> Contains(s, "hora")
    ensures Contains(s, "minutos") ==> Contains(s, "minuto")
    ensures Contains(s, "dias") ==> Contains(s, "dia")
  {
    if Contains(s, "horas") {
      var i :| 0 <= i <= |s| - 5 && OccursAt(s, "horas", i);
      assert s[i..i + 4] == s[i..i + 5][..4];
      assert OccursAt(s, "hora", i);
    }
    if Contains(s, "minutos") {
      var i :| 0 <= i <= |s| - 7 && OccursAt(s, "minutos", i);
      assert s[i..i + 6] == s[i..i + 7][..6];
      assert OccursAt(s, "minuto", i);
    }
    if Contains(s, "dias") {
      var i :| 0 <= i <= |s| - 4 && OccursAt(s, "dias", i);
      assert s[i..i + 3] == s[i..i + 4][..3];
      assert OccursAt(s, "dia", i);
    }
  }

  /** A keyword with no second field raises IndexError rather than giving
      `None`. */
  lemma MissingCountRaises(now: int, s: string)
    requires ' ' !in s && HasKeyword(s)
    ensures ConvertTime(now, Str(s)) == Err(IndexError)
  {
    assert Split(s, ' ') == [s];
  }

  /** One instance of NonIntegerCountRaises: a count spelt as a word is
      not an integer. */
  lemma WordIsNotInt()
    ensures PyInt("uma") == Err(ValueError)
  {
    StripUnchanged("uma");
    assert !IsDigit("uma"[0]);
  }

  lemma SplitSentence(count: string, u: Unit, plural: bool)
    requires ' ' !in count
    ensures Split(Sentence(count, u, plural), ' ')[1] == count
  {
    assert ' ' !in Word(u, plural);
    SplitThree("Há", count, Word(u, plural), ' ');
  }

  lemma HoursFirst(now: int, count: string, plural: bool)
    ensures ConvertTime(now, Str(Sentence(count, Hours, plural))) == UnitsAgo(now, Sentence(count, Hours, plural), 3600)
  {
    EndsWithWord(count, Hours, plural);
    PluralHoldsSingular(Sentence(count, Hours, plural));
  }

  /** A count `int()` rejects raises its ValueError: "Há uma hora". */
  lemma NonIntegerCountRaises(now: int, count: string, plural: bool)
    requires ' ' !in count && PyInt(count).Err?
    ensures ConvertTime(now, Str(Sentence(count, Hours, plural))) == Err(PyInt(count).exc)
  {
    HoursFirst(now, count, plural);
    SplitSentence(count, Hours, plural);
  }

  // ---------------------------------------------------------------- cleaning

  function Converter(now: int): Cell -> Result<Cell> {
    c => ConvertTime(now, c)
  }

  /** What `_data_cleaning` leaves: the Time column converted, or the first
      exception a conversion raises. */
  function Cleaned(t: Table, now: int): Result<Table>
    requires WellFormed(t)
  {
    match Lookup(t, TimeCol)
    case Err(e) => Err(e)
    case Ok(col) =>
      match Apply(col, Converter(now))
      case Err(e) => Err(e)
      case Ok(converted) => Ok(Assigned(t, TimeCol, converted))
  }

  /** `_data_cleaning`: overwrites the Time column in place; when a
      conversion raises, the frame is left as it was. */
  method DataCleaning(df: Frame, now: int) returns (raised: Option<Exc>)
    requires df.Valid()
    modifies df
    ensures df.Valid()
    ensures raised.None? ==> Cleaned(old(df.Value()), now) == Ok(df.Value())
    ensures raised.Some? ==> Cleaned(old(df.Value()), now) == Err(raised.value) && df.Value() == old(df.Value())
  {
    var col := df.Get(TimeCol);
    if col.Err? {
      return Some(col.exc);
    }
    var converted := Apply(col.value, Converter(now));
    if converted.Err? {
      return Some(converted.exc);
    }
    df.SetColumn(TimeCol, converted.value);
    raised := None;
  }

  /** The frame `scrap_news` returns once the page has been scrolled. */
  function Scraped(page: G1Page, now: int): Result<Table> {
    match NewsTable(page)
    case Err(e) => Err(e)
    case Ok(t) =>
      NewsTableSpec(page);
      Cleaned(t, now)
  }

  /** Extraction then cleaning, on a frame object as the source does it. */
  method ScrapePage(page: G1Page, now: int) returns (r: Result<Table>)
    ensures r == Scraped(page, now)
  {
    var t := GetScrapedNews(page);
    if t.Err? {
      return Err(t.exc);
    }
    NewsTableSpec(page);
    var df := new Frame(t.value);
    var raised := DataCleaning(df, now);
    if raised.Some? {
      return Err(raised.value);
    }
    r := Ok(df.Value());
  }

  /** Cleaning converts every Time cell, in order, and raises the first
      exception a conversion raises; the other columns stay as they were. */
  lemma CleanedSpec(t: Table, now: int)
    requires WellFormed(t) && TimeCol in t.names
    ensures Cleaned(t, now).Ok? <==> forall i :: 0 <= i < t.height ==> ConvertTime(now, t.cols[TimeCol][i]).Ok?
    ensures Cleaned(t, now).Err? ==>
              exists i :: 0 <= i < t.height && ConvertTime(now, t.cols[TimeCol][i]) == Err(Cleaned(t, now).exc)
                          && forall j :: 0 <= j < i ==> ConvertTime(now, t.cols[TimeCol][j]).Ok?
    ensures Cleaned(t, now).Ok? ==>
              var u := Cleaned(t, now).value;
              WellFormed(u) && u.names == t.names && u.height == t.height
              && (forall i :: 0 <= i < t.height ==> ConvertTime(now, t.cols[TimeCol][i]) == Ok(u.cols[TimeCol][i]))
              && forall n :: n in t.cols && n != TimeCol ==> u.cols[n] == t.cols[n]
  {
    var col := t.cols[TimeCol];
    var f := Converter(now);
    assert forall c :: f(c) == ConvertTime(now, c);
    match Apply(col, f)
    case Err(e) => {
    }
    case Ok(converted) => {
      AssignedSpec(t, TimeCol, converted);
    }
  }

  /** The scraped rows: a missing title raises AttributeError; otherwise
      each row's Time is its item's phrase converted, the first failing
      conversion (a missing time, a missing or non-integer count, an
      overflow) raising instead, and the other columns are as extracted. */
  lemma ScrapedSpec(page: G1Page, now: int)
    ensures !TitlesPresent(Items(page)) ==> Scraped(page, now) == Err(AttributeError)
    ensures TitlesPresent(Items(page)) ==>
              (Scraped(page, now).Ok? <==> forall i :: 0 <= i < |Items(page)| ==> ConvertTime(now, TextCell(Items(page)[i].time)).Ok?)
    ensures TitlesPresent(Items(page)) && Scraped(page, now).Err? ==>
              exists i :: 0 <= i < |Items(page)| && ConvertTime(now, TextCell(Items(page)[i].time)) == Err(Scraped(page, now).exc)
                          && forall j :: 0 <= j < i ==> ConvertTime(now, TextCell(Items(page)[j].time)).Ok?
    ensures Scraped(page, now).Ok? ==>
              var t := Scraped(page, now).value;
              var items := Items(page);
              WellFormed(t) && t.names == Names && t.height == |items|
              && forall i :: 0 <= i < |items| ==>
                   ConvertTime(now, TextCell(items[i].time)) == Ok(t.cols[TimeCol][i])
                   && t.cols[TitleCol][i] == Str(items[i].title.value)
                   && t.cols[HeaderCol][i] == TextCell(items[i].header)
                   && t.cols[ResumeCol][i] == TextCell(items[i].resume)
                   && t.cols[ThemeCol][i] == TextCell(items[i].theme)
  {
    NewsTableSpec(page);
    if TitlesPresent(Items(page)) {
      var t := NewsTable(page).value;
      NamesDistinct();
      assert TimeCol in Names && TitleCol != TimeCol && HeaderCol != TimeCol;
      assert ResumeCol != TimeCol && ThemeCol != TimeCol;
      CleanedSpec(t, now);
      assert Scraped(page, now) == Cleaned(t, now);
    }
  }

  // ---------------------------------------------------------------- scrap_news

  /** `range(self.<attr>)`: the number of scrolls; AttributeError for an
      attribute the object lacks, TypeError for the url string. */
  function ScrollCount(s: Scraper, attr: string): (r: Result<int>)
    ensures r.Ok? <==> attr == "n_scroll"
  {
    match Attribute(s, attr)
    case Err(e) => Err(e)
    case Ok(Text(_)) => Err(TypeError)
    case Ok(Number(n)) => Ok(n)
  }

  /** `scrap_news` with `_scroll_page` reading the attribute `attr`. */
  method ScrapNewsReading(s: Scraper, attr: string, page: G1Page, now: int) returns (r: Result<Table>)
    ensures ScrollCount(s, attr).Err? ==> r == Err(ScrollCount(s, attr).exc)
    ensures ScrollCount(s, attr).Ok? ==> r == Scraped(page, now)
  {
    var n := ScrollCount(s, attr);
    if n.Err? {
      return Err(n.exc);
    }
    r := ScrapePage(page, now);
  }

  /** `scrap_news` as written: `_scroll_page` reads `self.n_scrolls`, an
      attribute `__init__` never sets (it sets `n_scroll`), so every call
      raises AttributeError before anything is extracted. */
  method ScrapNews(s: Scraper, page: G1Page, now: int) returns (r: Result<Table>)
    ensures r == Err(AttributeError)
  {
    r := ScrapNewsReading(s, "n_scrolls", page, now);
  }

  /** `scrap_news` reading the attribute `__init__` sets: the page, scrolled
      `n_scroll` times, is extracted and cleaned. */
  method ScrapNewsIntended(s: Scraper, page: G1Page, now: int) returns (r: Result<Table>)
    ensures r == Scraped(page, now)
  {
    r := ScrapNewsReading(s, "n_scroll", page, now);
  }
}
