/** `scrap_websites` (src/application.py): both scrapers' frames, each row
    tagged with its source in a `Font` column, concatenated with the outer
    join of their columns. */
module Application {
  import opened Py
  import opened Frames
  import opened Pages
  import G1
  import Cnn

  const FontCol: string := "Font"

  /** The sources, in the order the dict literal lists them. */
  const Fonts: seq<string> := [G1Font, CnnFont]
  const G1Font: string := "G1"
  const CnnFont: string := "CNN"

  /** The default number of scrolls of both constructors. */
  const DefaultScrolls := 10

  /** The columns of the combined frame: G1's five, then `Font`. */
  const Columns: seq<string> := [G1.TitleCol, G1.TimeCol, G1.ThemeCol, G1.HeaderCol, G1.ResumeCol, FontCol]

  /** What G1's `scrap_news` returns, for the default scraper whose
      `_scroll_page` reads `attr`. */
  function G1Source(attr: string, page: G1Page, now: int): (r: Result<Table>)
    ensures r.Ok? ==> WellFormed(r.value) && r.value.names == G1.Names
  {
    match G1.ScrollCount(G1.NewScraper(DefaultScrolls), attr)
    case Err(e) => Err(e)
    case Ok(_) =>
      G1.ScrapedSpec(page, now);
      G1.Scraped(page, now)
  }

  /** What CNN Brasil's `scrap_news` returns, for the default scraper. */
  function CnnSource(browse: string -> CnnPage): (r: Result<Table>)
    ensures r.Ok? ==> WellFormed(r.value) && r.value.names == Cnn.Names
  {
    var s := Cnn.NewScraper(DefaultScrolls);
    Cnn.ScrapedDataSpec(s, browse);
    match Cnn.ScrapedData(s, browse)
    case Err(e) => Err(e)
    case Ok(t) =>
      Cnn.CleanedSpec(t);
      Cnn.Scraped(s, browse)
  }

  /** Each scraper's result, in the order of `Fonts`. */
  function Sources(attr: string, page: G1Page, now: int, browse: string -> CnnPage): (rs: seq<Result<Table>>)
    ensures |rs| == |Fonts| && SourcesWellFormed(rs)
  {
    [G1Source(attr, page, now), CnnSource(browse)]
  }

  ghost predicate SourcesWellFormed(rs: seq<Result<Table>>) {
    forall k :: 0 <= k < |rs| && rs[k].Ok? ==> WellFormed(rs[k].value)
  }

  /** `news_df['Font'] = font`. */
  function Tagged(t: Table, font: string): (u: Table)
    requires WellFormed(t)
    ensures WellFormed(u) && u.height == t.height
  {
    AssignedSpec(t, FontCol, Broadcast(Str(font), t.height));
    Assigned(t, FontCol, Broadcast(Str(font), t.height))
  }

  /** The tagged frames of the first `n` sources; the first source that
      raises ends the walk. */
  function TaggedFrames(rs: seq<Result<Table>>, n: nat): (r: Result<seq<Table>>)
    requires n <= |rs| <= |Fonts| && SourcesWellFormed(rs)
    ensures r.Ok? ==> |r.value| == n && AllWellFormed(r.value)
  {
    if n == 0 then Ok([])
    else
      match TaggedFrames(rs, n - 1)
      case Err(e) => Err(e)
      case Ok(ts) =>
        match rs[n - 1]
        case Err(e) => Err(e)
        case Ok(t) => Ok(ts + [Tagged(t, Fonts[n - 1])])
  }

  /** One more source: its exception, or its tagged frame appended. */
  lemma TaggedNext(rs: seq<Result<Table>>, k: nat, ts: seq<Table>)
    requires k < |rs| <= |Fonts| && SourcesWellFormed(rs)
    requires TaggedFrames(rs, k) == Ok(ts)
    ensures rs[k].Err? ==> TaggedFrames(rs, k + 1) == Err(rs[k].exc)
    ensures rs[k].Ok? ==> TaggedFrames(rs, k + 1) == Ok(ts + [Tagged(rs[k].value, Fonts[k])])
  {
  }

  /** Once a source raises, the walk raises that exception. */
  lemma TaggedStops(rs: seq<Result<Table>>, k: nat)
    requires 0 < k <= |rs| == |Fonts| && SourcesWellFormed(rs)
    requires TaggedFrames(rs, k).Err?
    ensures TaggedFrames(rs, |Fonts|) == TaggedFrames(rs, k)
  {
  }

  /** What `scrap_websites` returns given what the scrapers return. */
  function Combined(rs: seq<Result<Table>>): Result<Table>
    requires |rs| == |Fonts| && SourcesWellFormed(rs)
  {
    match TaggedFrames(rs, |Fonts|)
    case Err(e) => Err(e)
    case Ok(ts) => Ok(ConcatAll(ts))
  }

  /** `scraper.scrap_news(driver)` for source `k`. */
  method ScrapSource(attr: string, page: G1Page, now: int, browse: string -> CnnPage, k: nat) returns (r: Result<Table>)
    requires k < |Fonts|
    ensures r == Sources(attr, page, now, browse)[k]
  {
    if k == 0 {
      r := G1.ScrapNewsReading(G1.NewScraper(DefaultScrolls), attr, page, now);
    } else {
      r := Cnn.ScrapNews(Cnn.NewScraper(DefaultScrolls), browse);
    }
  }

  /** `scrap_websites` with G1's `_scroll_page` reading `attr`: scrapes the
      sources in order, tags each frame with its source and concatenates
      them. */
  method ScrapWebsitesReading(attr: string, page: G1Page, now: int, browse: string -> CnnPage) returns (r: Result<Table>)
    ensures r == Combined(Sources(attr, page, now, browse))
  {
    ghost var rs := Sources(attr, page, now, browse);
    var scrapedNewsDfs: seq<Table> := [];
    var k := 0;
    while k < |Fonts|
      invariant 0 <= k <= |Fonts|
      invariant TaggedFrames(rs, k) == Ok(scrapedNewsDfs)
    {
      var font := Fonts[k];
      var newsDf := ScrapSource(attr, page, now, browse, k);
      TaggedNext(rs, k, scrapedNewsDfs);
      if newsDf.Err? {
        TaggedStops(rs, k + 1);
        return Err(newsDf.exc);
      }
      var df := new Frame(newsDf.value);
      df.Fill(FontCol, Str(font));
      assert df.Value() == Tagged(newsDf.value, Fonts[k]);
      scrapedNewsDfs := scrapedNewsDfs + [df.Value()];
      k := k + 1;
    }
    r := Ok(ConcatAll(scrapedNewsDfs));
  }

  /** `scrap_websites` as written: G1's `scrap_news` always raises
      AttributeError (it reads `n_scrolls`), so the whole run raises it and
      CNN Brasil is never scraped. */
  method ScrapWebsites(page: G1Page, now: int, browse: string -> CnnPage) returns (r: Result<Table>)
    ensures r == Err(AttributeError)
  {
    r := ScrapWebsitesReading("n_scrolls", page, now, browse);
    CombinedJoined(Sources("n_scrolls", page, now, browse));
  }

  /** `scrap_websites` with G1 reading the attribute it sets: G1's frame
      then CNN Brasil's, or the first exception. */
  method ScrapWebsitesIntended(page: G1Page, now: int, browse: string -> CnnPage) returns (r: Result<Table>)
    ensures r == Joined(G1Source("n_scroll", page, now), CnnSource(browse))
    ensures G1Source("n_scroll", page, now) == G1.Scraped(page, now)
  {
    r := ScrapWebsitesReading("n_scroll", page, now, browse);
    CombinedJoined(Sources("n_scroll", page, now, browse));
  }

  lemma ColumnsDistinct()
    ensures Distinct(Columns)
  {
    G1.NamesDistinct();
    assert FontCol[0] == 'F';
    assert G1.TitleCol[0] == 'T' && G1.TimeCol[0] == 'T' && G1.ThemeCol[0] == 'T';
    assert G1.HeaderCol[0] == 'H' && G1.ResumeCol[0] == 'R';
  }

  /** The frame of two scraped frames: the first exception, or G1's frame
      tagged "G1" followed by CNN Brasil's tagged "CNN". */
  function Joined(g1: Result<Table>, cnn: Result<Table>): Result<Table>
    requires g1.Ok? ==> WellFormed(g1.value)
    requires cnn.Ok? ==> WellFormed(cnn.value)
  {
    match g1
    case Err(e) => Err(e)
    case Ok(a) =>
      match cnn
      case Err(e) => Err(e)
      case Ok(b) => Ok(JoinedTable(a, b))
  }

  /** G1's frame tagged "G1" followed by CNN Brasil's tagged "CNN", with the
      outer join of their columns. */
  function JoinedTable(a: Table, b: Table): Table
    requires WellFormed(a) && WellFormed(b)
  {
    ConcatAll([Tagged(a, G1Font), Tagged(b, CnnFont)])
  }

  /** The run raises the first source's exception, in source order, and
      otherwise joins the two frames. */
  lemma CombinedJoined(rs: seq<Result<Table>>)
    requires |rs| == |Fonts| && SourcesWellFormed(rs)
    ensures Combined(rs) == Joined(rs[0], rs[1])
  {
    assert TaggedFrames(rs, 0) == Ok([]);
    match rs[0]
    case Err(e) => {
      assert TaggedFrames(rs, 1) == Err(e);
    }
    case Ok(a) => {
      assert [] + [Tagged(a, Fonts[0])] == [Tagged(a, Fonts[0])];
      assert TaggedFrames(rs, 1) == Ok([Tagged(a, Fonts[0])]);
      match rs[1]
      case Err(e) => {
      }
      case Ok(b) => {
        assert [Tagged(a, Fonts[0])] + [Tagged(b, Fonts[1])] == [Tagged(a, G1Font), Tagged(b, CnnFont)];
      }
    }
  }

  /** The tagged frames' columns: G1's then `Font`, and CNN's then `Font`,
      whose outer join is G1's five columns and `Font`. */
  lemma CombinedNames(a: Table, b: Table)
    requires WellFormed(a) && a.names == G1.Names && WellFormed(b) && b.names == Cnn.Names
    ensures Tagged(a, G1Font).names == Columns
    ensures UnionNames([Tagged(a, G1Font), Tagged(b, CnnFont)]) == Columns
  {
    ColumnsDistinct();
    NamesApart();
    assert G1.Names + [FontCol] == Columns;
    var tb := Tagged(b, CnnFont);
    assert tb.names == Cnn.Names + [FontCol];
    assert forall n :: n in tb.names ==> n in Columns;
    UnionNamesPair(Tagged(a, G1Font), tb);
  }

  /** The joined frame has G1's five columns and `Font`, and the rows of
      both frames. */
  lemma JoinedShape(a: Table, b: Table)
    requires WellFormed(a) && a.names == G1.Names && WellFormed(b) && b.names == Cnn.Names
    ensures var t := JoinedTable(a, b);
            WellFormed(t) && t.names == Columns && t.height == a.height + b.height
  {
    CombinedNames(a, b);
    ConcatPair(Tagged(a, G1Font), Tagged(b, CnnFont), FontCol);
    ConcatWellFormed([Tagged(a, G1Font), Tagged(b, CnnFont)]);
  }

  /** G1's rows come first, each column keeping its cells. */
  lemma JoinedG1Cells(a: Table, b: Table, n: string)
    requires WellFormed(a) && WellFormed(b) && n in a.cols && n != FontCol
    ensures var t := JoinedTable(a, b);
            n in t.cols && |t.cols[n]| == a.height + b.height && t.cols[n][..a.height] == a.cols[n]
  {
    var ta, tb := Tagged(a, G1Font), Tagged(b, CnnFont);
    AssignedSpec(a, FontCol, Broadcast(Str(G1Font), a.height));
    ConcatPairColumn(ta, tb, n, Column(ta, n), Column(tb, n));
  }

  /** CNN Brasil's rows follow, each of its columns keeping its cells. */
  lemma JoinedCnnCells(a: Table, b: Table, n: string)
    requires WellFormed(a) && WellFormed(b) && n in b.cols && n != FontCol
    ensures var t := JoinedTable(a, b);
            n in t.cols && |t.cols[n]| == a.height + b.height && t.cols[n][a.height..] == b.cols[n]
  {
    var ta, tb := Tagged(a, G1Font), Tagged(b, CnnFont);
    AssignedSpec(b, FontCol, Broadcast(Str(CnnFont), b.height));
    ConcatPairColumn(ta, tb, n, Column(ta, n), Column(tb, n));
  }

  /** A G1 column CNN Brasil lacks is Null in CNN Brasil's rows. */
  lemma JoinedCnnMissing(a: Table, b: Table, n: string)
    requires WellFormed(a) && WellFormed(b) && n in a.cols && n !in b.cols && n != FontCol
    ensures var t := JoinedTable(a, b);
            n in t.cols && t.cols[n] == a.cols[n] + Broadcast(Null, b.height)
  {
    var ta, tb := Tagged(a, G1Font), Tagged(b, CnnFont);
    AssignedSpec(a, FontCol, Broadcast(Str(G1Font), a.height));
    AssignedSpec(b, FontCol, Broadcast(Str(CnnFont), b.height));
    ConcatPairColumn(ta, tb, n, Column(ta, n), Column(tb, n));
  }

  /** Every row's `Font` is its source: "G1" for G1's rows, then "CNN". */
  lemma JoinedFonts(a: Table, b: Table)
    requires WellFormed(a) && WellFormed(b)
    ensures var t := JoinedTable(a, b);
            FontCol in t.cols && t.cols[FontCol] == Broadcast(Str(G1Font), a.height) + Broadcast(Str(CnnFont), b.height)
  {
    var ta, tb := Tagged(a, G1Font), Tagged(b, CnnFont);
    AssignedSpec(a, FontCol, Broadcast(Str(G1Font), a.height));
    AssignedSpec(b, FontCol, Broadcast(Str(CnnFont), b.height));
    ConcatPairColumn(ta, tb, FontCol, Column(ta, FontCol), Column(tb, FontCol));
  }

  /** `Font` is none of the scrapers' columns, and CNN Brasil has no Header
      or Resume. */
  lemma NamesApart()
    ensures FontCol !in G1.Names && FontCol !in Cnn.Names
    ensures G1.HeaderCol !in Cnn.Names && G1.ResumeCol !in Cnn.Names
  {
    assert FontCol[0] == 'F' && G1.HeaderCol[0] == 'H' && G1.ResumeCol[0] == 'R';
    assert G1.TitleCol[0] == 'T' && G1.TimeCol[0] == 'T' && G1.ThemeCol[0] == 'T';
    assert Cnn.TitleCol[0] == 'T' && Cnn.TimeCol[0] == 'T' && Cnn.ThemeCol[0] == 'T';
  }

  /** CNN Brasil has no Header or Resume: both are Null in its rows. */
  lemma JoinedCnnNoSummary(a: Table, b: Table)
    requires WellFormed(a) && a.names == G1.Names && WellFormed(b) && b.names == Cnn.Names
    ensures var t := JoinedTable(a, b);
            G1.HeaderCol in t.cols && t.cols[G1.HeaderCol] == a.cols[G1.HeaderCol] + Broadcast(Null, b.height)
            && G1.ResumeCol in t.cols && t.cols[G1.ResumeCol] == a.cols[G1.ResumeCol] + Broadcast(Null, b.height)
  {
    NamesApart();
    assert G1.HeaderCol in a.names && G1.ResumeCol in a.names;
    JoinedCnnMissing(a, b, G1.HeaderCol);
    JoinedCnnMissing(a, b, G1.ResumeCol);
  }
}
