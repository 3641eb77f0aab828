# News scraper core, modelled in Dafny

The repository collects Brazilian news listings from two sites, G1 and CNN
Brasil. It also finds Internet Archive (Wayback Machine) snapshot links for
a page over a span of dates. This project models the data-shaping code
around the browser and the network:

- **G1 extraction**: `G1NewsScraper._get_scraped_news` flattens the feed's
  blocks and items into five equal-length columns.
- **G1 time conversion**: `_convert_to_datetime` and `_data_cleaning` turn
  "Há N horas/minutos/dias/meses" into an instant `now − N units`.
- **G1 entry point**: `scrap_news`, including the attribute that its
  `_scroll_page` reads.
- **CNN Brasil extraction**: `CNNNewsScraper._scrape_news_from_page` and
  `_get_scraped_data` build one frame per theme page and concatenate the
  frames in theme order.
- **CNN Brasil date cleaning**: `_convert_to_datetime` and `_data_cleaning`
  strip the text, replace " às " by a space and parse `%d/%m/%Y %H:%M`. The
  titles are stripped too.
- **The aggregator**: `scrap_websites` (application.py) tags each source's
  frame with its `Font` and outer-concatenates the frames.
- **Wayback timestamps**: `_generate_timestamps` steps from a start date to
  an end date and formats each day as `%Y%m%d%H%M%S`.
- **Wayback responses**: `_parse_responses` filters the availability
  answers into a frame of urls and timestamps.

The modules and what they hold:

- **`Py`** (py.dfy): the Python built-ins the code relies on, namely
  `str.strip`, `in`, `split(' ')`, `replace` and `int()`. Exceptions are
  modelled as `Result` values.
- **`Calendar`** (calendar.dfy): proleptic Gregorian dates, `toordinal` and
  `fromordinal`, and zero padding.
- **`Strptime`** (strptime.dfy): `datetime.strptime` for the directives
  used here (`%d %m %Y %H %M`, a space).
  - Each directive becomes the alternatives of CPython's regular
    expression, tried in its backtracking order.
  - Left-over text is rejected.
  - The date is checked against the calendar.
- **`Pages`** (pages.dfy): the parsed page as an abstract tree. A G1 feed
  is a sequence of blocks of items. A CNN Brasil theme page is an optional
  container of items. Every field is an `Option<string>`.
- **`Frames`** (frames.dfy): a DataFrame as named columns of cells.
  - It covers construction from equal-length lists and outer
    concatenation.
  - Column assignment is the `Frame` class, whose methods update the frame
    in place, as `df['Time'] = …` does.
- **`G1`**, **`Cnn`**, **`Application`** and **`Wayback`** hold the code
  above.

What the browser or the network supplies becomes a parameter. For G1 it is
the page. For CNN Brasil it is a function from URL to page. For
`_parse_responses` it is the JSON answers. The clock is `now`, an integer
number of seconds.

Where the project's stated design and its code differ, the model follows
the code:

- There is no per-source failure isolation. The first exception ends
  `scrap_websites`.
- A date that does not parse raises; it does not become an empty value.
- There is no deduplicating merge into a stored dataset. `main` appends to
  a CSV file, and that is left out below.

## Model

| member | source | states |
|---|---|---|
| Py.Split | src/scrapers.py:94 | `split(' ')` gives at least one piece, no piece holds the separator, and joining the pieces with it gives back the text |
| Py.SplitThree | src/scrapers.py:94 | three space-free words joined by single spaces split into exactly those words |
| Py.StripIsTrim | src/scrapers.py:234 | `strip` removes a whitespace prefix and a whitespace suffix and keeps the middle, which starts and ends with non-whitespace |
| Py.StripIdempotent | src/scrapers.py:243 | stripping a stripped title changes nothing |
| Py.ReplaceAbsent | src/scrapers.py:234 | `replace` leaves a text that does not contain the pattern unchanged |
| Py.ReplaceFront | src/scrapers.py:234 | a pattern at the front is replaced and the rest is scanned on |
| Py.PyIntDecimal | src/scrapers.py:94 | `int()` of the decimal numeral of n is n |
| Py.PyIntOfDigits | src/scrapers.py:94 | `int()` of a non-empty digit string is its decimal value |
| Calendar.OrdinalInRange | src/wayback.py:12-13 | every valid date has an ordinal between 1 and that of 9999-12-31 |
| Calendar.FromToOrdinal | src/wayback.py:18-20 | going from a date to its ordinal and back gives the same date |
| Calendar.ToFromOrdinal | src/wayback.py:18-20 | every ordinal in range is the ordinal of a valid date, which is how `current += interval` stays a date |
| Calendar.Pad2 | src/wayback.py:19 | two-digit zero padding: two digits whose value is the number |
| Calendar.Pad4 | src/wayback.py:19 | four-digit zero padding of the year: four digits whose value is the year |
| Strptime.Strptime | src/scrapers.py:236 | whatever `strptime` returns is a valid calendar date and time |
| Strptime.Build | src/scrapers.py:236 | the fields read from the matched groups build only a valid date and time |
| Strptime.DayMonthYearTimeMatch | src/scrapers.py:236 | on text laid out as `dd/mm/yyyy HH:MM`, parsing succeeds with the calendar check exactly when day, month, hour and minute are in the directives' ranges, and raises ValueError otherwise |
| Strptime.DayMonthYearTimeRoundTrip | src/scrapers.py:236 | formatting a date and time with `%d/%m/%Y %H:%M` and parsing it gives it back when it is valid, and raises ValueError when it is not |
| Strptime.YearMonthDayMatch | src/wayback.py:12-13 | eight digits with an in-range month and day match `%Y%m%d` as four, two and two digits |
| Strptime.YearMonthDayRoundTrip | src/wayback.py:12-13 | a valid date written `%Y%m%d` parses back to that date at midnight |
| Frames.TextCell | src/scrapers.py:69-78 | a missing element's text is `None`; a present one's is its text |
| Frames.FromColumnsSpec | src/scrapers.py:81-87 | a frame is built from named lists exactly when the lists have equal length; column k is then list k and the height is the common length |
| Frames.Lookup | src/scrapers.py:115 | reading a column succeeds exactly when it exists, and gives one cell per row |
| Frames.AssignedSpec | src/application.py:20 | assigning a column keeps the height, adds the name if it is new, sets that column and leaves every other column unchanged |
| Frames.Apply | src/scrapers.py:115 | `Series.apply` maps every cell, or raises the exception of the first cell whose conversion raises |
| Frames.ConcatAt | src/scrapers.py:226 | row j of the k-th frame is row Offset(k) + j of the concatenation, in every column the frame has |
| Frames.ConcatPairColumn | src/application.py:24 | the concatenation of two frames holds the first frame's column followed by the second's, with missing columns as `None` |
| Frames.UnionNamesSame | src/scrapers.py:226 | concatenating frames with the same columns keeps those columns |
| Frames.Frame.constructor | src/scrapers.py:81-87 | the object holds the given frame |
| Frames.Frame.Get | src/scrapers.py:115 | reads a column without changing the frame |
| Frames.Frame.SetColumn | src/scrapers.py:115 | the frame becomes the old frame with that column assigned |
| Frames.Frame.Fill | src/application.py:20 | the frame becomes the old frame with that column set to the value on every row |
| G1.Attribute | src/scrapers.py:12-16 | the constructor sets exactly the instance data attributes `url` and `n_scroll`; reading any other instance data attribute, such as `n_scrolls`, raises AttributeError |
| G1.ScrollCount | src/scrapers.py:16-23 | the scroll count is found exactly when the attribute read is `n_scroll` |
| G1.ItemsAt | src/scrapers.py:61-63 | item j of block k is row \|items of blocks before k\| + j: block order, then item order |
| G1.ItemsAppend | src/scrapers.py:61-63 | the rows of two runs of blocks are the rows of the first followed by those of the second |
| G1.NewsTableSpec | src/scrapers.py:47-89 | the frame exists exactly when every item has a title (else AttributeError); it then has the five columns with one row per item, and row i holds item i's title and its optional time, theme, header and resume, each `None` when missing |
| G1.GetScrapedNews | src/scrapers.py:47-89 | the loop over blocks and items builds the frame NewsTableSpec describes |
| G1.Ago | src/scrapers.py:95 | `now − timedelta` is the instant that many seconds earlier, and raises OverflowError when the timedelta is too large or the result falls outside years 1 to 9999 |
| G1.ConvertTime | src/scrapers.py:91-110 | a non-text time raises TypeError; the result is `None` exactly for text without any unit keyword; any other result is an instant within the calendar |
| G1.PhraseRoundTrip | src/scrapers.py:91-108 | "Há N <unit>" converts to `now − N` times the unit's length in seconds, for all four units, singular or plural |
| G1.HoursFirst | src/scrapers.py:93-95 | a sentence naming hours is converted as hours, whatever else follows |
| G1.MonthIsThirtyDays | src/scrapers.py:105-108 | N months convert exactly like 30·N days |
| G1.PluralHoldsSingular | src/scrapers.py:93-105 | every plural keyword contains its singular, so each plural test is implied by the singular one |
| G1.MissingCountRaises | src/scrapers.py:94 | a text with a keyword but no space raises IndexError instead of giving `None` |
| G1.NonIntegerCountRaises | src/scrapers.py:93-95 | a count that `int()` rejects makes the conversion raise that exception |
| G1.WordIsNotInt | src/scrapers.py:94 | an instance of NonIntegerCountRaises: a count written as a word ("uma") raises ValueError |
| G1.CleanedSpec | src/scrapers.py:113-116 | cleaning succeeds exactly when every time converts; otherwise it raises the first failing row's exception; on success only the Time column changes, each cell to its conversion |
| G1.DataCleaning | src/scrapers.py:113-116 | the frame is updated in place to the cleaned frame, or keeps its value when a conversion raises |
| G1.ScrapedSpec | src/scrapers.py:119-141 | extraction then cleaning: AttributeError without titles; otherwise success exactly when every item's time converts; row i then holds item i's fields with its converted time |
| G1.ScrapePage | src/scrapers.py:137-141 | extraction followed by in-place cleaning gives the frame ScrapedSpec describes |
| G1.ScrapNewsReading | src/scrapers.py:119-141 | `scrap_news` raises whatever reading the scroll attribute raises; otherwise it returns the scraped frame |
| G1.ScrapNews | src/scrapers.py:119-141 | as written, `scrap_news` always raises AttributeError |
| G1.ScrapNewsIntended | src/scrapers.py:119-141 | with the attribute read that is set, `scrap_news` returns the frame ScrapedSpec describes |
| Cnn.NamesDistinct | src/scrapers.py:201-205 | the three column names are distinct |
| Cnn.ListsTable | src/scrapers.py:187-205 | the three lists always make a well-formed frame of one row per item |
| Cnn.PageTableSpec | src/scrapers.py:177-207 | a theme page gives a frame exactly when the container exists and every item has a title (else AttributeError); row i then holds item i's title, its date or `None`, and the theme |
| Cnn.ScrapeNewsFromPage | src/scrapers.py:177-207 | the loop over the items builds the frame PageTableSpec describes |
| Cnn.PageTables | src/scrapers.py:214-224 | the per-theme frames, in theme order, each the frame of the page at url + theme |
| Cnn.PageTablesOk | src/scrapers.py:214-224 | all theme pages are scraped exactly when every theme page gives a frame |
| Cnn.PageTablesPrefix | src/scrapers.py:214-224 | the first theme that fails decides the result; later themes are never reached |
| Cnn.ScrapedDataSpec | src/scrapers.py:210-228 | the concatenation exists exactly when there is a theme and every theme page gives a frame; it has the three columns, and its height is the sum of the per-theme heights |
| Cnn.ScrapedDataPage | src/scrapers.py:214-224 | the k-th frame of a successful scrape is the frame of the k-th theme page |
| Cnn.ScrapedDataRow | src/scrapers.py:210-228 | item j of theme k is row Offset(k) + j of the concatenation, with its title, its date and theme k |
| Cnn.GetScrapedData | src/scrapers.py:210-228 | the loop over the themes returns the concatenation ScrapedDataSpec describes, or the first theme's exception |
| Cnn.ConvertTime | src/scrapers.py:231-236 | a missing date raises AttributeError; a converted date is a valid calendar date and time |
| Cnn.ReplaceConnective | src/scrapers.py:234 | one " às " between a space-free date and time becomes a single space |
| Cnn.LayoutCleaned | src/scrapers.py:234 | a `dd/mm/yyyy HH:MM` text written with " às " is cleaned back to itself |
| Cnn.DisplayRoundTrip | src/scrapers.py:231-236 | a date and time as the site displays it ("dd/mm/yyyy às HH:MM") converts to that date and time when it is valid, and raises ValueError when it is not |
| Cnn.StripTitle | src/scrapers.py:243 | `.str.strip()` strips text and leaves a non-text cell as `None` |
| Cnn.CleanedSpec | src/scrapers.py:239-245 | cleaning succeeds exactly when every date converts, else the first failing row's exception; on success the times are converted, the titles stripped and the themes kept |
| Cnn.CleanedTitlesStripped | src/scrapers.py:243 | every title of a cleaned frame is already stripped |
| Cnn.DataCleaning | src/scrapers.py:239-245 | the frame is updated in place to the cleaned frame; when an exception is raised the frame is unchanged if the Time conversion raised, and holds the converted times if the Title step raised |
| Cnn.ScrapNews | src/scrapers.py:248-267 | `scrap_news` is scraping followed by cleaning |
| Application.ScrapSource | src/application.py:18-19 | each source's `scrap_news` returns that source's result |
| Application.TaggedNext | src/application.py:18-21 | one more pass of the loop appends the source's frame tagged with its font, or stops at its exception |
| Application.TaggedStops | src/application.py:18-21 | once a source has raised, the later sources change nothing |
| Application.ScrapWebsitesReading | src/application.py:7-26 | the loop tags the frames in the order G1, CNN and concatenates them, or raises the first source's exception |
| Application.CombinedJoined | src/application.py:18-24 | the result is G1's frame tagged "G1" followed by CNN's tagged "CNN", or the first exception in that order |
| Application.ScrapWebsites | src/application.py:7-26 | as written, `scrap_websites` always raises AttributeError, from G1 |
| Application.ScrapWebsitesIntended | src/application.py:7-26 | with G1 reading the attribute it sets, the result joins G1's scraped frame and CNN's |
| Application.ColumnsDistinct | src/application.py:24 | the six combined column names are distinct |
| Application.CombinedNames | src/application.py:20-24 | the combined columns are G1's five followed by `Font` |
| Application.JoinedShape | src/application.py:24 | the combined frame has the six columns, and its height is the sum of the two sources' heights |
| Application.JoinedG1Cells | src/application.py:24 | the first rows of each G1 column are G1's rows, in order |
| Application.JoinedCnnCells | src/application.py:24 | the last rows of each CNN column are CNN's rows, in order |
| Application.JoinedCnnMissing | src/application.py:24 | a column CNN lacks is `None` on every CNN row |
| Application.JoinedCnnNoSummary | src/application.py:24 | Header and Resume are `None` on every CNN row |
| Application.JoinedFonts | src/application.py:20-24 | `Font` is "G1" on every G1 row and "CNN" on every CNN row |
| Application.NamesApart | src/application.py:20 | `Font` is not a column of either source, and CNN has neither Header nor Resume |
| Wayback.ParseDay | src/wayback.py:12-13 | a parsed `%Y%m%d` date is a day within the calendar |
| Wayback.ParsedAtMidnight | src/wayback.py:12-13 | a `%Y%m%d` parse gives midnight |
| Wayback.Stamp | src/wayback.py:19 | each timestamp has 14 characters and ends in "000000" |
| Wayback.StampRoundTrip | src/wayback.py:12-19 | the first eight characters of a day's timestamp parse back to that day |
| Wayback.GridAt | src/wayback.py:18-20 | the k-th day of the step grid is start + k·interval |
| Wayback.WalkClosed | src/wayback.py:16-21 | stepping day by day gives the closed form: the grid up to the end, or an overflow |
| Wayback.WalkForward | src/wayback.py:16-21 | with a positive interval the walk reaches the grid up to the end, unless the next step leaves the calendar |
| Wayback.WalkBack | src/wayback.py:18-20 | with a negative interval and start ≤ end the walk leaves the calendar, raising OverflowError |
| Wayback.Walk | src/wayback.py:16-21 | the loop returns the timestamps of the walk, or its exception |
| Wayback.GenerateTimestamps | src/wayback.py:8-21 | parse both dates, then walk |
| Wayback.StepsDays | src/wayback.py:8-21 | the list is empty exactly when end < start; otherwise it has (end − start) div interval + 1 timestamps, the j-th being start + j·interval ≤ end, and one more step passes the end |
| Wayback.StepsIncrease | src/wayback.py:18-20 | consecutive timestamps are exactly `interval_days` apart and increase |
| Wayback.GeneratedDiverges | src/wayback.py:14-20 | the loop never ends exactly when both dates parse, start ≤ end and the interval is 0 |
| Wayback.StepsDiverges | src/wayback.py:14-20 | once both dates are parsed, the loop never ends exactly when the range is not empty and the interval is 0 |
| Wayback.NegativeIntervalRaises | src/wayback.py:14-20 | a negative interval with start ≤ end raises OverflowError |
| Wayback.LastDayRaises | src/wayback.py:18-20 | an end date of 9999-12-31 always raises OverflowError |
| Wayback.Index | src/wayback.py:41-45 | indexing succeeds exactly on an object holding the key, and gives its value |
| Wayback.ReadAppends | src/wayback.py:40-49 | a response adds a url exactly when its `archived_snapshots.closest` has status the string '200', a truthy `available` and a `url`; it adds a timestamp too exactly when `timestamp` is also present |
| Wayback.ReadAll | src/wayback.py:39 | each response is read on its own |
| Wayback.ParseResponses | src/wayback.py:33-58 | the loop returns what `_parse_responses` returns |
| Wayback.AppendedSplit | src/wayback.py:39-45 | the rows of two runs of responses are those of the first followed by those of the second, so order is kept |
| Wayback.UrlsOutnumber | src/wayback.py:43-45 | there are at least as many urls as timestamps, and as many exactly when no response lost its timestamp |
| Wayback.KeptMembers | src/wayback.py:43-45 | a (url, timestamp) pair is kept exactly when one response gave both |
| Wayback.KeptLength | src/wayback.py:39-45 | at most one row per response |
| Wayback.KeptColumns | src/wayback.py:43-45 | when no timestamp is missing, row j's url and timestamp come from the same response |
| Wayback.ParsedRows | src/wayback.py:33-58 | the frame exists exactly when no response lost its timestamp and all timestamps are hashable; its rows are then the complete readings in response order |
| Wayback.MissingTimestampRaises | src/wayback.py:44-54 | a response with url but no timestamp makes the call raise ValueError |
| Wayback.HashableTwice | src/wayback.py:56 | doubling the timestamps keeps them hashable or not |
| Wayback.DuplicatesKept | src/wayback.py:56-58 | as written, the same responses twice give every row twice |
| Wayback.KeysOf | src/wayback.py:56 | the keys `drop_duplicates` compares, one per row |
| Wayback.DedupDistinct | src/wayback.py:56 | after dropping duplicates no two rows share a timestamp |
| Wayback.DedupFrom | src/wayback.py:56 | every row left is one of the input rows |
| Wayback.DedupCovers | src/wayback.py:56 | every input timestamp is still present |
| Wayback.DedupOrder | src/wayback.py:56 | the rows left are input rows, at strictly increasing input positions |
| Wayback.DedupFirst | src/wayback.py:56 | each row left is the first row with its timestamp (`keep='first'`): no earlier input row shares it |
| Wayback.DedupAbsorbs | src/wayback.py:56 | rows whose timestamps were all seen change nothing |
| Wayback.LinksOf | src/wayback.py:51-54 | the frame of the rows: row j's url and timestamp are pair j |
| Wayback.ParsedIntendedRows | src/wayback.py:33-58 | as intended, the call raises only on an unhashable timestamp; every row is a complete reading, no two rows share a timestamp, and every complete reading's timestamp is present |
| Wayback.DuplicatesDropped | src/wayback.py:56-58 | as intended, the same responses twice give the same frame as once |
| Wayback.MissingTimestampExample | src/wayback.py:43-45 | a concrete response with url and no timestamp: ValueError as written, skipped as intended |

## Left out

- Scrolling and page loading are left out. This covers `_scroll_page` in both classes, `driver.get`, `sleep` and `print`, which are Selenium I/O. Only G1's read of its scroll-count attribute is modelled, in `G1.ScrollCount`.
- HTML parsing and BeautifulSoup's class matching are left out. The page is given as the tree of optional fields `find` and `find_all` would return.
- `datetime.now()` becomes the parameter `now`. It is read once per cleaning, whereas the source calls it once per row. Instants are whole seconds, without microseconds.
- Pandas internals are left out: the index (including the duplicate labels after the per-theme concat and the renumbering in `scrap_websites`), dtypes, and NaN versus `None`. A frame is its column names, columns and height.
- Cnn.ConvertTime: the contract states validity and the `None` case. The exact parse of displayed dates is stated by Cnn.DisplayRoundTrip, and the layout-level behaviour by Strptime.DayMonthYearTimeMatch. Other malformed texts are covered only by `Strptime.Strptime`'s validity guarantee.
- G1.Attribute: only the scraper's instance data attributes are modelled; its methods and the attributes every Python object inherits, which can also be read, are not.
- Py.PyInt, Strptime: only ASCII digits are modelled; Python's `int()` and the `\d` of `strptime`'s patterns also accept other Unicode decimal digits, such as Arabic-Indic ones.
- Strptime: only the directives `%d %m %Y %H %M`, literal characters and whitespace are modelled. Locale, case-insensitive matching and the other directives are not used here.
- Calendar.Pad4: `%Y` is zero-padded to four digits, as in current CPython. Platforms whose `strftime` does not pad years below 1000 are not modelled.
- Wayback.GeneratedDiverges: an endless loop is the outcome `Diverges`. The list that grows without bound until memory runs out is not modelled.
- Wayback.Read: JSON numbers are integers. Floats, and `'200'` compared with a float, are not modelled.
- `_query_wayback` and `obtain_wayback_links` are HTTP requests and a request loop, so they are left out. The loop's `logger.info(..., end='\r')` call, which passes a keyword `logging` does not accept, is not modelled.
- `main` is left out. It writes the CSV file and owns the browser's lifecycle.
- The module `logging_config.py` is left out.
- Wayback.DuplicatesKept: `drop_duplicates` on a frame whose timestamps are unhashable raises TypeError even though its result is discarded. This is modelled in `Parsed`. Its behaviour on an empty frame is the same as on any other.

## Findings

| source | as written | input that shows it | evidently intended | confidence | as-written member | corrected member |
|---|---|---|---|---|---|---|
| src/scrapers.py:16-23 | `__init__` sets `self.n_scroll` but `_scroll_page` reads `self.n_scrolls`, so G1's `scrap_news`, and with it `scrap_websites`, always raises AttributeError | any page, any `now` | the scroll count set in `__init__` is read and the scraped frame is returned | high (not executed) | G1.ScrapNews | G1.ScrapNewsIntended |
| src/wayback.py:43-45 | the url is appended before the timestamp is read. A snapshot with status '200', `available` true and a url but no `timestamp` leaves one more url than timestamp, and the DataFrame constructor raises ValueError | `{"archived_snapshots": {"closest": {"status": "200", "available": true, "url": "url"}}}` | the response is skipped, like any other incomplete snapshot | high (not executed) | Wayback.MissingTimestampExample | Wayback.ParsedIntendedRows |
| src/wayback.py:56 | `links.drop_duplicates(subset=['timestamp'])` returns a new frame that is discarded, so duplicate timestamps stay | the same responses listed twice | the deduplicated frame is returned: one row per timestamp | high (not executed) | Wayback.DuplicatesKept | Wayback.DuplicatesDropped |
