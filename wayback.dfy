/** The Wayback Machine helpers (src/wayback.py): the grid of snapshot
    timestamps between two dates, and the filter that keeps the available
    snapshots of the API's JSON answers. */
module Wayback {
  import opened Py
  import opened Calendar
  import Strptime

  // ---------------------------------------------------------------- timestamps

  /** The largest magnitude `timedelta(days=...)` accepts. */
  const MaxDays := 999999999

  /** What a call of `_generate_timestamps` does: return a list, raise, or
      loop forever. */
  datatype Outcome = Returns(stamps: seq<string>) | Raises(exc: Exc) | Diverges

  /** `datetime.strptime(text, '%Y%m%d')`, as the ordinal of its day: the
      format has no time fields, so the time is always midnight. */
  function ParseDay(text: string): (r: Result<int>)
    ensures r.Ok? ==> 1 <= r.value <= MaxOrdinal()
  {
    match Strptime.Strptime(text, Strptime.YearMonthDay)
    case Err(e) => Err(e)
    case Ok(t) =>
      OrdinalInRange(t.year, t.month, t.day);
      Ok(ToOrdinal(t.year, t.month, t.day))
  }

  /** A date parsed with `'%Y%m%d'` is at midnight. */
  lemma ParsedAtMidnight(text: string)
    ensures var r := Strptime.Strptime(text, Strptime.YearMonthDay);
            r.Ok? ==> r.value.hour == 0 && r.value.minute == 0
  {
    var f := Strptime.YearMonthDay;
    assert Strptime.Position(f, Strptime.Hour) == None;
    assert Strptime.Position(f, Strptime.Minute) == None;
  }

  /** `strftime('%Y%m%d%H%M%S')` of midnight of day `n`. */
  function Stamp(n: int): (s: string)
    requires 1 <= n <= MaxOrdinal()
    ensures |s| == 14 && s[8..] == "000000"
  {
    ToFromOrdinal(n);
    var (y, m, d) := FromOrdinal(n);
    Pad4(y) + Pad2(m) + Pad2(d) + "000000"
  }

  /** A timestamp's date part reads back, with `'%Y%m%d'`, as its day. */
  lemma StampRoundTrip(n: int)
    requires 1 <= n <= MaxOrdinal()
    ensures ParseDay(Stamp(n)[..8]) == Ok(n)
  {
    ToFromOrdinal(n);
    var (y, m, d) := FromOrdinal(n);
    var date := Pad4(y) + Pad2(m) + Pad2(d);
    assert Stamp(n)[..8] == date;
    Strptime.YearMonthDayRoundTrip(y, m, d);
  }

  /** The days `start, start + step, ...`: the first `count` of them. */
  function Grid(start: int, step: int, count: nat): (g: seq<int>)
    ensures |g| == count
    decreases count
  {
    if count == 0 then [] else [start] + Grid(start + step, step, count - 1)
  }

  /** Grid day `j` is `start + j * step`. */
  lemma {:induction false} GridAt(start: int, step: int, count: nat, j: int)
    requires 0 <= j < count
    ensures Grid(start, step, count)[j] == start + j * step
    decreases count
  {
    if j > 0 {
      GridAt(start + step, step, count - 1, j - 1);
      MulSucc(j - 1, step);
    }
  }

  /** The timestamps of the given days, in order. */
  function StampsOf(days: seq<int>): (ss: seq<string>)
    requires forall j :: 0 <= j < |days| ==> 1 <= days[j] <= MaxOrdinal()
    ensures |ss| == |days| && forall j :: 0 <= j < |days| ==> ss[j] == Stamp(days[j])
  {
    seq(|days|, j requires 0 <= j < |days| => Stamp(days[j]))
  }

  /** How many grid days fit between `start` and `end`. */
  function Count(start: int, end: int, step: int): int
    requires step > 0
  {
    (end - start) / step + 1
  }

  lemma MulSucc(k: int, step: int)
    ensures (k + 1) * step == k * step + step
  {
  }

  lemma MulMonotone(a: int, b: int, c: int)
    requires a <= b && c >= 0
    ensures a * c <= b * c
  {
    assert b * c - a * c == (b - a) * c;
  }

  /** `k` is the number of grid days up to `end` exactly when the `k`-th
      day is the first past it. */
  lemma CountBetween(start: int, end: int, step: int, k: int)
    requires step > 0 && k >= 1 && start + (k - 1) * step <= end < start + k * step
    ensures Count(start, end, step) == k
  {
    var a := end - start;
    var q, r := a / step, a % step;
    assert a == q * step + r && 0 <= r < step;
    MulSucc(k - 1, step);
    if q < k - 1 {
      MulMonotone(q + 1, k - 1, step);
      MulSucc(q, step);
    } else if q > k - 1 {
      MulMonotone(k, q, step);
    }
  }

  /** The last grid day up to `end` is at most `end`, the next one past it. */
  lemma GridWithin(start: int, end: int, step: int)
    requires step > 0 && start <= end
    ensures var n := Count(start, end, step);
            n >= 1 && start + (n - 1) * step <= end < start + n * step
  {
    var a := end - start;
    var q, r := a / step, a % step;
    assert a == q * step + r && 0 <= r < step;
    MulSucc(q, step);
  }

  /** One step on, one grid day fewer. */
  lemma CountNext(start: int, end: int, step: int)
    requires step > 0 && start + step <= end
    ensures Count(start, end, step) >= 2
    ensures Count(start + step, end, step) == Count(start, end, step) - 1
  {
    var n := Count(start, end, step);
    GridWithin(start, end, step);
    MulSucc(n - 2, step);
    MulSucc(n - 1, step);
    CountBetween(start + step, end, step, n - 1);
  }

  /** The grid days up to `end`. */
  function GridUpTo(start: int, end: int, step: int): (g: seq<int>)
    requires 1 <= start <= end <= MaxOrdinal() && step > 0
    ensures g == Grid(start, step, Count(start, end, step))
    ensures forall j :: 0 <= j < |g| ==> start <= g[j] <= end
  {
    var n := Count(start, end, step);
    var g := Grid(start, step, n);
    forall j | 0 <= j < n ensures start <= g[j] <= end {
      GridWithin(start, end, step);
      GridAt(start, step, n, j);
      MulMonotone(j, n - 1, step);
      MulMonotone(0, j, step);
    }
    g
  }

  /** Where the days of `_generate_timestamps` lead: the list of days it
      stamps, an OverflowError, or a loop that never ends. */
  datatype Walked = Reached(days: seq<int>) | Overflowed | Forever

  /** The days of `_generate_timestamps` once both dates are parsed, stated
      directly: an invalid `timedelta` overflows; an empty range gives no
      days; a zero interval never leaves the loop, a negative one walks back
      until the date drops below year 1; a positive one gives every
      `interval`-th day from `start` up to `end`, unless the step after the
      last of them passes 9999-12-31. */
  function Closed(start: int, end: int, intervalDays: int): Walked
    requires 1 <= start <= MaxOrdinal() && 1 <= end <= MaxOrdinal()
  {
    if intervalDays < -MaxDays || MaxDays < intervalDays then Overflowed
    else if end < start then Reached([])
    else if intervalDays == 0 then Forever
    else if intervalDays < 0 then Overflowed
    else if MaxOrdinal() < start + Count(start, end, intervalDays) * intervalDays then Overflowed
    else Reached(GridUpTo(start, end, intervalDays))
  }

  /** The days `days` followed by those `w` reaches. */
  function Prepend(days: seq<int>, w: Walked): Walked {
    if w.Reached? then Reached(days + w.days) else w
  }

  /** The loop `while current <= end` from `current` on: stamp the day,
      then step, which raises OverflowError outside years 1..9999. */
  function WalkFrom(current: int, end: int, step: int): Walked
    requires 1 <= current <= MaxOrdinal() && (step != 0 || end < current)
    decreases if step > 0 then MaxOrdinal() - current else current
  {
    if end < current then Reached([])
    else
      var next := current + step;
      if next < 1 || MaxOrdinal() < next then Overflowed
      else Prepend([current], WalkFrom(next, end, step))
  }

  /** Walking back from a day up to `end` never passes `end`: it raises
      once it passes year 1. */
  lemma {:induction false} WalkBack(current: int, end: int, step: int)
    requires 1 <= current <= end && step < 0 && current <= MaxOrdinal()
    ensures WalkFrom(current, end, step) == Overflowed
    decreases current
  {
    if current + step >= 1 {
      WalkBack(current + step, end, step);
    }
  }

  /** Walking forward gives the grid up to `end`, unless the step after its
      last day passes 9999-12-31. */
  lemma {:induction false} WalkForward(current: int, end: int, step: int)
    requires 1 <= current <= end <= MaxOrdinal() && step > 0
    ensures WalkFrom(current, end, step)
            == if MaxOrdinal() < current + Count(current, end, step) * step then Overflowed
               else Reached(GridUpTo(current, end, step))
    decreases MaxOrdinal() - current
  {
    var n := Count(current, end, step);
    var next := current + step;
    GridWithin(current, end, step);
    if MaxOrdinal() < next {
      MulMonotone(1, n, step);
    } else if end < next {
      CountBetween(current, end, step, 1);
      assert Grid(current, step, 1) == [current];
    } else {
      CountNext(current, end, step);
      WalkForward(next, end, step);
      MulSucc(n - 1, step);
    }
  }

  /** The loop walks the closed form's days. */
  lemma WalkClosed(start: int, end: int, step: int)
    requires 1 <= start <= MaxOrdinal() && 1 <= end <= MaxOrdinal()
    requires (step != 0 || end < start) && -MaxDays <= step <= MaxDays
    ensures WalkFrom(start, end, step) == Closed(start, end, step)
  {
    if start <= end {
      if step < 0 {
        WalkBack(start, end, step);
      } else {
        WalkForward(start, end, step);
      }
    }
  }

  /** The closed form's days are all valid dates. */
  lemma ClosedInRange(start: int, end: int, intervalDays: int)
    requires 1 <= start <= MaxOrdinal() && 1 <= end <= MaxOrdinal()
    requires Closed(start, end, intervalDays).Reached?
    ensures var d := Closed(start, end, intervalDays).days;
            forall j :: 0 <= j < |d| ==> 1 <= d[j] <= MaxOrdinal()
  {
  }

  /** What `_generate_timestamps` does once both dates are parsed: the
      timestamps of the closed form's days. */
  function Steps(start: int, end: int, intervalDays: int): Outcome
    requires 1 <= start <= MaxOrdinal() && 1 <= end <= MaxOrdinal()
  {
    match Closed(start, end, intervalDays)
    case Overflowed => Raises(OverflowError)
    case Forever => Diverges
    case Reached(days) =>
      ClosedInRange(start, end, intervalDays);
      Returns(StampsOf(days))
  }

  /** The timestamps returned are those of the closed form's days. */
  lemma StepsStamps(start: int, end: int, intervalDays: int)
    requires 1 <= start <= MaxOrdinal() && 1 <= end <= MaxOrdinal()
    requires Steps(start, end, intervalDays).Returns?
    ensures Closed(start, end, intervalDays).Reached?
    ensures var d := Closed(start, end, intervalDays).days;
            var st := Steps(start, end, intervalDays).stamps;
            |st| == |d| && (forall j :: 0 <= j < |d| ==> 1 <= d[j] <= MaxOrdinal() && st[j] == Stamp(d[j]))
  {
    ClosedInRange(start, end, intervalDays);
  }

  /** `_generate_timestamps(start_date, end_date, interval_days)`: both
      dates must parse with `'%Y%m%d'`, then the days are walked. */
  function Generated(startDate: string, endDate: string, intervalDays: int): Outcome {
    match ParseDay(startDate)
    case Err(e) => Raises(e)
    case Ok(start) =>
      match ParseDay(endDate)
      case Err(e) => Raises(e)
      case Ok(end) => Steps(start, end, intervalDays)
  }

  /** `_generate_timestamps(start_date, end_date, interval_days)`. */
  method GenerateTimestamps(startDate: string, endDate: string, intervalDays: int) returns (r: Outcome)
    ensures r == Generated(startDate, endDate, intervalDays)
  {
    var start := ParseDay(startDate);
    if start.Err? {
      return Raises(start.exc);
    }
    var end := ParseDay(endDate);
    if end.Err? {
      return Raises(end.exc);
    }
    r := Walk(start.value, end.value, intervalDays);
  }

  /** Stamping one more day appends its timestamp. */
  lemma StampsSnoc(days: seq<int>, n: int)
    requires forall j :: 0 <= j < |days| ==> 1 <= days[j] <= MaxOrdinal()
    requires 1 <= n <= MaxOrdinal()
    ensures StampsOf(days + [n]) == StampsOf(days) + [Stamp(n)]
  {
  }

  /** The invariant of the loop of `_generate_timestamps`: the days
      stamped so far, then the walk from `current`, make the walk from
      `start`. */
  ghost predicate Walking(start: int, end: int, step: int, current: int, days: seq<int>) {
    1 <= start <= MaxOrdinal() && 1 <= current <= MaxOrdinal()
    && (step != 0 || end < start) && (step != 0 || end < current)
    && (forall j :: 0 <= j < |days| ==> 1 <= days[j] <= MaxOrdinal())
    && Prepend(days, WalkFrom(current, end, step)) == WalkFrom(start, end, step)
  }

  /** A turn of the loop that stays within years 1..9999 keeps the
      invariant. */
  lemma WalkingStep(start: int, end: int, step: int, current: int, days: seq<int>)
    requires Walking(start, end, step, current, days)
    requires current <= end && 1 <= current + step <= MaxOrdinal()
    ensures Walking(start, end, step, current + step, days + [current])
  {
    var rest := WalkFrom(current + step, end, step);
    if rest.Reached? {
      assert days + [current] + rest.days == days + ([current] + rest.days);
    }
  }

  /** A step out of years 1..9999 is the walk's OverflowError. */
  lemma WalkingOverflow(start: int, end: int, step: int, current: int, days: seq<int>)
    requires Walking(start, end, step, current, days)
    requires current <= end && !(1 <= current + step <= MaxOrdinal())
    ensures WalkFrom(start, end, step) == Overflowed
  {
  }

  /** Past `end`, the days stamped are the walk's days. */
  lemma WalkingDone(start: int, end: int, step: int, current: int, days: seq<int>)
    requires Walking(start, end, step, current, days) && end < current
    ensures WalkFrom(start, end, step) == Reached(days)
  {
  }

  /** The loop of `_generate_timestamps`, from `timedelta(days=...)` on. The
      source loops forever when the interval is zero and the range is not
      empty; the model returns `Diverges` there instead of entering the
      loop. */
  method Walk(start: int, end: int, intervalDays: int) returns (r: Outcome)
    requires 1 <= start <= MaxOrdinal() && 1 <= end <= MaxOrdinal()
    ensures r == Steps(start, end, intervalDays)
  {
    if intervalDays < -MaxDays || MaxDays < intervalDays {
      return Raises(OverflowError);
    }
    var interval := intervalDays;
    var timestamps: seq<string> := [];
    var current := start;
    if interval == 0 && current <= end {
      return Diverges;
    }
    ghost var days: seq<int> := [];
    WalkClosed(start, end, interval);
    while current <= end
      invariant Walking(start, end, interval, current, days)
      invariant timestamps == StampsOf(days)
      decreases if interval > 0 then MaxOrdinal() - current else current
    {
      StampsSnoc(days, current);
      timestamps := timestamps + [Stamp(current)];
      if current + interval < 1 || MaxOrdinal() < current + interval {
        WalkingOverflow(start, end, interval, current, days);
        return Raises(OverflowError);
      }
      WalkingStep(start, end, interval, current, days);
      days := days + [current];
      current := current + interval;
    }
    WalkingDone(start, end, interval, current, days);
    return Returns(timestamps);
  }

  /** The days walked are `start`, `start + interval`, ... up to `end`; the
      next one would pass `end`; no days means an empty range. */
  lemma ClosedDays(start: int, end: int, intervalDays: int)
    requires 1 <= start <= MaxOrdinal() && 1 <= end <= MaxOrdinal()
    requires Closed(start, end, intervalDays).Reached?
    ensures var d := Closed(start, end, intervalDays).days;
            (d == [] <==> end < start)
            && (start <= end ==> intervalDays > 0 && |d| == (end - start) / intervalDays + 1)
            && (forall j :: 0 <= j < |d| ==> d[j] == start + j * intervalDays <= end)
            && (d != [] ==> end < start + |d| * intervalDays)
  {
    var d := Closed(start, end, intervalDays).days;
    if start <= end {
      GridWithin(start, end, intervalDays);
      forall j | 0 <= j < |d| ensures d[j] == start + j * intervalDays {
        GridAt(start, intervalDays, |d|, j);
      }
    }
  }

  /** The timestamps returned are those of the days `start`, `start +
      interval`, ... up to `end`, each reading back as its day with
      `'%Y%m%d'`; the next day would pass `end`; an empty list means an
      empty range. */
  lemma StepsDays(start: int, end: int, intervalDays: int)
    requires 1 <= start <= MaxOrdinal() && 1 <= end <= MaxOrdinal()
    requires Steps(start, end, intervalDays).Returns?
    ensures var st := Steps(start, end, intervalDays).stamps;
            (st == [] <==> end < start)
            && (start <= end ==> intervalDays > 0 && |st| == (end - start) / intervalDays + 1)
            && (forall j :: 0 <= j < |st| ==>
                  start + j * intervalDays <= end && ParseDay(st[j][..8]) == Ok(start + j * intervalDays))
            && (st != [] ==> end < start + |st| * intervalDays)
  {
    StepsStamps(start, end, intervalDays);
    ClosedDays(start, end, intervalDays);
    var d := Closed(start, end, intervalDays).days;
    var st := Steps(start, end, intervalDays).stamps;
    StampsReadBack(st, d, start, intervalDays);
  }

  /** Each of a list of timestamps of grid days reads back as its day. */
  lemma StampsReadBack(st: seq<string>, d: seq<int>, start: int, step: int)
    requires |st| == |d| && forall j :: 0 <= j < |d| ==> 1 <= d[j] <= MaxOrdinal() && st[j] == Stamp(d[j])
    requires forall j :: 0 <= j < |d| ==> d[j] == start + j * step
    ensures forall j :: 0 <= j < |st| ==> |st[j]| == 14 && ParseDay(st[j][..8]) == Ok(start + j * step)
  {
    forall j | 0 <= j < |st| ensures |st[j]| == 14 && ParseDay(st[j][..8]) == Ok(start + j * step) {
      StampRoundTrip(d[j]);
    }
  }

  /** Consecutive timestamps are `interval_days` apart and increase. */
  lemma StepsIncrease(start: int, end: int, intervalDays: int, j: int)
    requires 1 <= start <= MaxOrdinal() && 1 <= end <= MaxOrdinal()
    requires Steps(start, end, intervalDays).Returns?
    requires 0 <= j < |Steps(start, end, intervalDays).stamps| - 1
    ensures var st := Steps(start, end, intervalDays).stamps;
            ParseDay(st[j][..8]).Ok? && ParseDay(st[j + 1][..8]).Ok?
            && ParseDay(st[j + 1][..8]).value == ParseDay(st[j][..8]).value + intervalDays
            && ParseDay(st[j][..8]).value < ParseDay(st[j + 1][..8]).value
  {
    StepsDays(start, end, intervalDays);
    MulSucc(j, intervalDays);
  }

  /** The loop never ends exactly when both dates parse, the range is not
      empty and the interval is zero. */
  lemma GeneratedDiverges(startDate: string, endDate: string, intervalDays: int)
    ensures Generated(startDate, endDate, intervalDays) == Diverges
            <==> ParseDay(startDate).Ok? && ParseDay(endDate).Ok?
                 && ParseDay(startDate).value <= ParseDay(endDate).value && intervalDays == 0
  {
    var start, end := ParseDay(startDate), ParseDay(endDate);
    if start.Ok? && end.Ok? {
      StepsDiverges(start.value, end.value, intervalDays);
    }
  }

  /** Once the dates are parsed, only a zero interval over a non-empty
      range loops forever. */
  lemma StepsDiverges(start: int, end: int, intervalDays: int)
    requires 1 <= start <= MaxOrdinal() && 1 <= end <= MaxOrdinal()
    ensures Steps(start, end, intervalDays) == Diverges <==> start <= end && intervalDays == 0
  {
  }

  /** A negative interval over a non-empty range walks back past year 1. */
  lemma NegativeIntervalRaises(startDate: string, endDate: string, intervalDays: int)
    requires ParseDay(startDate).Ok? && ParseDay(endDate).Ok?
    requires ParseDay(startDate).value <= ParseDay(endDate).value
    requires -MaxDays <= intervalDays < 0
    ensures Generated(startDate, endDate, intervalDays) == Raises(OverflowError)
  {
  }

  /** A range ending on 9999-12-31 raises: the step after its last day
      cannot be represented. */
  lemma LastDayRaises(start: int, intervalDays: int)
    requires 1 <= start <= MaxOrdinal() && 0 < intervalDays <= MaxDays
    ensures Steps(start, MaxOrdinal(), intervalDays) == Raises(OverflowError)
  {
    GridWithin(start, MaxOrdinal(), intervalDays);
  }

  // ---------------------------------------------------------------- responses

  /** A decoded JSON value, as `response.json()` gives it (numbers are
      integers here). */
  datatype Json =
    | JNull
    | JBool(b: bool)
    | JInt(i: int)
    | JStr(s: string)
    | JArray(items: seq<Json>)
    | JObject(fields: map<string, Json>)

  const ArchivedKey := "archived_snapshots"
  const ClosestKey := "closest"
  const StatusKey := "status"
  const AvailableKey := "available"
  const UrlKey := "url"
  const TimestampKey := "timestamp"
  const OkStatus := "200"

  /** `v[key]` for a string key: a dict looks the key up (KeyError when it
      is missing); any other value refuses string subscripts (TypeError). */
  function Index(v: Json, key: string): (r: Result<Json>)
    ensures r.Ok? <==> v.JObject? && key in v.fields
    ensures r.Ok? ==> r.value == v.fields[key]
  {
    match v
    case JObject(fields) => if key in fields then Ok(fields[key]) else Err(KeyError)
    case _ => Err(TypeError)
  }

  /** `bool(v)`. */
  predicate Truthy(v: Json) {
    match v
    case JNull => false
    case JBool(b) => b
    case JInt(i) => i != 0
    case JStr(s) => s != []
    case JArray(items) => items != []
    case JObject(fields) => fields != map[]
  }

  /** `hash(v)` succeeds: lists and dicts are unhashable. */
  predicate Hashable(v: Json) {
    !v.JArray? && !v.JObject?
  }

  /** What one turn of the `try` block of `_parse_responses` appends. */
  datatype Reading =
    | Skipped                                  // raised or not available before any append
    | UrlOnly(url: Json)                       // the url was appended, then reading the timestamp raised
    | Complete(url: Json, timestamp: Json)     // both were appended

  /** `response['archived_snapshots']['closest']`. */
  function Snapshot(response: Json): Result<Json> {
    match Index(response, ArchivedKey)
    case Err(e) => Err(e)
    case Ok(archived) => Index(archived, ClosestKey)
  }

  /** One turn of the `try` block: every exception is caught and skips the
      response, but the url is appended before the timestamp is read. */
  function Read(response: Json): Reading {
    match Snapshot(response)
    case Err(_) => Skipped
    case Ok(snapshot) =>
      match Index(snapshot, StatusKey)
      case Err(_) => Skipped
      case Ok(status) =>
        if status != JStr(OkStatus) then Skipped
        else
          match Index(snapshot, AvailableKey)
          case Err(_) => Skipped
          case Ok(available) =>
            if !Truthy(available) then Skipped
            else
              match Index(snapshot, UrlKey)
              case Err(_) => Skipped
              case Ok(url) =>
                match Index(snapshot, TimestampKey)
                case Err(_) => UrlOnly(url)
                case Ok(timestamp) => Complete(url, timestamp)
  }

  /** A response whose closest snapshot has status `'200'`, is available
      and has a url: it is read with its url, and completely exactly when it
      also has a timestamp. */
  lemma ReadAppends(response: Json)
    ensures Read(response) != Skipped
            <==> Snapshot(response).Ok? && Snapshot(response).value.JObject?
                 && var f := Snapshot(response).value.fields;
                    StatusKey in f && f[StatusKey] == JStr(OkStatus)
                    && AvailableKey in f && Truthy(f[AvailableKey]) && UrlKey in f
    ensures Read(response) != Skipped ==>
              var f := Snapshot(response).value.fields;
              Read(response).url == f[UrlKey]
              && (Read(response).Complete? <==> TimestampKey in f)
              && (Read(response).Complete? ==> Read(response).timestamp == f[TimestampKey])
  {
  }

  /** The `url` column and the `timestamp` column of the result. */
  datatype Links = Links(urls: seq<Json>, timestamps: seq<Json>)

  /** The reading of every response, in order. */
  function ReadAll(rs: seq<Json>): (ws: seq<Reading>)
    ensures |ws| == |rs| && forall i :: 0 <= i < |rs| ==> ws[i] == Read(rs[i])
  {
    seq(|rs|, i requires 0 <= i < |rs| => Read(rs[i]))
  }

  /** The urls appended, in order. */
  function Urls(ws: seq<Reading>): seq<Json> {
    if ws == [] then []
    else
      var w := ws[|ws| - 1];
      Urls(ws[..|ws| - 1]) + (if w.Skipped? then [] else [w.url])
  }

  /** The timestamps appended, in order. */
  function Stamps(ws: seq<Reading>): seq<Json> {
    if ws == [] then []
    else
      var w := ws[|ws| - 1];
      Stamps(ws[..|ws| - 1]) + (if w.Complete? then [w.timestamp] else [])
  }

  /** The url and timestamp of every complete reading, in order. */
  function Kept(ws: seq<Reading>): seq<(Json, Json)> {
    if ws == [] then []
    else
      var w := ws[|ws| - 1];
      Kept(ws[..|ws| - 1]) + (if w.Complete? then [(w.url, w.timestamp)] else [])
  }

  /** `drop_duplicates(subset=['timestamp'])` hashes every timestamp. */
  predicate AllHashable(values: seq<Json>) {
    forall j :: 0 <= j < |values| ==> Hashable(values[j])
  }

  /** The frame built from the lists: `pd.DataFrame` refuses columns of
      unequal length (ValueError); `drop_duplicates` raises TypeError on an
      unhashable timestamp, and its result is discarded, so the frame comes
      back with every row. */
  function Assembled(ws: seq<Reading>): Result<Links> {
    var urls, stamps := Urls(ws), Stamps(ws);
    if |urls| != |stamps| then Err(ValueError)
    else if !AllHashable(stamps) then Err(TypeError)
    else Ok(Links(urls, stamps))
  }

  /** `_parse_responses(responses)`. */
  function Parsed(rs: seq<Json>): Result<Links> {
    Assembled(ReadAll(rs))
  }

  /** `_parse_responses(responses)`. */
  method ParseResponses(responses: seq<Json>) returns (r: Result<Links>)
    ensures r == Parsed(responses)
  {
    var urls: seq<Json> := [];
    var timestamps: seq<Json> := [];
    for i := 0 to |responses|
      invariant urls == Urls(ReadAll(responses[..i]))
      invariant timestamps == Stamps(ReadAll(responses[..i]))
    {
      ReadAllStep(responses, i);
      var snapshot := Snapshot(responses[i]);
      if snapshot.Ok? {
        var status := Index(snapshot.value, StatusKey);
        if status.Ok? && status.value == JStr(OkStatus) {
          var available := Index(snapshot.value, AvailableKey);
          if available.Ok? && Truthy(available.value) {
            var url := Index(snapshot.value, UrlKey);
            if url.Ok? {
              urls := urls + [url.value];
              var timestamp := Index(snapshot.value, TimestampKey);
              if timestamp.Ok? {
                timestamps := timestamps + [timestamp.value];
              }
            }
          }
        }
      }
    }
    assert responses[..|responses|] == responses;
    if |urls| != |timestamps| {
      return Err(ValueError);
    }
    if !AllHashable(timestamps) {
      return Err(TypeError);
    }
    return Ok(Links(urls, timestamps));
  }

  /** One more response extends the lists by what its reading appends. */
  lemma ReadAllStep(rs: seq<Json>, i: nat)
    requires i < |rs|
    ensures var w := Read(rs[i]);
            Urls(ReadAll(rs[..i + 1])) == Urls(ReadAll(rs[..i])) + (if w.Skipped? then [] else [w.url])
            && Stamps(ReadAll(rs[..i + 1])) == Stamps(ReadAll(rs[..i])) + (if w.Complete? then [w.timestamp] else [])
  {
    var ws := ReadAll(rs[..i + 1]);
    assert ws[..i] == ReadAll(rs[..i]);
    assert ws[i] == Read(rs[i]);
  }

  /** The lists of a batch of readings are those of its parts. */
  lemma {:induction false} AppendedSplit(a: seq<Reading>, b: seq<Reading>)
    ensures Urls(a + b) == Urls(a) + Urls(b)
    ensures Stamps(a + b) == Stamps(a) + Stamps(b)
    ensures Kept(a + b) == Kept(a) + Kept(b)
    decreases |b|
  {
    if b != [] {
      var b' := b[..|b| - 1];
      assert (a + b)[..|a + b| - 1] == a + b';
      assert (a + b)[|a + b| - 1] == b[|b| - 1];
      AppendedSplit(a, b');
    } else {
      assert a + b == a;
    }
  }

  /** Every url comes with a timestamp exactly when no reading lost its
      timestamp after its url was appended. */
  lemma {:induction false} UrlsOutnumber(ws: seq<Reading>)
    ensures |Urls(ws)| >= |Stamps(ws)|
    ensures |Urls(ws)| == |Stamps(ws)| <==> forall i :: 0 <= i < |ws| ==> !ws[i].UrlOnly?
    decreases |ws|
  {
    if ws != [] {
      var ws' := ws[..|ws| - 1];
      UrlsOutnumber(ws');
      assert forall i :: 0 <= i < |ws'| ==> ws'[i] == ws[i];
    }
  }

  /** Without a lost timestamp, row `j` of the two lists is the `j`-th
      complete reading. */
  lemma {:induction false} KeptColumns(ws: seq<Reading>)
    requires forall i :: 0 <= i < |ws| ==> !ws[i].UrlOnly?
    ensures |Urls(ws)| == |Kept(ws)| == |Stamps(ws)|
    ensures forall j :: 0 <= j < |Kept(ws)| ==> Kept(ws)[j] == (Urls(ws)[j], Stamps(ws)[j])
    decreases |ws|
  {
    if ws != [] {
      var ws' := ws[..|ws| - 1];
      assert forall i :: 0 <= i < |ws'| ==> ws'[i] == ws[i];
      KeptColumns(ws');
    }
  }

  /** The rows kept are exactly the complete readings. */
  lemma {:induction false} KeptMembers(ws: seq<Reading>, row: (Json, Json))
    ensures row in Kept(ws) <==> Complete(row.0, row.1) in ws
    decreases |ws|
  {
    if ws != [] {
      var ws' := ws[..|ws| - 1];
      KeptMembers(ws', row);
      assert ws == ws' + [ws[|ws| - 1]];
    }
  }

  /** At most one row per response. */
  lemma {:induction false} KeptLength(ws: seq<Reading>)
    ensures |Kept(ws)| <= |ws|
    decreases |ws|
  {
    if ws != [] {
      KeptLength(ws[..|ws| - 1]);
    }
  }

  /** `_parse_responses` returns a frame exactly when no response lost its
      timestamp and every timestamp is hashable; its rows are then the
      complete reads, in order. */
  lemma ParsedRows(rs: seq<Json>)
    ensures var ws := ReadAll(rs);
            Parsed(rs).Ok?
            <==> (forall i :: 0 <= i < |rs| ==> !Read(rs[i]).UrlOnly?) && AllHashable(Stamps(ws))
    ensures var ws := ReadAll(rs);
            Parsed(rs).Ok? ==>
              var l := Parsed(rs).value;
              |l.urls| == |l.timestamps| == |Kept(ws)|
              && forall j :: 0 <= j < |Kept(ws)| ==> Kept(ws)[j] == (l.urls[j], l.timestamps[j])
  {
    var ws := ReadAll(rs);
    UrlsOutnumber(ws);
    if Parsed(rs).Ok? {
      KeptColumns(ws);
    }
  }

  /** A single response that has a url but no timestamp makes the whole
      call raise ValueError: every other snapshot is lost with it. */
  lemma MissingTimestampRaises(rs: seq<Json>, i: int)
    requires 0 <= i < |rs| && Read(rs[i]).UrlOnly?
    ensures Parsed(rs) == Err(ValueError)
  {
    UrlsOutnumber(ReadAll(rs));
  }

  /** The timestamps of a doubled batch are all hashable exactly when
      those of the batch are. */
  lemma HashableTwice(values: seq<Json>)
    ensures AllHashable(values + values) <==> AllHashable(values)
  {
    if !AllHashable(values) {
      var j :| 0 <= j < |values| && !Hashable(values[j]);
      assert (values + values)[j] == values[j];
    }
  }

  /** Responses that repeat come back as repeated rows: the result of
      `drop_duplicates` is discarded. */
  lemma DuplicatesKept(rs: seq<Json>)
    requires Parsed(rs).Ok?
    ensures var l := Parsed(rs).value;
            Parsed(rs + rs) == Ok(Links(l.urls + l.urls, l.timestamps + l.timestamps))
  {
    var ws := ReadAll(rs);
    assert ReadAll(rs + rs) == ws + ws;
    AppendedSplit(ws, ws);
    HashableTwice(Stamps(ws));
  }

  // ------------------------------------------------- responses, as intended

  /** Python equality of hashable JSON values, as a hash table sees it:
      `True == 1` and `False == 0`. */
  function Key(v: Json): Json {
    match v
    case JBool(b) => JInt(if b then 1 else 0)
    case _ => v
  }

  /** The timestamp keys of some rows. */
  function KeysOf(rows: seq<(Json, Json)>): (keys: seq<Json>)
    ensures |keys| == |rows| && forall j :: 0 <= j < |rows| ==> keys[j] == Key(rows[j].1)
  {
    seq(|rows|, j requires 0 <= j < |rows| => Key(rows[j].1))
  }

  /** `drop_duplicates(subset=['timestamp'])`: the first row of each
      timestamp, in order. */
  function Dedup(rows: seq<(Json, Json)>): seq<(Json, Json)> {
    if rows == [] then []
    else
      var d := Dedup(rows[..|rows| - 1]);
      if Key(rows[|rows| - 1].1) in KeysOf(d) then d else d + [rows[|rows| - 1]]
  }

  /** No two rows share a timestamp. */
  predicate DistinctKeys(rows: seq<(Json, Json)>) {
    forall i, j :: 0 <= i < j < |rows| ==> Key(rows[i].1) != Key(rows[j].1)
  }

  /** No two rows left share a timestamp. */
  lemma {:induction false} DedupDistinct(rows: seq<(Json, Json)>)
    ensures DistinctKeys(Dedup(rows))
    decreases |rows|
  {
    if rows != [] {
      var d := Dedup(rows[..|rows| - 1]);
      DedupDistinct(rows[..|rows| - 1]);
      var last := rows[|rows| - 1];
      if Key(last.1) !in KeysOf(d) {
        var d' := d + [last];
        forall i, j | 0 <= i < j < |d'| ensures Key(d'[i].1) != Key(d'[j].1) {
          assert d'[i] == d[i];
          if j < |d| {
            assert d'[j] == d[j];
          } else {
            assert d'[j] == last;
            assert KeysOf(d)[i] in KeysOf(d);
          }
        }
        assert DistinctKeys(d');
      }
    }
  }

  /** Every row left is one of the rows. */
  lemma {:induction false} DedupFrom(rows: seq<(Json, Json)>)
    ensures forall row :: row in Dedup(rows) ==> row in rows
    decreases |rows|
  {
    if rows != [] {
      var rows' := rows[..|rows| - 1];
      DedupFrom(rows');
      assert forall row :: row in rows' ==> row in rows;
    }
  }

  /** Every timestamp of the rows is still there. */
  lemma {:induction false} DedupCovers(rows: seq<(Json, Json)>)
    ensures forall row :: row in rows ==> Key(row.1) in KeysOf(Dedup(rows))
    decreases |rows|
  {
    if rows != [] {
      var rows' := rows[..|rows| - 1];
      DedupCovers(rows');
      var d := Dedup(rows');
      assert rows == rows' + [rows[|rows| - 1]];
      forall row | row in rows ensures Key(row.1) in KeysOf(Dedup(rows)) {
        if row in rows' {
          var j :| 0 <= j < |d| && KeysOf(d)[j] == Key(row.1);
          assert KeysOf(Dedup(rows))[j] == Key(row.1);
        } else if Key(row.1) !in KeysOf(d) {
          assert KeysOf(Dedup(rows))[|d|] == Key(row.1);
        }
      }
    }
  }

  /** Where each row `Dedup` keeps comes from in the input. */
  function DedupIndices(rows: seq<(Json, Json)>): (idx: seq<nat>)
    ensures |idx| == |Dedup(rows)| && forall k :: 0 <= k < |idx| ==> idx[k] < |rows|
  {
    if rows == [] then []
    else
      var rows' := rows[..|rows| - 1];
      var idx' := DedupIndices(rows');
      if Key(rows[|rows| - 1].1) in KeysOf(Dedup(rows')) then idx' else idx' + [|rows| - 1]
  }

  /** The rows `Dedup` keeps are input rows, in input order. */
  lemma {:induction false} DedupOrder(rows: seq<(Json, Json)>)
    ensures forall k :: 0 <= k < |DedupIndices(rows)| ==> Dedup(rows)[k] == rows[DedupIndices(rows)[k]]
    ensures forall k, l :: 0 <= k < l < |DedupIndices(rows)| ==> DedupIndices(rows)[k] < DedupIndices(rows)[l]
    decreases |rows|
  {
    if rows != [] {
      var n := |rows| - 1;
      var rows' := rows[..n];
      DedupOrder(rows');
      var d', idx' := Dedup(rows'), DedupIndices(rows');
      var d, idx := Dedup(rows), DedupIndices(rows);
      if Key(rows[n].1) in KeysOf(d') {
        assert d == d' && idx == idx';
      } else {
        assert d == d' + [rows[n]] && idx == idx' + [n];
      }
      forall k | 0 <= k < |idx| ensures d[k] == rows[idx[k]] {
        if k < |idx'| {
          assert d[k] == d'[k] && idx[k] == idx'[k] && rows'[idx'[k]] == rows[idx'[k]];
        }
      }
    }
  }

  /** No row before kept row `k` has its timestamp. */
  lemma {:induction false} DedupFirstAt(rows: seq<(Json, Json)>, k: nat, j: nat)
    requires k < |DedupIndices(rows)| && j < DedupIndices(rows)[k]
    ensures Key(rows[j].1) != Key(Dedup(rows)[k].1)
    decreases |rows|
  {
    var n := |rows| - 1;
    var rows' := rows[..n];
    var d', idx' := Dedup(rows'), DedupIndices(rows');
    assert rows[j] == rows'[j];
    if Key(rows[n].1) in KeysOf(d') {
      assert Dedup(rows) == d' && DedupIndices(rows) == idx';
      DedupFirstAt(rows', k, j);
    } else {
      assert Dedup(rows) == d' + [rows[n]] && DedupIndices(rows) == idx' + [n];
      if k < |idx'| {
        DedupFirstAt(rows', k, j);
      } else {
        DedupCovers(rows');
        assert rows'[j] in rows';
      }
    }
  }

  /** `drop_duplicates` keeps the first row of each timestamp: no row
      before a kept row has its timestamp. */
  lemma DedupFirst(rows: seq<(Json, Json)>)
    ensures forall k, j :: 0 <= k < |DedupIndices(rows)| && 0 <= j < DedupIndices(rows)[k] ==>
              Key(rows[j].1) != Key(Dedup(rows)[k].1)
  {
    forall k, j | 0 <= k < |DedupIndices(rows)| && 0 <= j < DedupIndices(rows)[k] {
      DedupFirstAt(rows, k, j);
    }
  }

  /** Rows whose timestamps were all seen already change nothing. */
  lemma {:induction false} DedupAbsorbs(a: seq<(Json, Json)>, b: seq<(Json, Json)>)
    requires forall row :: row in b ==> Key(row.1) in KeysOf(Dedup(a))
    ensures Dedup(a + b) == Dedup(a)
    decreases |b|
  {
    if b != [] {
      var b' := b[..|b| - 1];
      assert (a + b)[..|a + b| - 1] == a + b';
      assert (a + b)[|a + b| - 1] == b[|b| - 1];
      assert forall row :: row in b' ==> row in b;
      DedupAbsorbs(a, b');
    } else {
      assert a + b == a;
    }
  }

  /** The frame of some rows. */
  function LinksOf(rows: seq<(Json, Json)>): (l: Links)
    ensures |l.urls| == |l.timestamps| == |rows|
    ensures forall j :: 0 <= j < |rows| ==> rows[j] == (l.urls[j], l.timestamps[j])
  {
    Links(seq(|rows|, j requires 0 <= j < |rows| => rows[j].0),
          seq(|rows|, j requires 0 <= j < |rows| => rows[j].1))
  }

  /** `_parse_responses` as evidently intended: a response is kept only when
      both its url and its timestamp can be read, and the frame that
      `drop_duplicates` returns is the one returned. */
  function ParsedIntended(rs: seq<Json>): Result<Links> {
    var ws := ReadAll(rs);
    if !AllHashable(Stamps(ws)) then Err(TypeError)
    else Ok(LinksOf(Dedup(Kept(ws))))
  }

  /** The intended parse raises only on an unhashable timestamp; its rows
      are complete reads of the responses, no two with the same timestamp,
      and every complete read's timestamp is among them. */
  lemma ParsedIntendedRows(rs: seq<Json>)
    ensures ParsedIntended(rs).Ok? <==> AllHashable(Stamps(ReadAll(rs)))
    ensures ParsedIntended(rs).Ok? ==>
              var l := ParsedIntended(rs).value;
              |l.urls| == |l.timestamps|
              && (forall i, j :: 0 <= i < j < |l.timestamps| ==> Key(l.timestamps[i]) != Key(l.timestamps[j]))
              && (forall j :: 0 <= j < |l.urls| ==> Complete(l.urls[j], l.timestamps[j]) in ReadAll(rs))
              && (forall i :: 0 <= i < |rs| && Read(rs[i]).Complete? ==>
                    Key(Read(rs[i]).timestamp) in KeysOf(Dedup(Kept(ReadAll(rs)))))
  {
    var ws := ReadAll(rs);
    if AllHashable(Stamps(ws)) {
      var d := Dedup(Kept(ws));
      var l := LinksOf(d);
      DedupDistinct(Kept(ws));
      DedupFrom(Kept(ws));
      DedupCovers(Kept(ws));
      forall i, j | 0 <= i < j < |l.timestamps| ensures Key(l.timestamps[i]) != Key(l.timestamps[j]) {
        assert d[i].1 == l.timestamps[i] && d[j].1 == l.timestamps[j];
      }
      forall j | 0 <= j < |l.urls| ensures Complete(l.urls[j], l.timestamps[j]) in ws {
        assert d[j] in Kept(ws);
        KeptMembers(ws, d[j]);
      }
      forall i | 0 <= i < |rs| && Read(rs[i]).Complete?
        ensures Key(Read(rs[i]).timestamp) in KeysOf(d)
      {
        var row := (ws[i].url, ws[i].timestamp);
        assert ws[i] == Complete(row.0, row.1);
        KeptMembers(ws, row);
        assert row in Kept(ws);
      }
    }
  }

  /** Querying the same snapshots twice gives the intended frame once. */
  lemma DuplicatesDropped(rs: seq<Json>)
    ensures ParsedIntended(rs + rs) == ParsedIntended(rs)
  {
    var ws := ReadAll(rs);
    assert ReadAll(rs + rs) == ws + ws;
    AppendedSplit(ws, ws);
    HashableTwice(Stamps(ws));
    DedupCovers(Kept(ws));
    DedupAbsorbs(Kept(ws), Kept(ws));
  }

  /** A response with status `'200'`, available and a url but no timestamp:
      as written it makes the call raise ValueError; as intended it is
      skipped. */
  lemma MissingTimestampExample()
    ensures var snapshot := JObject(map[StatusKey := JStr(OkStatus), AvailableKey := JBool(true),
                                        UrlKey := JStr(UrlKey)]);
            var response := JObject(map[ArchivedKey := JObject(map[ClosestKey := snapshot])]);
            Parsed([response]) == Err(ValueError) && ParsedIntended([response]) == Ok(Links([], []))
  {
    var snapshot := JObject(map[StatusKey := JStr(OkStatus), AvailableKey := JBool(true), UrlKey := JStr(UrlKey)]);
    var response := JObject(map[ArchivedKey := JObject(map[ClosestKey := snapshot])]);
    assert Snapshot(response) == Ok(snapshot);
    assert Read(response) == UrlOnly(JStr(UrlKey));
    var ws := ReadAll([response]);
    assert ws == [UrlOnly(JStr(UrlKey))];
    assert ws[..0] == [];
    assert Urls(ws) == [JStr(UrlKey)];
    assert Stamps(ws) == [];
    assert Kept(ws) == [];
    assert Dedup([]) == [];
  }
}
