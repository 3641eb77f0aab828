/** `datetime.strptime` for the directives the scrapers use. Python compiles
    a format into a regular expression, one group per directive, a `\s+` for
    every run of whitespace and the other characters literally; it takes the
    first match a backtracking matcher finds from the start of the string,
    raises ValueError if there is none or if text is left after it
    ("unconverted data remains"), reads each group with `int()` and finally
    builds the date, which raises ValueError for a day the month does not
    have or the year 0. */
module Strptime {
  import opened Py
  import opened Calendar

  /** One element of a compiled format: `%d`, `%m`, `%Y`, `%H`, `%M`, a run
      of whitespace, or a literal character. */
  datatype Directive = Day | Month | Year | Hour | Minute | Blank | Lit(c: char)

  /** `'%d/%m/%Y %H:%M'`. */
  const DayMonthYearTime: seq<Directive> :=
    [Day, Lit('/'), Month, Lit('/'), Year, Blank, Hour, Lit(':'), Minute]

  /** `'%Y%m%d'`. */
  const YearMonthDay: seq<Directive> := [Year, Month, Day]

  predicate CharIn(s: string, i: nat, lo: char, hi: char) {
    i < |s| && lo <= s[i] <= hi
  }

  /** The number of whitespace characters starting at `pos`. */
  function SpaceRun(s: string, pos: nat): (n: nat)
    requires pos <= |s|
    ensures pos + n <= |s|
    ensures forall i :: pos <= i < pos + n ==> IsSpace(s[i])
    ensures pos + n == |s| || !IsSpace(s[pos + n])
    decreases |s| - pos
  {
    if pos < |s| && IsSpace(s[pos]) then 1 + SpaceRun(s, pos + 1) else 0
  }

  /** `[n, n - 1, ..., 1]`: the lengths a greedy `\s+` tries, longest first. */
  function Descending(n: nat): (r: seq<nat>)
    ensures |r| == n && forall i :: 0 <= i < n ==> r[i] == n - i
  {
    if n == 0 then [] else [n] + Descending(n - 1)
  }

  /** The lengths of the alternatives of a directive's regular expression
      that match at `pos`, in the order the matcher tries them:
        %d  3[01] | [12]\d | 0[1-9] | [1-9] | ' '[1-9]
        %m  1[0-2] | 0[1-9] | [1-9]
        %Y  \d\d\d\d
        %H  2[0-3] | [01]\d | \d
        %M  [0-5]\d | \d
      and `\s+` greedily. */
  function Alternatives(d: Directive, s: string, pos: nat): (lens: seq<nat>)
    requires pos <= |s|
    ensures forall k :: 0 <= k < |lens| ==> 1 <= lens[k] && pos + lens[k] <= |s|
  {
    match d
    case Lit(c) => if pos < |s| && s[pos] == c then [1] else []
    case Blank => Descending(SpaceRun(s, pos))
    case Year =>
      if CharIn(s, pos, '0', '9') && CharIn(s, pos + 1, '0', '9')
         && CharIn(s, pos + 2, '0', '9') && CharIn(s, pos + 3, '0', '9') then [4] else []
    case Month => MonthAlternatives(s, pos)
    case Day => DayAlternatives(s, pos)
    case Hour => HourAlternatives(s, pos)
    case Minute =>
      (if CharIn(s, pos, '0', '5') && CharIn(s, pos + 1, '0', '9') then [2] else [])
      + (if CharIn(s, pos, '0', '9') then [1] else [])
  }

  function MonthAlternatives(s: string, pos: nat): (lens: seq<nat>)
    requires pos <= |s|
    ensures forall k :: 0 <= k < |lens| ==> 1 <= lens[k] && pos + lens[k] <= |s|
  {
    (if CharIn(s, pos, '1', '1') && CharIn(s, pos + 1, '0', '2') then [2] else [])
    + (if CharIn(s, pos, '0', '0') && CharIn(s, pos + 1, '1', '9') then [2] else [])
    + (if CharIn(s, pos, '1', '9') then [1] else [])
  }

  function DayAlternatives(s: string, pos: nat): (lens: seq<nat>)
    requires pos <= |s|
    ensures forall k :: 0 <= k < |lens| ==> 1 <= lens[k] && pos + lens[k] <= |s|
  {
    (if CharIn(s, pos, '3', '3') && CharIn(s, pos + 1, '0', '1') then [2] else [])
    + (if CharIn(s, pos, '1', '2') && CharIn(s, pos + 1, '0', '9') then [2] else [])
    + (if CharIn(s, pos, '0', '0') && CharIn(s, pos + 1, '1', '9') then [2] else [])
    + (if CharIn(s, pos, '1', '9') then [1] else [])
    + (if CharIn(s, pos, ' ', ' ') && CharIn(s, pos + 1, '1', '9') then [2] else [])
  }

  function HourAlternatives(s: string, pos: nat): (lens: seq<nat>)
    requires pos <= |s|
    ensures forall k :: 0 <= k < |lens| ==> 1 <= lens[k] && pos + lens[k] <= |s|
  {
    (if CharIn(s, pos, '2', '2') && CharIn(s, pos + 1, '0', '3') then [2] else [])
    + (if CharIn(s, pos, '0', '1') && CharIn(s, pos + 1, '0', '9') then [2] else [])
    + (if CharIn(s, pos, '0', '9') then [1] else [])
  }

  /** A successful match: the text each directive consumed, and where the
      match ends. */
  type Found = (seq<string>, nat)

  function Cons(text: string, m: Option<Found>): Option<Found> {
    match m
    case None => None
    case Some((texts, end)) => Some(([text] + texts, end))
  }

  /** The first match of `fmt` at `pos` in backtracking order, as
      `re.match` finds it; it need not reach the end of `s`. */
  function Match(fmt: seq<Directive>, s: string, pos: nat): (r: Option<Found>)
    requires pos <= |s|
    ensures r.Some? ==> |r.value.0| == |fmt| && pos <= r.value.1 <= |s|
    decreases |fmt|, 1, 0
  {
    if fmt == [] then Some(([], pos)) else FirstMatch(fmt, s, pos, Alternatives(fmt[0], s, pos))
  }

  /** Tries the alternatives `lens` of `fmt[0]` in order, each followed by a
      match of the rest of the format. */
  function FirstMatch(fmt: seq<Directive>, s: string, pos: nat, lens: seq<nat>): (r: Option<Found>)
    requires fmt != [] && pos <= |s|
    requires forall k :: 0 <= k < |lens| ==> 1 <= lens[k] && pos + lens[k] <= |s|
    ensures r.Some? ==> |r.value.0| == |fmt| && pos <= r.value.1 <= |s|
    decreases |fmt|, 0, |lens|
  {
    if lens == [] then None
    else
      var rest := Match(fmt[1..], s, pos + lens[0]);
      if rest.Some? then Cons(s[pos..pos + lens[0]], rest)
      else FirstMatch(fmt, s, pos, lens[1..])
  }

  /** The index of the first occurrence of directive `d` in `fmt`, that is
      the group `found_dict` holds under its name. */
  function Position(fmt: seq<Directive>, d: Directive): (r: Option<nat>)
    ensures r.Some? ==> r.value < |fmt|
  {
    if fmt == [] then None
    else if fmt[0] == d then Some(0)
    else match Position(fmt[1..], d)
      case None => None
      case Some(k) => Some(k + 1)
  }

  /** `found_dict[name]`: the text of directive `d`'s group, if the format
      has one. */
  function Group(fmt: seq<Directive>, texts: seq<string>, d: Directive): Option<string>
    requires |texts| == |fmt|
  {
    match Position(fmt, d)
    case None => None
    case Some(k) => Some(texts[k])
  }

  /** `int(found_dict[name])` for the group of directive `d`, or `default`
      when the format has none. */
  function Field(fmt: seq<Directive>, texts: seq<string>, d: Directive, default: int): Result<int>
    requires |texts| == |fmt|
  {
    match Group(fmt, texts, d)
    case None => Ok(default)
    case Some(g) => PyInt(g)
  }

  /** The date and time the groups denote, with the defaults of
      `_strptime` (1900-01-01 00:00) for absent directives; building the
      `datetime` raises ValueError for a field out of its range. */
  function Build(fmt: seq<Directive>, texts: seq<string>): (r: Result<DateTime>)
    requires |texts| == |fmt|
    ensures r.Ok? ==> Valid(r.value)
  {
    var y := Field(fmt, texts, Year, 1900);
    var m := Field(fmt, texts, Month, 1);
    var d := Field(fmt, texts, Day, 1);
    var hh := Field(fmt, texts, Hour, 0);
    var mm := Field(fmt, texts, Minute, 0);
    if y.Err? || m.Err? || d.Err? || hh.Err? || mm.Err? then Err(ValueError)
    else
      var t := DateTime(y.value, m.value, d.value, hh.value, mm.value);
      if Valid(t) then Ok(t) else Err(ValueError)
  }

  /** `datetime.strptime(s, fmt)`: whatever it returns is a date and time
      `datetime` accepts. */
  function Strptime(s: string, fmt: seq<Directive>): (r: Result<DateTime>)
    ensures r.Ok? ==> Valid(r.value)
  {
    match Match(fmt, s, 0)
    case None => Err(ValueError)
    case Some((texts, end)) => if end != |s| then Err(ValueError) else Build(fmt, texts)
  }

  // ---------------------------------------------------------------- matching steps

  /** A directive with a single alternative at `pos` consumes exactly it. */
  lemma SingleAlternative(fmt: seq<Directive>, s: string, pos: nat, n: nat)
    requires fmt != [] && pos <= |s| && Alternatives(fmt[0], s, pos) == [n]
    ensures pos + n <= |s|
    ensures Match(fmt, s, pos) == Cons(s[pos..pos + n], Match(fmt[1..], s, pos + n))
  {
    var lens := Alternatives(fmt[0], s, pos);
    assert lens[0] == n && lens[1..] == [];
    assert Match(fmt, s, pos) == FirstMatch(fmt, s, pos, lens);
    assert FirstMatch(fmt, s, pos, lens[1..]) == None;
  }

  function TwoDigits(s: string, pos: nat): nat
    requires pos + 2 <= |s| && IsDigit(s[pos]) && IsDigit(s[pos + 1])
  {
    10 * DigitValue(s[pos]) + DigitValue(s[pos + 1])
  }

  /** The values a directive's two-character alternatives accept. */
  predicate InRange(d: Directive, v: int) {
    match d
    case Day => 1 <= v <= 31
    case Month => 1 <= v <= 12
    case Hour => 0 <= v <= 23
    case Minute => 0 <= v <= 59
    case _ => false
  }

  predicate TwoDigitDirective(d: Directive) {
    d == Day || d == Month || d == Hour || d == Minute
  }

  /** Whether the directive's one-character alternative accepts digit `c`. */
  predicate OneDigit(d: Directive, c: char) {
    (d == Hour || d == Minute) || c != '0'
  }

  /** On two digits, a directive offers the two-character alternative exactly
      when their value is in its range, and the one-character one after it. */
  lemma TwoDigitAlternatives(d: Directive, s: string, pos: nat)
    requires TwoDigitDirective(d)
    requires pos + 2 <= |s| && IsDigit(s[pos]) && IsDigit(s[pos + 1])
    ensures Alternatives(d, s, pos)
         == (if InRange(d, TwoDigits(s, pos)) then [2] else [])
            + (if OneDigit(d, s[pos]) then [1] else [])
  {
    var a, b := DigitValue(s[pos]), DigitValue(s[pos + 1]);
    assert s[pos] == DigitChar(a) && s[pos + 1] == DigitChar(b);
  }

  /** A two-digit field followed by a directive that cannot start on a
      digit: the field matches its two characters when their value is in
      range, and the match fails otherwise. */
  lemma TwoDigitField(fmt: seq<Directive>, s: string, pos: nat)
    requires |fmt| >= 2 && TwoDigitDirective(fmt[0])
    requires pos + 2 <= |s| && IsDigit(s[pos]) && IsDigit(s[pos + 1])
    requires fmt[1].Lit? && !IsDigit(fmt[1].c)
    ensures Match(fmt, s, pos)
         == if InRange(fmt[0], TwoDigits(s, pos)) then Cons(s[pos..pos + 2], Match(fmt[1..], s, pos + 2))
            else None
  {
    assert Alternatives(fmt[1], s, pos + 1) == [];
    TwoDigitAlternatives(fmt[0], s, pos);
    var lens := Alternatives(fmt[0], s, pos);
    assert Match(fmt, s, pos) == FirstMatch(fmt, s, pos, lens);
    assert Match(fmt[1..], s, pos + 1) == None by {
      assert fmt[1..][0] == fmt[1];
      assert FirstMatch(fmt[1..], s, pos + 1, []) == None;
    }
    var one := [1];
    assert FirstMatch(fmt, s, pos, one) == None by {
      assert one[1..] == [];
      assert FirstMatch(fmt, s, pos, one[1..]) == None;
    }
    if |lens| == 2 {
      assert lens[1..] == one;
    } else if |lens| == 1 && lens[0] == 2 {
      assert lens[1..] == [];
      assert FirstMatch(fmt, s, pos, lens[1..]) == None;
    }
  }

  /** A two-digit field that ends the format and the string. */
  lemma LastTwoDigitField(d: Directive, s: string, pos: nat)
    requires TwoDigitDirective(d)
    requires pos + 2 == |s| && IsDigit(s[pos]) && IsDigit(s[pos + 1])
    ensures Match([d], s, pos)
         == if InRange(d, TwoDigits(s, pos)) then Some(([s[pos..]], |s|))
            else if OneDigit(d, s[pos]) then Some(([s[pos..pos + 1]], pos + 1))
            else None
  {
    TwoDigitAlternatives(d, s, pos);
    var lens := Alternatives(d, s, pos);
    var f := [d];
    assert f[1..] == [];
    assert Match(f, s, pos) == FirstMatch(f, s, pos, lens);
    if lens != [] {
      assert lens[0] == if InRange(d, TwoDigits(s, pos)) then 2 else 1;
      assert Match(f[1..], s, pos + lens[0]) == Some(([], pos + lens[0]));
      var t := s[pos..pos + lens[0]];
      assert [t] + [] == [t];
      assert FirstMatch(f, s, pos, lens) == Some(([s[pos..pos + lens[0]]], pos + lens[0]));
      assert s[pos..pos + 2] == s[pos..];
    }
  }

  // ---------------------------------------------------------------- round trips

  /** The text `'%d/%m/%Y %H:%M'` describes, written with two-digit day,
      month, hour and minute and a four-digit year. */
  function DayMonthYearTimeText(day: nat, month: nat, year: nat, hour: nat, minute: nat): (s: string)
    requires day < 100 && month < 100 && year < 10000 && hour < 100 && minute < 100
    ensures Layout(s)
    ensures TwoDigits(s, 0) == day && TwoDigits(s, 3) == month
    ensures TwoDigits(s, 11) == hour && TwoDigits(s, 14) == minute
    ensures Groups(s) == [Pad2(day), "/", Pad2(month), "/", Pad4(year), " ", Pad2(hour), ":", Pad2(minute)]
  {
    var yyyy := Pad4(year);
    var s := Joined(Pad2(day), Pad2(month), yyyy, Pad2(hour), Pad2(minute));
    assert IsDigit(yyyy[0]) && IsDigit(yyyy[1]) && IsDigit(yyyy[2]) && IsDigit(yyyy[3]);
    TwoDigitsOfPad(s, 0, day);
    TwoDigitsOfPad(s, 3, month);
    TwoDigitsOfPad(s, 11, hour);
    TwoDigitsOfPad(s, 14, minute);
    s
  }

  /** The fields of `dd/mm/yyyy HH:MM` put together with their separators. */
  function Joined(dd: string, mm: string, yyyy: string, hh: string, nn: string): (s: string)
    requires |dd| == 2 && |mm| == 2 && |yyyy| == 4 && |hh| == 2 && |nn| == 2
    ensures |s| == 16 && s[2] == '/' && s[5] == '/' && s[10] == ' ' && s[13] == ':'
    ensures s[0..2] == dd && s[3..5] == mm && s[6..10] == yyyy && s[11..13] == hh && s[14..16] == nn
    ensures s[6] == yyyy[0] && s[7] == yyyy[1] && s[8] == yyyy[2] && s[9] == yyyy[3]
  {
    var s := [dd[0], dd[1], '/', mm[0], mm[1], '/', yyyy[0], yyyy[1], yyyy[2], yyyy[3],
              ' ', hh[0], hh[1], ':', nn[0], nn[1]];
    assert s[0..2] == dd && s[3..5] == mm && s[6..10] == yyyy && s[11..13] == hh && s[14..16] == nn;
    s
  }

  lemma TwoDigitsOfPad(s: string, pos: nat, v: nat)
    requires v < 100 && pos + 2 <= |s| && s[pos..pos + 2] == Pad2(v)
    ensures IsDigit(s[pos]) && IsDigit(s[pos + 1]) && TwoDigits(s, pos) == v
  {
    assert s[pos] == Pad2(v)[0] && s[pos + 1] == Pad2(v)[1];
    assert Pad2(v)[..1] == [s[pos]] && Pad2(v)[..1][..0] == [];
  }

  /** The layout `dd/mm/yyyy HH:MM`: digits, separators and length. */
  predicate Layout(s: string) {
    |s| == 16 && s[2] == '/' && s[5] == '/' && s[10] == ' ' && s[13] == ':'
    && IsDigit(s[0]) && IsDigit(s[1]) && IsDigit(s[3]) && IsDigit(s[4])
    && IsDigit(s[6]) && IsDigit(s[7]) && IsDigit(s[8]) && IsDigit(s[9])
    && IsDigit(s[11]) && IsDigit(s[12]) && IsDigit(s[14]) && IsDigit(s[15])
  }

  /** How far the match of the time part gets: the minute group takes two
      digits when they are a valid minute, one otherwise. */
  function MinuteTail(s: string, minute: nat): Found
    requires |s| == 16
  {
    if InRange(Minute, minute) then ([s[14..16]], 16) else ([s[14..15]], 15)
  }

  /** A literal character matches itself and nothing else. */
  lemma LitStep(fmt: seq<Directive>, s: string, pos: nat)
    requires fmt != [] && fmt[0].Lit? && pos < |s| && s[pos] == fmt[0].c
    ensures Match(fmt, s, pos) == Cons([s[pos]], Match(fmt[1..], s, pos + 1))
  {
    SingleAlternative(fmt, s, pos, 1);
    assert s[pos..pos + 1] == [s[pos]];
  }

  /** A run of whitespace of length one. */
  lemma BlankStep(fmt: seq<Directive>, s: string, pos: nat)
    requires fmt != [] && fmt[0] == Blank && pos + 1 < |s| && IsSpace(s[pos]) && !IsSpace(s[pos + 1])
    ensures Match(fmt, s, pos) == Cons([s[pos]], Match(fmt[1..], s, pos + 1))
  {
    assert SpaceRun(s, pos + 1) == 0;
    assert Descending(1) == [1];
    SingleAlternative(fmt, s, pos, 1);
    assert s[pos..pos + 1] == [s[pos]];
  }

  /** `%Y` on four digits. */
  lemma YearStep(fmt: seq<Directive>, s: string, pos: nat)
    requires fmt != [] && fmt[0] == Year && pos + 4 <= |s|
    requires IsDigit(s[pos]) && IsDigit(s[pos + 1]) && IsDigit(s[pos + 2]) && IsDigit(s[pos + 3])
    ensures Match(fmt, s, pos) == Cons(s[pos..pos + 4], Match(fmt[1..], s, pos + 4))
  {
    SingleAlternative(fmt, s, pos, 4);
  }

  /** `%H:%M` at position 11 of a sixteen-character text. */
  lemma MatchTime(fmt: seq<Directive>, s: string)
    requires |fmt| == 3 && fmt[0] == Hour && fmt[1] == Lit(':') && fmt[2] == Minute
    requires |s| == 16 && s[13] == ':'
    requires IsDigit(s[11]) && IsDigit(s[12]) && IsDigit(s[14]) && IsDigit(s[15])
    ensures Match(fmt, s, 11)
         == if InRange(Hour, TwoDigits(s, 11)) then Cons(s[11..13], Cons(":", Some(MinuteTail(s, TwoDigits(s, 14))))) else None
  {
    LastTwoDigitField(Minute, s, 14);
    assert s[14..] == s[14..16];
    assert fmt[1..][1..] == [Minute];
    LitStep(fmt[1..], s, 13);
    TwoDigitField(fmt, s, 11);
  }

  /** `%Y` and a run of whitespace at position 6. */
  lemma MatchYear(fmt: seq<Directive>, s: string)
    requires |fmt| >= 3 && fmt[0] == Year && fmt[1] == Blank
    requires |s| == 16 && s[10] == ' '
    requires IsDigit(s[6]) && IsDigit(s[7]) && IsDigit(s[8]) && IsDigit(s[9]) && IsDigit(s[11])
    ensures Match(fmt, s, 6) == Cons(s[6..10], Cons(" ", Match(fmt[2..], s, 11)))
  {
    assert IsSpace(' ') && !IsSpace(s[11]);
    BlankStep(fmt[1..], s, 10);
    assert fmt[1..][1..] == fmt[2..];
    YearStep(fmt, s, 6);
  }

  /** A two-digit field followed by `/`. */
  lemma FieldSlash(fmt: seq<Directive>, s: string, pos: nat)
    requires |fmt| >= 2 && (fmt[0] == Day || fmt[0] == Month) && fmt[1] == Lit('/')
    requires pos + 3 <= |s| && s[pos + 2] == '/'
    requires IsDigit(s[pos]) && IsDigit(s[pos + 1])
    ensures Match(fmt, s, pos)
         == if InRange(fmt[0], TwoDigits(s, pos)) then Cons(s[pos..pos + 2], Cons("/", Match(fmt[2..], s, pos + 3)))
            else None
  {
    LitStep(fmt[1..], s, pos + 2);
    assert fmt[1..][1..] == fmt[2..];
    TwoDigitField(fmt, s, pos);
  }

  /** `%d/%m/` at the start. */
  lemma MatchDate(fmt: seq<Directive>, s: string)
    requires |fmt| >= 4 && fmt[0] == Day && fmt[1] == Lit('/') && fmt[2] == Month && fmt[3] == Lit('/')
    requires |s| == 16 && s[2] == '/' && s[5] == '/'
    requires IsDigit(s[0]) && IsDigit(s[1]) && IsDigit(s[3]) && IsDigit(s[4])
    ensures Match(fmt, s, 0)
         == if InRange(Day, TwoDigits(s, 0)) && InRange(Month, TwoDigits(s, 3)) then
              Cons(s[0..2], Cons("/", Cons(s[3..5], Cons("/", Match(fmt[4..], s, 6)))))
            else None
  {
    FieldSlash(fmt[2..], s, 3);
    assert fmt[2..][2..] == fmt[4..];
    FieldSlash(fmt, s, 0);
  }

  /** The groups of `'%d/%m/%Y %H:%M'` on a sixteen-character text of that
      layout. */
  function Groups(s: string): seq<string>
    requires |s| == 16
  {
    [s[0..2], "/", s[3..5], "/", s[6..10], " ", s[11..13], ":", s[14..16]]
  }

  /** The time part of a text of that layout with hour and minute in range. */
  lemma TimeFullMatch(s: string)
    requires Layout(s)
    requires InRange(Hour, TwoDigits(s, 11)) && InRange(Minute, TwoDigits(s, 14))
    ensures Match(DayMonthYearTime[4..], s, 6) == Some((Groups(s)[4..], 16))
  {
    var f := DayMonthYearTime;
    var g := Groups(s);
    MatchTime(f[6..], s);
    assert MinuteTail(s, TwoDigits(s, 14)) == ([g[8]], 16);
    assert Match(f[6..], s, 11) == Some((g[6..], 16)) by {
      assert [g[7]] + [g[8]] == g[7..];
      assert [g[6]] + g[7..] == g[6..];
    }
    MatchYear(f[4..], s);
    assert f[4..][2..] == f[6..];
    assert [g[5]] + g[6..] == g[5..];
    assert [g[4]] + g[5..] == g[4..];
  }

  /** A text of that layout whose fields are all in range matches as a
      whole, one group per directive. */
  lemma DayMonthYearTimeFullMatch(s: string)
    requires Layout(s)
    requires InRange(Day, TwoDigits(s, 0)) && InRange(Month, TwoDigits(s, 3))
    requires InRange(Hour, TwoDigits(s, 11)) && InRange(Minute, TwoDigits(s, 14))
    ensures Match(DayMonthYearTime, s, 0) == Some((Groups(s), 16))
  {
    var g := Groups(s);
    TimeFullMatch(s);
    MatchDate(DayMonthYearTime, s);
    assert [g[3]] + g[4..] == g[3..];
    assert [g[2]] + g[3..] == g[2..];
    assert [g[1]] + g[2..] == g[1..];
    assert [g[0]] + g[1..] == g;
  }

  /** When a field is out of range the match fails or stops short of the
      end. */
  lemma DayMonthYearTimeShortMatch(s: string)
    requires Layout(s)
    requires !(InRange(Day, TwoDigits(s, 0)) && InRange(Month, TwoDigits(s, 3))
               && InRange(Hour, TwoDigits(s, 11)) && InRange(Minute, TwoDigits(s, 14)))
    ensures Match(DayMonthYearTime, s, 0).Some? ==> Match(DayMonthYearTime, s, 0).value.1 == 15
  {
    var f := DayMonthYearTime;
    MatchDate(f, s);
    if InRange(Day, TwoDigits(s, 0)) && InRange(Month, TwoDigits(s, 3)) {
      MatchYear(f[4..], s);
    assert f[4..][2..] == f[6..];
      MatchTime(f[6..], s);
      if InRange(Hour, TwoDigits(s, 11)) {
        assert Match(f[6..], s, 11).value.1 == 15;
      }
    }
  }

  /** Matching a sixteen-character text laid out as `dd/mm/yyyy HH:MM`: the
      whole text matches exactly when each two-digit field is in its
      directive's range; otherwise `strptime` raises ValueError. */
  lemma DayMonthYearTimeMatch(s: string)
    requires Layout(s)
    ensures Strptime(s, DayMonthYearTime)
         == if InRange(Day, TwoDigits(s, 0)) && InRange(Month, TwoDigits(s, 3))
               && InRange(Hour, TwoDigits(s, 11)) && InRange(Minute, TwoDigits(s, 14))
            then Build(DayMonthYearTime, Groups(s))
            else Err(ValueError)
  {
    if InRange(Day, TwoDigits(s, 0)) && InRange(Month, TwoDigits(s, 3))
       && InRange(Hour, TwoDigits(s, 11)) && InRange(Minute, TwoDigits(s, 14)) {
      DayMonthYearTimeFullMatch(s);
    } else {
      DayMonthYearTimeShortMatch(s);
    }
  }

  lemma PyIntPad2(v: nat)
    requires v < 100
    ensures PyInt(Pad2(v)) == Ok(v)
  {
    PyIntOfDigits(Pad2(v));
  }

  lemma PyIntPad4(v: nat)
    requires v < 10000
    ensures PyInt(Pad4(v)) == Ok(v)
  {
    PyIntOfDigits(Pad4(v));
  }

  /** `Build` depends only on the five fields it reads. */
  lemma BuildOf(fmt: seq<Directive>, texts: seq<string>, t: DateTime)
    requires |texts| == |fmt|
    requires Field(fmt, texts, Year, 1900) == Ok(t.year) && Field(fmt, texts, Month, 1) == Ok(t.month)
    requires Field(fmt, texts, Day, 1) == Ok(t.day) && Field(fmt, texts, Hour, 0) == Ok(t.hour)
    requires Field(fmt, texts, Minute, 0) == Ok(t.minute)
    ensures Build(fmt, texts) == if Valid(t) then Ok(t) else Err(ValueError)
  {
  }

  /** The fields of `'%d/%m/%Y %H:%M'` are groups 0, 2, 4, 6 and 8. */
  lemma DayMonthYearTimeGroups(fmt: seq<Directive>, texts: seq<string>)
    requires fmt == DayMonthYearTime && |texts| == 9
    ensures Group(fmt, texts, Day) == Some(texts[0])
    ensures Group(fmt, texts, Month) == Some(texts[2])
    ensures Group(fmt, texts, Year) == Some(texts[4])
    ensures Group(fmt, texts, Hour) == Some(texts[6])
    ensures Group(fmt, texts, Minute) == Some(texts[8])
  {
    DatePositions(fmt);
    TimePositions(fmt);
  }

  lemma DatePositions(fmt: seq<Directive>)
    requires fmt == DayMonthYearTime
    ensures Position(fmt, Day) == Some(0) && Position(fmt, Month) == Some(2) && Position(fmt, Year) == Some(4)
  {
    PositionAt(fmt, Day, 0);
    PositionAt(fmt, Month, 2);
    PositionAt(fmt, Year, 4);
  }

  lemma TimePositions(fmt: seq<Directive>)
    requires fmt == DayMonthYearTime
    ensures Position(fmt, Hour) == Some(6) && Position(fmt, Minute) == Some(8)
  {
    PositionAt(fmt, Hour, 6);
    PositionAt(fmt, Minute, 8);
  }

  /** The position of a directive is the index of its first occurrence. */
  lemma {:induction false} PositionAt(fmt: seq<Directive>, d: Directive, k: nat)
    requires k < |fmt| && fmt[k] == d && forall i :: 0 <= i < k ==> fmt[i] != d
    ensures Position(fmt, d) == Some(k)
    decreases k
  {
    if k > 0 {
      assert fmt[0] != d;
      PositionAt(fmt[1..], d, k - 1);
    }
  }

  /** Building a date from the groups of `'%d/%m/%Y %H:%M'`. */
  lemma BuildGroups(texts: seq<string>, t: DateTime)
    requires |texts| == 9
    requires PyInt(texts[0]) == Ok(t.day) && PyInt(texts[2]) == Ok(t.month) && PyInt(texts[4]) == Ok(t.year)
    requires PyInt(texts[6]) == Ok(t.hour) && PyInt(texts[8]) == Ok(t.minute)
    ensures Build(DayMonthYearTime, texts) == if Valid(t) then Ok(t) else Err(ValueError)
  {
    DayMonthYearTimeGroups(DayMonthYearTime, texts);
    BuildOf(DayMonthYearTime, texts, t);
  }

  /** `'%d/%m/%Y %H:%M'` applied to two-digit day, month, hour and minute and
      a four-digit year parses exactly the valid dates and times, and gives
      back the numbers written; everything else raises ValueError. */
  lemma DayMonthYearTimeRoundTrip(day: nat, month: nat, year: nat, hour: nat, minute: nat)
    requires day < 100 && month < 100 && year < 10000 && hour < 100 && minute < 100
    ensures var t := DateTime(year, month, day, hour, minute);
            Strptime(DayMonthYearTimeText(day, month, year, hour, minute), DayMonthYearTime)
            == if Valid(t) then Ok(t) else Err(ValueError)
  {
    var s := DayMonthYearTimeText(day, month, year, hour, minute);
    var t := DateTime(year, month, day, hour, minute);
    var inRange := InRange(Day, day) && InRange(Month, month) && InRange(Hour, hour) && InRange(Minute, minute);
    assert Valid(t) ==> inRange;
    DayMonthYearTimeMatch(s);
    if inRange {
      var g := Groups(s);
      assert g[0] == Pad2(day) && g[2] == Pad2(month) && g[4] == Pad4(year) && g[6] == Pad2(hour) && g[8] == Pad2(minute);
      PyIntPad2(day);
      PyIntPad2(month);
      PyIntPad4(year);
      PyIntPad2(hour);
      PyIntPad2(minute);
      BuildGroups(g, t);
    }
  }

  /** `'%Y%m%d'` on eight digits: the month and the day take two digits
      each when their values are in range. */
  lemma YearMonthDayMatch(s: string)
    requires |s| == 8 && AllDigits(s)
    requires InRange(Month, TwoDigits(s, 4)) && InRange(Day, TwoDigits(s, 6))
    ensures Match(YearMonthDay, s, 0) == Some(([s[0..4], s[4..6], s[6..8]], 8))
  {
    var f := YearMonthDay;
    var f1: seq<Directive> := [Month, Day];
    assert f[1..] == f1 && f1[1..] == [Day];
    LastTwoDigitField(Day, s, 6);
    assert s[6..] == s[6..8];
    TwoDigitAlternatives(Month, s, 4);
    var lens := Alternatives(Month, s, 4);
    assert lens[0] == 2;
    assert Match(f1, s, 4) == FirstMatch(f1, s, 4, lens);
    assert Match(f1, s, 4) == Some(([s[4..6], s[6..8]], 8)) by {
      assert [s[4..6]] + [s[6..8]] == [s[4..6], s[6..8]];
    }
    YearStep(f, s, 0);
    assert [s[0..4]] + [s[4..6], s[6..8]] == [s[0..4], s[4..6], s[6..8]];
  }

  /** `'%Y%m%d'` on a date written `%04d%02d%02d` splits it into its three
      fields. */
  lemma YearMonthDayParse(year: nat, month: nat, day: nat)
    requires ValidDate(year, month, day)
    ensures Strptime(Pad4(year) + Pad2(month) + Pad2(day), YearMonthDay)
            == Build(YearMonthDay, [Pad4(year), Pad2(month), Pad2(day)])
  {
    var s := Pad4(year) + Pad2(month) + Pad2(day);
    YearMonthDayDigits(year, month, day);
    assert InRange(Month, month) && InRange(Day, day);
    YearMonthDayMatch(s);
  }

  /** Building a date from the groups of `'%Y%m%d'`: no hour or minute
      groups, so midnight. */
  lemma BuildYearMonthDay(fmt: seq<Directive>, texts: seq<string>, year: int, month: int, day: int)
    requires fmt == YearMonthDay && |texts| == 3
    requires PyInt(texts[0]) == Ok(year) && PyInt(texts[1]) == Ok(month) && PyInt(texts[2]) == Ok(day)
    ensures var t := DateTime(year, month, day, 0, 0);
            Build(fmt, texts) == if Valid(t) then Ok(t) else Err(ValueError)
  {
    YearMonthDayPositions(fmt);
    BuildOf(fmt, texts, DateTime(year, month, day, 0, 0));
  }

  /** The groups of `'%Y%m%d'` are 0, 1 and 2; it has no hour or minute. */
  lemma YearMonthDayPositions(fmt: seq<Directive>)
    requires fmt == YearMonthDay
    ensures Position(fmt, Year) == Some(0) && Position(fmt, Month) == Some(1) && Position(fmt, Day) == Some(2)
    ensures Position(fmt, Hour) == None && Position(fmt, Minute) == None
  {
    assert fmt[1..][1..][1..] == [];
  }

  /** The digits `%04d%02d%02d` writes, position by position. */
  lemma YearMonthDayDigits(year: nat, month: nat, day: nat)
    requires year < 10000 && month < 100 && day < 100
    ensures var s := Pad4(year) + Pad2(month) + Pad2(day);
            |s| == 8 && AllDigits(s) && TwoDigits(s, 4) == month && TwoDigits(s, 6) == day
            && s[0..4] == Pad4(year) && s[4..6] == Pad2(month) && s[6..8] == Pad2(day)
  {
    var yyyy, mm, dd := Pad4(year), Pad2(month), Pad2(day);
    var s := yyyy + mm + dd;
    assert s[0..4] == yyyy && s[4..6] == mm && s[6..8] == dd;
    forall i | 0 <= i < 8 ensures IsDigit(s[i]) {
      if i < 4 { assert s[i] == yyyy[i]; }
      else if i < 6 { assert s[i] == mm[i - 4]; }
      else { assert s[i] == dd[i - 6]; }
    }
    TwoDigitsOfPad(s, 4, month);
    TwoDigitsOfPad(s, 6, day);
  }

  /** `'%Y%m%d'` reads back every valid date written with four, two and two
      digits, at midnight. */
  lemma YearMonthDayRoundTrip(year: nat, month: nat, day: nat)
    requires ValidDate(year, month, day)
    ensures Strptime(Pad4(year) + Pad2(month) + Pad2(day), YearMonthDay)
            == Ok(DateTime(year, month, day, 0, 0))
  {
    YearMonthDayParse(year, month, day);
    BuildPadded(year, month, day);
  }

  /** The fields written `%04d%02d%02d` build back the date they came from. */
  lemma BuildPadded(year: nat, month: nat, day: nat)
    requires ValidDate(year, month, day)
    ensures Build(YearMonthDay, [Pad4(year), Pad2(month), Pad2(day)]) == Ok(DateTime(year, month, day, 0, 0))
  {
    var texts := [Pad4(year), Pad2(month), Pad2(day)];
    PaddedFields(year, month, day, texts);
    BuildYearMonthDay(YearMonthDay, texts, year, month, day);
  }

  /** `int()` reads back each field written `%04d%02d%02d`. */
  lemma PaddedFields(year: nat, month: nat, day: nat, texts: seq<string>)
    requires ValidDate(year, month, day) && texts == [Pad4(year), Pad2(month), Pad2(day)]
    ensures PyInt(texts[0]) == Ok(year) && PyInt(texts[1]) == Ok(month) && PyInt(texts[2]) == Ok(day)
  {
    ValidDateBounds(year, month, day);
    PyIntPad4(year);
    PyIntPad2(month);
    PyIntPad2(day);
  }
}
