/**
 The Date header: printed by lib/sippet/message.ex, parsed by ParseDate in
 c_src/parser.cc.
 */
module DateHeader {
  import opened Wrappers
  import opened Machine
  import opened Numbers
  import opened Quoting
  import opened Calendar
  import opened TimeFields
  import opened PrTime
  import opened DateText

  // A `NaiveDateTime`; months count from 1.
  datatype DateTime = DateTime(
    year: int, month: int, day: int, hour: int, minute: int, second: int, microsecond: int)
  {
    predicate Valid() {
      && Date(year, month - 1, day).Valid()
      && 0 <= hour < 24 && 0 <= minute < 60 && 0 <= second < 60 && 0 <= microsecond < 1_000_000
    }
  }

  /* ----- Printing ----- */

  const DAY_NAMES: seq<string> := ["Sun", "Mon", "Tue", "Wed", "Thu", "Fri", "Sat"]

  const MONTH_NAMES: seq<string> :=
    ["Jan", "Feb", "Mar", "Apr", "May", "Jun", "Jul", "Aug", "Sep", "Oct", "Nov", "Dec"]

  function Pad2(n: nat): string {
    if n < 10 then "0" + Decimal(n) else Decimal(n)
  }

  function PrintDay(name: string, day: string, month: string): string {
    name + ", " + day + " " + month + " "
  }

  function PrintTime(year: string, hour: string, minute: string, second: string): string {
    year + " " + hour + ":" + minute + ":" + second + " GMT"
  }

  // Microseconds are left out.
  function PrintDate(d: DateTime): string
    requires d.Valid() && d.year >= 0
  {
    PrintDay(DAY_NAMES[Weekday(EpochDay(d.year, d.month - 1, d.day))], Pad2(d.day), MONTH_NAMES[d.month - 1])
    + PrintTime(Decimal(d.year), Pad2(d.hour), Pad2(d.minute), Pad2(d.second))
  }

  /* ----- Parsing ----- */

  function Default(x: int): int {
    if x == -1 then 0 else x
  }

  // The record made of what the scanner found, before it is normalised.
  function Record(f: Fields): Option<Exploded> {
    if f.month.None? || f.date == -1 || f.year == -1 || f.year > 0x7FFF then None
    else
      Some(Exploded(Default(f.usec), Default(f.sec), Default(f.min), Default(f.hour), f.date, f.month.value, f.year,
                    if f.dotw < 0 then 0 else f.dotw, 0, GMT))
  }

  // The offset written, failing that the zone named, failing that GMT.
  function ZoneParams(f: Fields): Params
    requires Sane(f)
  {
    if f.offset != -1 then Params(f.offset * 60, 0)
    else if f.zone.None? then Params(0, 0)
    else Params(f.zone.value.0 * 60, f.zone.value.1 * 60)
  }

  // The instant of a date and time in GMT, in microseconds.
  function Instant(d: DateTime): int
    requires d.Valid()
  {
    EpochDay(d.year, d.month - 1, d.day) * 86_400_000_000
    + ((d.hour * 60 + d.minute) * 60 + d.second) * 1_000_000 + d.microsecond
  }

  function FromExploded(e: Exploded): DateTime {
    DateTime(e.year, e.month + 1, e.mday, e.hour, e.min, e.sec, e.usec)
  }

  function Scanned(s: string): Option<Fields> {
    Scan(UNKNOWN, Trim(s), 0, 0)
  }

  // What the text denotes: a record and the zone it is in.
  function Denoted(s: string): Option<(Exploded, Params)> {
    if Trim(s) == "" || Scanned(s).None? || Record(Scanned(s).value).None? then None
    else
      ScanIsSane(UNKNOWN, Trim(s), 0, 0);
      Some((Record(Scanned(s).value).value, ZoneParams(Scanned(s).value)))
  }

  // Neither normalisation leaves the 16- and 32-bit fields.
  ghost predicate NoOverflow(s: string) {
    Denoted(s).Some? ==>
      var (e, zone) := Denoted(s).value;
      Fits(e) && forall g | GmtForm(e, g) :: Fits(g.(params := zone))
  }

  // The day on which an instant falls.
  function DayOf(micros: int): int {
    FloorDiv(micros, 86_400_000_000)
  }

  // Not behind the last day of year 32767.
  predicate InTime(micros: int) {
    DayOf(micros) < END_DAY
  }

  // Neither the record nor the instant it denotes lies behind that day.
  predicate InYears(s: string) {
    Denoted(s).Some? ==>
      var (e, zone) := Denoted(s).value;
      InTime(e.UtcMicros()) && InTime(e.UtcMicros() - zone.Total() * 1_000_000)
  }

  // The text is read as the instant it denotes, in GMT, with all fields in range.
  method ParseDate(s: string) returns (r: Option<DateTime>)
    requires InYears(s)
    ensures r.Some? <==> Denoted(s).Some?
    ensures r.Some? ==> r.value.Valid()
    ensures r.Some? ==>
              Instant(r.value) == Denoted(s).value.0.UtcMicros() - Denoted(s).value.1.Total() * 1_000_000
  {
    hide Fits, GmtForm, Moved, ParamsFit, Scan, Trim, EpochDay, Exploded.UtcMicros, Exploded.LocalMicros, Exploded.Day;
    assert NoOverflow(s) by { OverflowsExactly(s); }
    var text := Trim(s);
    if text == "" {
      return None;
    }
    ScanIsSane(UNKNOWN, text, 0, 0);
    var fields := ParseTimeString(text);
    if fields.None? || Record(fields.value).None? {
      return None;
    }
    var zone := ZoneParams(fields.value);
    ghost var e := Record(fields.value).value;
    var result := new ExplodedTime(Record(fields.value).value);
    GmtParamsFit(e);
    ghost var g := result.NormalizeTime(GmtParameters);
    Settled(e, g, result.Value());
    result.params := zone;
    ghost var z := result.Value();
    assert z == g.(params := zone);
    GmtParamsFit(z);
    ghost var f := result.NormalizeTime(GmtParameters);
    Settled(z, f, result.Value());
    Parsed(e, g, zone, f);
    r := Some(FromExploded(result.Value()));
  }

  // Under GMT the record ends up in the form its parameter function was shown.
  lemma Settled(e: Exploded, g: Exploded, f: Exploded)
    requires GmtForm(e, g) && Moved(g, f, f.params.Total()) && f.params == GmtParameters(g)
    ensures f == g
  {
    hide GmtForm, Moved, Exploded.InRange;
    GmtFormMeans(e, g);
    MovedByNothing(g, f);
  }

  lemma Parsed(e: Exploded, g: Exploded, zone: Params, f: Exploded)
    requires GmtForm(e, g) && GmtForm(g.(params := zone), f)
    ensures FromExploded(f).Valid()
    ensures Instant(FromExploded(f)) == e.UtcMicros() - zone.Total() * 1_000_000
  {
    hide GmtForm, FromExploded, Instant;
    hide Exploded.LocalMicros, Exploded.UtcMicros, Exploded.ClockInRange, Exploded.DateInRange;
    GmtFormMeans(e, g);
    GmtFormMeans(g.(params := zone), f);
    GmtUtc(g);
    GmtUtc(f);
    InstantInZone(g, zone);
    InstantOfNormal(f);
  }

  lemma InstantInZone(g: Exploded, zone: Params)
    ensures g.(params := zone).UtcMicros() == g.LocalMicros() - zone.Total() * 1_000_000
  {
    hide Exploded.LocalMicros;
    ParamsDoNotMatter(g, g.(params := zone));
  }

  lemma InstantOfNormal(f: Exploded)
    requires f.ClockInRange() && f.DateInRange()
    ensures FromExploded(f).Valid() && Instant(FromExploded(f)) == f.LocalMicros()
  {
    hide EpochDay, DayOfYear;
    assert f.month / 12 == 0 && f.month % 12 == f.month;
    assert f.year + f.month / 12 == f.year;
  }

  /* ----- Printed dates ----- */

  lemma InstantIsInjective(a: DateTime, b: DateTime)
    requires a.Valid() && b.Valid() && Instant(a) == Instant(b)
    ensures a == b
  {
    hide EpochDay;
    var ca := ((a.hour * 60 + a.minute) * 60 + a.second) * 1_000_000 + a.microsecond;
    var cb := ((b.hour * 60 + b.minute) * 60 + b.second) * 1_000_000 + b.microsecond;
    DivModUnique(Instant(a), 86_400_000_000, EpochDay(a.year, a.month - 1, a.day), ca);
    DivModUnique(Instant(b), 86_400_000_000, EpochDay(b.year, b.month - 1, b.day), cb);
    EpochDayIsInjective(Date(a.year, a.month - 1, a.day), Date(b.year, b.month - 1, b.day));
  }

  lemma DecimalTwo(n: nat)
    requires n < 100
    ensures var t := Pad2(n); |t| == 2 && IsDigit(t[0]) && IsDigit(t[1]) && Two(t, 0) == n
  {
    if n >= 10 {
      assert Decimal(n / 10) == [('0' as int + n / 10) as char];
    }
  }

  lemma DecimalFour(n: nat)
    requires 1000 <= n <= 9999
    ensures var t := Decimal(n);
            && |t| == 4 && (forall i | 0 <= i < 4 :: IsDigit(t[i]))
            && Two(t, 0) * 100 + Two(t, 2) == n
  {
    var a, b, c := n / 10, n / 100, n / 1000;
    assert a / 10 == b && b / 10 == c && c < 10;
    assert Decimal(c) == [('0' as int + c) as char];
    assert Decimal(b) == Decimal(c) + [('0' as int + b % 10) as char];
    assert Decimal(a) == Decimal(b) + [('0' as int + a % 10) as char];
    assert Decimal(n) == Decimal(a) + [('0' as int + n % 10) as char];
  }

  // The printed form, position by position.
  ghost predicate Layout(s: string, d: DateTime) {
    && |s| == 29
    && (exists w :: 0 <= w < 7 && s[0..3] == DAY_NAMES[w])
    && s[3] == ',' && s[4] == ' ' && IsDigit(s[5]) && IsDigit(s[6]) && Two(s, 5) == d.day
    && s[7] == ' ' && 1 <= d.month <= 12 && s[8..11] == MONTH_NAMES[d.month - 1]
    && s[11] == ' ' && (forall j | 12 <= j < 16 :: IsDigit(s[j])) && Two(s, 12) * 100 + Two(s, 14) == d.year
    && s[16] == ' ' && IsDigit(s[17]) && IsDigit(s[18]) && Two(s, 17) == d.hour
    && s[19] == ':' && IsDigit(s[20]) && IsDigit(s[21]) && Two(s, 20) == d.minute
    && s[22] == ':' && IsDigit(s[23]) && IsDigit(s[24]) && Two(s, 23) == d.second
    && s[25] == ' ' && s[26] == 'G' && s[27] == 'M' && s[28] == 'T'
  }

  lemma DayLayout(name: string, day: string, month: string)
    requires |name| == 3 && |day| == 2 && |month| == 3
    ensures var t := PrintDay(name, day, month);
            && |t| == 12 && t[0..3] == name && t[3] == ',' && t[4] == ' ' && t[5] == day[0] && t[6] == day[1]
            && t[7] == ' ' && t[8..11] == month && t[11] == ' '
  {
  }

  lemma TimeLayout(y: string, h: string, m: string, s: string)
    requires |y| == 4 && |h| == 2 && |m| == 2 && |s| == 2
    ensures var t := PrintTime(y, h, m, s);
            && |t| == 17 && t[0] == y[0] && t[1] == y[1] && t[2] == y[2] && t[3] == y[3] && t[4] == ' '
            && t[5] == h[0] && t[6] == h[1] && t[7] == ':' && t[8] == m[0] && t[9] == m[1] && t[10] == ':'
            && t[11] == s[0] && t[12] == s[1] && t[13] == ' ' && t[14] == 'G' && t[15] == 'M' && t[16] == 'T'
  {
  }

  lemma PrintedLayout(d: DateTime)
    requires d.Valid() && 1000 <= d.year <= 9999
    ensures Layout(PrintDate(d), d)
  {
    InMonth(d);
    var w := Weekday(EpochDay(d.year, d.month - 1, d.day));
    hide EpochDay, Weekday, Decimal, Pad2, Date.Valid, PrintDay, PrintTime;
    DecimalTwo(d.day);
    DecimalFour(d.year);
    DecimalTwo(d.hour);
    DecimalTwo(d.minute);
    DecimalTwo(d.second);
    NamesAreShort(w, d.month - 1);
    DayLayout(DAY_NAMES[w], Pad2(d.day), MONTH_NAMES[d.month - 1]);
    TimeLayout(Decimal(d.year), Pad2(d.hour), Pad2(d.minute), Pad2(d.second));
    Halves(PrintDay(DAY_NAMES[w], Pad2(d.day), MONTH_NAMES[d.month - 1]),
           PrintTime(Decimal(d.year), Pad2(d.hour), Pad2(d.minute), Pad2(d.second)));
  }

  lemma NamesAreShort(w: nat, m: nat)
    requires w < 7 && m < 12
    ensures |DAY_NAMES[w]| == 3 && |MONTH_NAMES[m]| == 3
  {
  }

  lemma Halves(l: string, r: string)
    requires |l| == 12 && |r| == 17
    ensures forall i | 0 <= i < 12 :: (l + r)[i] == l[i]
    ensures forall i | 12 <= i < 29 :: (l + r)[i] == r[i - 12]
    ensures (l + r)[0..3] == l[0..3] && (l + r)[8..11] == l[8..11]
  {
  }

  lemma InMonth(d: DateTime)
    requires d.Valid()
    ensures 1 <= d.month <= 12 && 1 <= d.day <= 31
  {
  }

  /* ----- Scanning a printed date, round by round ----- */

  // Where a token and the gap behind it end.
  lemma GoesOn(s: string, i: nat, e: nat, g: nat)
    requires i <= e <= g <= |s|
    requires forall j | i <= j < e :: !EndsToken(s, j)
    requires EndsToken(s, e)
    requires forall j | e <= j < g :: At(s, j) == ' ' || At(s, j) == ','
    requires At(s, g) !in " \t,;/()[]-" && !TimeMark(s, g)
    ensures forall year :: Onward(year, s, i) == g
  {
    hide EndsToken, TimeMark;
    assert TokenEnd(s, i) == e;
    assert GapEnd(s, e) == g;
  }

  // Neither kind of name holds anything that ends a token.
  lemma NameLetters(w: string)
    requires w in DAY_NAMES || w in MONTH_NAMES
    ensures |w| == 3 && IsLetter(w[0]) && IsLetter(w[1]) && IsLetter(w[2])
  {
  }

  lemma LetterRuns(s: string, i: nat)
    requires i + 3 <= |s| && IsLetter(s[i]) && IsLetter(s[i + 1]) && IsLetter(s[i + 2])
    requires !IsDigit(At(s, i + 3))
    ensures forall j | i <= j < i + 3 :: !EndsToken(s, j)
  {
    forall j | i <= j < i + 3
      ensures !EndsToken(s, j)
    {
      assert At(s, j) == s[j] && IsLetter(s[j]);
      assert At(s, j + 1) == (if j + 1 < i + 3 then s[j + 1] else At(s, i + 3));
    }
  }

  // A weekday is recognised as such; which one does not matter.
  lemma DayWord(s: string, i: nat, w: nat)
    requires w < 7 && i + 3 <= |s| && s[i..i + 3] == DAY_NAMES[w]
    ensures Word(s, i) in DAYS && Word(s, i) !in MONTHS
  {
    assert s[i] == DAY_NAMES[w][0] && s[i + 1] == DAY_NAMES[w][1] && s[i + 2] == DAY_NAMES[w][2];
    assert Word(s, i) == DAYS[w];
    DayIsNoMonth(w);
  }

  lemma DayIsNoMonth(w: nat)
    requires w < 7
    ensures DAYS[w] !in MONTHS
  {
    forall k | 0 <= k < 12
      ensures MONTHS[k] != DAYS[w]
    {
      assert MONTHS[k][0] != DAYS[w][0] || MONTHS[k][1] != DAYS[w][1] || MONTHS[k][2] != DAYS[w][2];
    }
  }

  lemma MonthWord(s: string, i: nat, m: nat)
    requires m < 12 && i + 3 <= |s| && s[i..i + 3] == MONTH_NAMES[m]
    ensures Index(MONTHS, Word(s, i)) == m
  {
    assert s[i] == MONTH_NAMES[m][0] && s[i + 1] == MONTH_NAMES[m][1] && s[i + 2] == MONTH_NAMES[m][2];
    assert Word(s, i) == MONTHS[m];
    var k := Index(MONTHS, MONTHS[m]);
    MonthsDiffer(k, m);
  }

  lemma MonthsDiffer(k: nat, m: nat)
    requires k < 12 && m < 12 && MONTHS[k] == MONTHS[m]
    ensures k == m
  {
    assert MONTHS[k][0] == MONTHS[m][0] && MONTHS[k][1] == MONTHS[m][1] && MONTHS[k][2] == MONTHS[m][2];
  }

  lemma Digits(s: string, i: nat, n: nat)
    requires i + n < |s| && (forall j | i <= j < i + n :: IsDigit(s[j])) && !IsDigit(s[i + n])
    ensures DigitsEnd(s, i) == i + n && DigitsFrom(s, i) == i + n
    ensures forall j | i <= j < i + n :: !EndsToken(s, j)
  {
    assert DigitsEnd(s, i) == i + n;
    forall j | i <= j < i + n
      ensures !EndsToken(s, j)
    {
      assert At(s, j) == s[j] && IsDigit(s[j]);
    }
  }

  // A round over a word, and over a number that is no clock time, once it is
  // known where the next token starts.
  lemma WordRound(f: Fields, s: string, i: nat, g: nat)
    requires i < |s| && IsLetter(s[i])
    requires forall year :: Onward(year, s, i) == g
    ensures Round(f, s, i) == Outcome.Scanned(WordToken(f, s, i), g)
  {
    hide WordToken, Onward;
  }

  lemma NumberRound(f: Fields, s: string, i: nat, n: nat, g: nat)
    requires i + n < |s| && IsDigit(s[i]) && DigitsEnd(s, i) == i + n && s[i + n] == ' '
    requires forall year :: Onward(year, s, i) == g
    ensures Round(f, s, i) == Outcome.Scanned(PlainToken(f, s, i, i + n), g)
  {
    hide PlainToken, Onward;
  }

  // The places where tokens start in a printed date.
  lemma DayGap(s: string, d: DateTime)
    requires Layout(s, d)
    ensures IsLetter(s[0]) && forall year :: Onward(year, s, 0) == 5
  {
    var k :| 0 <= k < 7 && s[0..3] == DAY_NAMES[k];
    assert s[0] == s[0..3][0] && s[1] == s[0..3][1] && s[2] == s[0..3][2];
    NameLetters(DAY_NAMES[k]);
    LetterRuns(s, 0);
    GoesOn(s, 0, 3, 5);
  }

  // A month name neither separates tokens nor passes for a time mark.
  lemma MonthStarts(s: string, d: DateTime)
    requires Layout(s, d)
    ensures IsLetter(s[8]) && IsLetter(s[9]) && IsLetter(s[10])
    ensures At(s, 8) !in " \t,;/()[]-" && !TimeMark(s, 8)
  {
    NameLetters(MONTH_NAMES[d.month - 1]);
    assert s[8] == s[8..11][0] && s[9] == s[8..11][1] && s[10] == s[8..11][2];
  }

  lemma DateGap(s: string, d: DateTime)
    requires Layout(s, d)
    ensures forall year :: Onward(year, s, 5) == 8
  {
    MonthStarts(s, d);
    Digits(s, 5, 2);
    assert At(s, 7) == ' ';
    hide Onward, DigitsEnd;
    GoesOn(s, 5, 7, 8);
  }

  lemma MonthGap(s: string, d: DateTime)
    requires Layout(s, d)
    ensures IsLetter(s[8]) && forall year :: Onward(year, s, 8) == 12
  {
    MonthStarts(s, d);
    LetterRuns(s, 8);
    assert At(s, 11) == ' ';
    hide Onward;
    GoesOn(s, 8, 11, 12);
  }

  lemma YearGap(s: string, d: DateTime)
    requires Layout(s, d)
    ensures forall year :: Onward(year, s, 12) == 17
  {
    Digits(s, 12, 4);
    GoesOn(s, 12, 16, 17);
  }

  lemma TimeGap(s: string, d: DateTime)
    requires Layout(s, d)
    ensures forall year :: Onward(year, s, 25) == 26
  {
    GoesOn(s, 25, 25, 26);
  }

  lemma ZoneGap(s: string, d: DateTime)
    requires Layout(s, d)
    ensures forall year :: Onward(year, s, 26) == 29
  {
    LetterRuns(s, 26);
    GoesOn(s, 26, 29, 29);
  }

  lemma MonthToken(f: Fields, s: string, i: nat, m: nat)
    requires m < 12 && Index(MONTHS, Word(s, i)) == m && f.month.None?
    ensures WordToken(f, s, i) == f.(month := Some(m))
  {
    hide Index, Word;
  }

  lemma DayToken(f: Fields, s: string, i: nat)
    requires Word(s, i) in DAYS && Word(s, i) !in MONTHS && f.dotw < 0
    ensures WordToken(f, s, i) == f.(dotw := Index(DAYS, Word(s, i)))
  {
    hide Index, Word;
  }

  lemma GmtWord()
    ensures "gmt" !in MONTHS && "gmt" !in DAYS && ZoneOf("gmt") == Some((0, 0))
  {
    forall k | 0 <= k < 12
      ensures MONTHS[k] != "gmt"
    {
      assert MONTHS[k][0] != 'g';
    }
    forall k | 0 <= k < 7
      ensures DAYS[k] != "gmt"
    {
      assert DAYS[k][0] != 'g';
    }
  }

  lemma ZoneToken(f: Fields, s: string, i: nat)
    requires Word(s, i) == "gmt" && f.zone.None?
    ensures WordToken(f, s, i) == f.(zone := Some((0, 0)))
  {
    GmtWord();
    hide Index, Word, ZoneOf;
  }

  lemma RoundDay(s: string, d: DateTime)
    requires Layout(s, d)
    ensures exists w :: Round(UNKNOWN, s, 0) == Outcome.Scanned(UNKNOWN.(dotw := w), 5)
  {
    var k :| 0 <= k < 7 && s[0..3] == DAY_NAMES[k];
    DayWord(s, 0, k);
    DayToken(UNKNOWN, s, 0);
    DayGap(s, d);
    hide Layout, Index, Word, WordToken, Round, Onward;
    WordRound(UNKNOWN, s, 0, 5);
  }

  lemma RoundDate(f: Fields, s: string, d: DateTime)
    requires Layout(s, d) && f.date < 0 && 1 <= d.day <= 31
    ensures Round(f, s, 5) == Outcome.Scanned(f.(date := d.day), 8)
  {
    DateGap(s, d);
    Digits(s, 5, 2);
    hide Onward, DigitsEnd, Round, EndsToken;
    NumberRound(f, s, 5, 2, 8);
  }

  lemma RoundMonth(f: Fields, s: string, d: DateTime)
    requires Layout(s, d) && f.month.None?
    ensures Round(f, s, 8) == Outcome.Scanned(f.(month := Some(d.month - 1)), 12)
  {
    MonthWord(s, 8, d.month - 1);
    MonthToken(f, s, 8, d.month - 1);
    MonthGap(s, d);
    assert |s| == 29;
    hide Layout, Index, Word, WordToken, Round, Onward;
    WordRound(f, s, 8, 12);
  }

  lemma RoundYear(f: Fields, s: string, d: DateTime)
    requires Layout(s, d) && f.year < 0
    ensures Round(f, s, 12) == Outcome.Scanned(f.(year := d.year), 17)
  {
    YearGap(s, d);
    Digits(s, 12, 4);
    hide Onward, DigitsEnd, Round, EndsToken;
    NumberRound(f, s, 12, 4, 17);
  }

  lemma ClockRead(f: Fields, s: string, d: DateTime)
    requires Layout(s, d) && f.hour < 0 && f.usec == -1 && 0 <= d.hour < 24
    ensures ClockToken(f, s, 17, 19) == Outcome.Scanned(f.(hour := d.hour, min := d.minute, sec := d.second), 25)
  {
    Digits(s, 20, 2);
    Digits(s, 23, 2);
    assert At(s, 22) == ':' && At(s, 25) == ' ';
    assert BlanksEnd(s, 25) == 26;
    assert FractionEnd(s, 25) == 25;
    hide DigitsFrom, BlanksEnd, FractionEnd;
  }

  lemma RoundTime(f: Fields, s: string, d: DateTime)
    requires Layout(s, d) && f.hour < 0 && f.usec == -1 && 0 <= d.hour < 24
    ensures Round(f, s, 17) == Outcome.Scanned(f.(hour := d.hour, min := d.minute, sec := d.second), 26)
  {
    Digits(s, 17, 2);
    ClockRead(f, s, d);
    TimeGap(s, d);
    hide EndsToken, ClockToken, DigitsEnd, Onward;
  }

  lemma RoundZone(f: Fields, s: string, d: DateTime)
    requires Layout(s, d) && f.zone.None?
    ensures Round(f, s, 26) == Outcome.Scanned(f.(zone := Some((0, 0))), 29)
  {
    assert Word(s, 26) == "gmt";
    ZoneToken(f, s, 26);
    assert |s| == 29 && s[26] == 'G' && s[27] == 'M' && s[28] == 'T';
    ZoneGap(s, d);
    hide Layout, Index, Word, WordToken, Round, Onward;
    WordRound(f, s, 26, 29);
  }

  // What the scanner finds in a printed date.
  lemma ScanPrinted(s: string, d: DateTime)
    requires Layout(s, d) && 1 <= d.day <= 31 && 0 <= d.hour < 24
    ensures var r := Scan(UNKNOWN, s, 0, 0);
            r.Some? && r.value == Fields(r.value.dotw, Some(d.month - 1), Some((0, 0)), -1,
                                         d.day, d.year, d.hour, d.minute, d.second, -1)
  {
    RoundDay(s, d);
    var w :| Round(UNKNOWN, s, 0) == Outcome.Scanned(UNKNOWN.(dotw := w), 5);
    NoNul(s, d);
    var f0 := UNKNOWN.(dotw := w);
    RoundDate(f0, s, d);
    var f1 := f0.(date := d.day);
    RoundMonth(f1, s, d);
    var f2 := f1.(month := Some(d.month - 1));
    RoundYear(f2, s, d);
    var f3 := f2.(year := d.year);
    RoundTime(f3, s, d);
    var f4 := f3.(hour := d.hour, min := d.minute, sec := d.second);
    RoundZone(f4, s, d);
    var f5 := f4.(zone := Some((0, 0)));
    hide Round;
    assert |s| == 29;
    hide Layout;
    assert Scan(f5, s, 29, 6) == Some(f5);
    assert Scan(f4, s, 26, 5) == Some(f5);
    assert Scan(f3, s, 17, 4) == Some(f5);
    assert Scan(f2, s, 12, 3) == Some(f5);
    assert Scan(f1, s, 8, 2) == Some(f5);
    assert Scan(f0, s, 5, 1) == Some(f5);
    assert Scan(UNKNOWN, s, 0, 0) == Some(f5);
  }

  lemma NoNul(s: string, d: DateTime)
    requires Layout(s, d)
    ensures s[0] != '\0' && s[5] != '\0' && s[8] != '\0' && s[12] != '\0' && s[17] != '\0' && s[26] != '\0'
  {
    var k :| 0 <= k < 7 && s[0..3] == DAY_NAMES[k];
    NameLetters(DAY_NAMES[k]);
    NameLetters(MONTH_NAMES[d.month - 1]);
    assert s[0] == s[0..3][0] && s[8] == s[8..11][0];
  }

  /* ----- There and back ----- */

  lemma DayBounds(d: Date)
    requires d.Valid()
    ensures 0 <= d.month < 12 && 1 <= d.day <= 31
  {
  }

  lemma DayOfInstant(e: Exploded)
    requires e.ClockInRange() && 0 <= e.month < 12 && e.params == GMT
    ensures FloorDiv(e.UtcMicros(), 86_400_000_000) == EpochDay(e.year, e.month, e.mday)
  {
    MicrosSplit(e);
    GmtUtc(e);
    DayOfDate(e);
    hide EpochDay, FloorDiv, Exploded.UtcMicros, Exploded.LocalMicros, Exploded.Day;
  }

  lemma FitsFrom(e: Exploded, sec: int, day: int)
    requires sec == e.sec - e.params.Total() && FitsInt32(sec) && FitsInt32(e.params.Total())
    requires ClockFits(e.usec, sec, e.min, e.hour, e.mday) && MonthFits(e.year, e.month)
    requires FloorDiv(e.UtcMicros(), 86_400_000_000) == day && DayHasYear(day)
    ensures Fits(e)
  {
    hide FloorDiv, TruncDiv, Exploded.UtcMicros, ClockFits, MonthFits;
  }

  lemma SmallDivision(x: int, b: int)
    requires 0 <= x < b
    ensures FloorDiv(x, b) == 0 && TruncDiv(x, b) == 0
  {
    DivModUnique(x, b, 0, x);
  }

  // The record a printed date is read into.
  function PrintedRecord(d: DateTime, dotw: int): Exploded {
    Exploded(0, d.second, d.minute, d.hour, d.day, d.month - 1, d.year, if dotw < 0 then 0 else dotw, 0, GMT)
  }

  // The weekday the scanner finds, which normalising replaces.
  function NamedDay(d: DateTime): int
    requires d.Valid() && d.year >= 0
  {
    if Scanned(PrintDate(d)).Some? then Scanned(PrintDate(d)).value.dotw else -1
  }

  lemma PrintedDenotes(d: DateTime)
    requires d.Valid() && 1000 <= d.year <= 9999
    ensures Denoted(PrintDate(d)) == Some((PrintedRecord(d, NamedDay(d)), GMT))
  {
    ScannedPrinted(d);
    var f := Scanned(PrintDate(d)).value;
    RecordOf(f, d);
    hide Trim, Scanned, PrintDate, Date.Valid, Record, Denoted;
    DenotedIs(PrintDate(d), f, PrintedRecord(d, NamedDay(d)));
  }

  lemma RecordOf(f: Fields, d: DateTime)
    requires d.Valid() && 1000 <= d.year <= 9999
    requires f == Fields(f.dotw, Some(d.month - 1), Some((0, 0)), -1, d.day, d.year, d.hour, d.minute, d.second, -1)
    ensures Record(f) == Some(PrintedRecord(d, f.dotw))
  {
    InMonth(d);
    hide Date.Valid;
  }

  lemma DenotedIs(s: string, f: Fields, e: Exploded)
    requires Trim(s) != "" && Scanned(s) == Some(f) && Record(f) == Some(e) && f.zone == Some((0, 0)) && f.offset == -1
    ensures Denoted(s) == Some((e, GMT))
  {
    hide Trim, Scan, Record;
  }

  lemma ScannedPrinted(d: DateTime)
    requires d.Valid() && 1000 <= d.year <= 9999
    ensures var s := PrintDate(d);
            && Trim(s) != "" && Scanned(s).Some? && 1 <= d.month <= 12 && 1 <= d.day <= 31
            && var f := Scanned(s).value;
               f == Fields(f.dotw, Some(d.month - 1), Some((0, 0)), -1, d.day, d.year, d.hour, d.minute, d.second, -1)
  {
    var s := PrintDate(d);
    InMonth(d);
    PrintedLayout(d);
    ScanPrinted(s, d);
    PrintedIsTrim(s, d);
    hide Layout, Trim, Scan, PrintDate;
  }

  lemma PrintedIsTrim(s: string, d: DateTime)
    requires Layout(s, d)
    ensures Trim(s) == s && s != ""
  {
    var k :| 0 <= k < 7 && s[0..3] == DAY_NAMES[k];
    NameLetters(DAY_NAMES[k]);
    assert s[0] == s[0..3][0];
    TrimBare(s, "");
    assert "" + s == s;
  }

  lemma PrintedFits(d: DateTime)
    requires d.Valid() && 1000 <= d.year <= 9999
    ensures InYears(PrintDate(d))
  {
    ScannedPrinted(d);
    hide Scanned, PrintDate, InYears, Denoted;
    EarlyYearsFit(PrintDate(d));
  }

  lemma RecordInRange(d: DateTime, dotw: int)
    requires d.Valid()
    ensures var e := PrintedRecord(d, dotw);
            e.ClockInRange() && e.DateInRange() && FromExploded(e) == d.(microsecond := 0)
  {
  }

  // The days of the week in their order.
  function DayAfter(name: string): string {
    if name == "Sun" then "Mon"
    else if name == "Mon" then "Tue"
    else if name == "Tue" then "Wed"
    else if name == "Wed" then "Thu"
    else if name == "Thu" then "Fri"
    else if name == "Fri" then "Sat"
    else "Sun"
  }

  // The date of `d` is the calendar day behind that of `c`.
  predicate NextDay(c: DateTime, d: DateTime)
    requires c.Valid()
  {
    Date(d.year, d.month - 1, d.day) == Date(c.year, c.month - 1, c.day).Next()
  }

  // The printed weekday: Thursday for the first day of 1970, and from each date to
  // the next the day behind it.
  lemma PrintedWeekday(c: DateTime, d: DateTime)
    requires c.Valid() && d.Valid() && c.year >= 0 && d.year >= 0
    ensures |PrintDate(c)| >= 4 && PrintDate(c)[3] == ','
    ensures c.year == 1970 && c.month == 1 && c.day == 1 ==> PrintDate(c)[..3] == "Thu"
    ensures NextDay(c, d) ==> PrintDate(d)[..3] == DayAfter(PrintDate(c)[..3])
    ensures PrintDate(c)[..3] in ["Sun", "Mon", "Tue", "Wed", "Thu", "Fri", "Sat"]
  {
    NameFirst(c);
    NameFirst(d);
    EpochDayCounts(Date(c.year, c.month - 1, c.day));
    hide EpochDay, PrintDate;
    var n := EpochDay(c.year, c.month - 1, c.day);
    WeekdayCounts(n);
    NamesInOrder(Weekday(n));
  }

  lemma NameFirst(d: DateTime)
    requires d.Valid() && d.year >= 0
    ensures |PrintDate(d)| >= 4 && PrintDate(d)[3] == ','
    ensures PrintDate(d)[..3] == DAY_NAMES[Weekday(EpochDay(d.year, d.month - 1, d.day))]
  {
    hide EpochDay, Weekday, Decimal, Pad2;
    var name := DAY_NAMES[Weekday(EpochDay(d.year, d.month - 1, d.day))];
    NamesAreShort(Weekday(EpochDay(d.year, d.month - 1, d.day)), d.month - 1);
    assert PrintDate(d)[..3] == name;
  }

  lemma WeekdayCounts(n: int)
    ensures Weekday(0) == 4
    ensures Weekday(n + 1) == if Weekday(n) == 6 then 0 else Weekday(n) + 1
  {
  }

  lemma NamesInOrder(w: int)
    requires 0 <= w < 7
    ensures DAY_NAMES[if w == 6 then 0 else w + 1] == DayAfter(DAY_NAMES[w]) && DAY_NAMES[4] == "Thu"
    ensures DAY_NAMES[w] in ["Sun", "Mon", "Tue", "Wed", "Thu", "Fri", "Sat"]
  {
  }

  // The example of section 20.17 of RFC 3261.
  lemma PrintedExample()
    ensures DateTime(2010, 11, 13, 23, 29, 0, 0).Valid()
    ensures PrintDate(DateTime(2010, 11, 13, 23, 29, 0, 0)) == "Sat, 13 Nov 2010 23:29:00 GMT"
  {
    ExampleParts();
    hide Decimal, EpochDay, Weekday;
  }

  lemma ExampleParts()
    ensures Weekday(EpochDay(2010, 10, 13)) == 6
    ensures Decimal(2010) == "2010" && Decimal(13) == "13" && Decimal(23) == "23" && Decimal(29) == "29"
    ensures Decimal(0) == "0"
  {
    ExampleDay();
    hide EpochDay;
    assert Decimal(2) == "2" && Decimal(20) == "20" && Decimal(201) == "201" && Decimal(1) == "1";
  }

  lemma ExampleDay()
    ensures EpochDay(2010, 10, 13) == 14926
  {
    YearStart(2010);
    MonthTable(2010);
    hide DaysBeforeYear, DaysBeforeMonth;
    assert EpochDay(2010, 10, 13) == EpochDay(2010, 0, 1) + DaysBeforeMonth(2010, 10) + 12;
  }

  // A printed date is parsed as the same date and time, less its microseconds.
  method DateRoundTrip(d: DateTime) returns (r: Option<DateTime>)
    requires d.Valid() && 1000 <= d.year <= 9999
    ensures r == Some(d.(microsecond := 0))
  {
    hide PrintDate, Denoted, InYears, Exploded.UtcMicros, Exploded.LocalMicros, Instant, FromExploded;
    var s := PrintDate(d);
    PrintedFits(d);
    PrintedDenotes(d);
    r := ParseDate(s);
    ghost var e := Denoted(s).value.0;
    RecordInRange(d, NamedDay(d));
    GmtUtc(e);
    InstantOfNormal(e);
    InstantIsInjective(r.value, FromExploded(e));
  }

  /* ----- Which texts cannot overflow ----- */

  // A record as the scanner's ranges allow it, in GMT.
  predicate Modest(e: Exploded) {
    && 0 <= e.usec < 1_000_000 && 0 <= e.sec < 100 && 0 <= e.min < 100 && 0 <= e.hour < 100
    && 0 <= e.mday < 100 && -1 <= e.month < 12 && 0 <= e.year <= 0x7FFF && e.params == GMT
  }

  lemma FloorBetween(x: int, lo: int, hi: int)
    requires lo * 86_400_000_000 <= x < hi * 86_400_000_000
    ensures lo <= FloorDiv(x, 86_400_000_000) < hi
  {
  }

  lemma ModestMonth(year: int, month: int)
    requires 0 <= month < 12 && -1 <= year <= 0x7FFF
    ensures FIRST_DAY + 20 <= EpochDay(year, month, 1)
    ensures year <= 0x7FFE ==> EpochDay(year, month, 1) < END_DAY - 300
  {
    var d, first, end := Date(year, month, 1), Date(-1, 0, 1), Date(0x7FFF, 0, 1);
    YearStart(-1);
    YearStart(0x7FFF);
    hide EpochDay;
    if first != d {
      EpochDayIsMonotone(first, d);
    }
    if year <= 0x7FFE {
      EpochDayIsMonotone(d, end);
    }
  }

  // The first day of the record's month, which is a December when month is -1.
  function MonthStart(e: Exploded): int {
    EpochDay(e.year + e.month / 12, e.month % 12, 1)
  }

  lemma ModestDay(e: Exploded)
    requires Modest(e)
    ensures FIRST_DAY + 10 <= DayOf(e.UtcMicros())
    ensures e.year <= 0x7FFE ==> DayOf(e.UtcMicros()) < END_DAY - 10
  {
    hide EpochDay, FloorDiv, DayOf, Exploded.UtcMicros, Exploded.ClockMicros;
    ModestMonths(e.year, e.month);
    ModestMonth(e.year + e.month / 12, e.month % 12);
    ModestInstant(e);
    DayWithin(e.UtcMicros(), MonthStart(e), e.mday, e.ClockMicros());
  }

  lemma ModestMonths(year: int, month: int)
    requires -1 <= month < 12
    ensures 0 <= month % 12 < 12 && year - 1 <= year + month / 12 <= year
  {
  }

  lemma DayWithin(micros: int, start: int, mday: int, clock: int)
    requires FIRST_DAY + 20 <= start && 0 <= mday < 100 && 0 <= clock < 5 * 86_400_000_000
    requires micros == (start + mday - 1) * 86_400_000_000 + clock
    ensures FIRST_DAY + 10 <= DayOf(micros)
    ensures start < END_DAY - 300 ==> DayOf(micros) < END_DAY - 10
  {
    hide FloorDiv;
    FloorBetween(micros, start + mday - 1, start + mday + 4);
  }

  lemma ModestInstant(e: Exploded)
    requires Modest(e)
    ensures e.UtcMicros() == (MonthStart(e) + e.mday - 1) * 86_400_000_000 + e.ClockMicros()
    ensures 0 <= e.ClockMicros() < 5 * 86_400_000_000
  {
    hide EpochDay, FloorDiv, TruncDiv, Exploded.UtcMicros, Exploded.LocalMicros, Exploded.ClockMicros;
    GmtUtc(e);
    LocalSplit(e);
    LaterInMonth(e.year + e.month / 12, e.month % 12, e.mday);
    ModestClock(e);
  }

  lemma LocalSplit(e: Exploded)
    ensures e.LocalMicros() == e.Day() * 86_400_000_000 + e.ClockMicros()
  {
    hide Exploded.Day, Exploded.ClockMicros;
  }

  lemma LaterInMonth(year: int, month: int, day: int)
    requires 0 <= month < 12
    ensures EpochDay(year, month, day) == EpochDay(year, month, 1) + day - 1
  {
    hide DaysBeforeYear, DaysBeforeMonth;
  }

  lemma ModestClock(e: Exploded)
    requires Modest(e)
    ensures 0 <= e.ClockMicros() < 5 * 86_400_000_000
  {
  }

  // A carry of small fields is small.
  lemma SmallCarry(high: int, low: int, base: int, m: int, n: int)
    requires base == 24 || base == 60 || base == 1_000_000
    requires -m <= high <= m && -n <= low <= n && 0 <= m <= 1_000_000 && 0 <= n <= 1_000_000
    ensures CarryFits(high, low, base) && -m - n <= high + FloorDiv(low, base) <= m + n
  {
  }

  lemma SmallClock(usec: int, sec: int, min: int, hour: int, mday: int)
    requires 0 <= usec < 1_000_000 && -500_000 <= sec <= 500_000 && 0 <= min < 100 && 0 <= hour < 100 && 0 <= mday < 100
    ensures ClockFits(usec, sec, min, hour, mday)
  {
    SmallDivision(usec, 1_000_000);
    hide FloorDiv, TruncDiv;
    SmallCarry(sec, usec, 1_000_000, 500_000, 1_000_000);
    SmallCarry(min, sec, 60, 100, 500_000);
    var m1 := min + FloorDiv(sec, 60);
    SmallCarry(hour, m1, 60, 100, 500_100);
    var h1 := hour + FloorDiv(m1, 60);
    SmallCarry(mday, h1, 24, 100, 500_200);
  }

  lemma SmallMonth(year: int, month: int)
    requires -1 <= month < 12 && FitsInt16(year) && (month < 0 ==> FitsInt16(year - 1))
    ensures MonthFits(year, month)
  {
  }

  lemma ModestFits(e: Exploded)
    requires Modest(e)
    ensures Fits(e) <==> InTime(e.UtcMicros())
  {
    hide FloorDiv, TruncDiv, Exploded.UtcMicros, ClockFits, MonthFits, Fits, Modest;
    ModestDay(e);
    ModestFields(e);
    if Fits(e) {
      FitsMeans(e);
    } else if InTime(e.UtcMicros()) {
      FitsFrom(e, e.sec, DayOf(e.UtcMicros()));
    }
  }

  lemma ModestFields(e: Exploded)
    requires Modest(e)
    ensures ClockFits(e.usec, e.sec, e.min, e.hour, e.mday) && MonthFits(e.year, e.month)
    ensures 0 <= e.sec < 100 && e.params.Total() == 0
  {
    hide ClockFits, MonthFits, FloorDiv, TruncDiv;
    SmallClock(e.usec, e.sec, e.min, e.hour, e.mday);
    SmallMonth(e.year, e.month);
  }

  lemma YearInside(d: Date)
    requires d.Valid() && DayHasYear(EpochDay(d.year, d.month, d.day))
    ensures FitsInt16(d.year)
  {
    YearsOfDays(-0x8000, 0x8000);
    var first, end := Date(-0x8000, 0, 1), Date(0x8000, 0, 1);
    hide EpochDay;
    if d.year >= 0x8000 && d != end {
      EpochDayIsMonotone(end, d);
    }
    if d.year < -0x8000 {
      EpochDayIsMonotone(d, first);
    }
  }

  // A normal form moved to a zone less than 400,000 seconds away.
  lemma ZonedFits(g: Exploded, zone: Params)
    requires g.InRange() && g.params == GMT && -400_000 < zone.Total() < 400_000
    requires FIRST_DAY + 10 <= DayOf(g.UtcMicros()) && InTime(g.UtcMicros())
    ensures Fits(g.(params := zone)) <==> InTime(g.UtcMicros() - zone.Total() * 1_000_000)
  {
    hide FloorDiv, TruncDiv, Exploded.UtcMicros, Exploded.LocalMicros, ClockFits, MonthFits, Fits, Exploded.InRange;
    hide DayOf;
    var z := g.(params := zone);
    NormalYear(g);
    SmallMonth(g.year, g.month);
    SmallClockOf(g, zone.Total());
    InstantInZone(g, zone);
    GmtUtc(g);
    NearbyDay(g.UtcMicros(), zone.Total());
    SameDay(z.UtcMicros());
    if Fits(z) {
      FitsMeans(z);
    } else if InTime(z.UtcMicros()) {
      FitsFrom(z, g.sec - zone.Total(), DayOf(z.UtcMicros()));
    }
  }

  lemma SameDay(micros: int)
    ensures DayOf(micros) == FloorDiv(micros, 86_400_000_000)
  {
  }

  lemma NormalYear(g: Exploded)
    requires g.InRange() && g.params == GMT && FIRST_DAY <= DayOf(g.UtcMicros()) && InTime(g.UtcMicros())
    ensures FitsInt16(g.year) && 0 <= g.month < 12 && 1 <= g.mday < 32 && g.ClockInRange()
  {
    hide EpochDay, FloorDiv, Exploded.UtcMicros, MonthLength, DayOfYear, Date.Valid;
    var d := Date(g.year, g.month, g.mday);
    DayBounds(d);
    DayOfInstant(g);
    YearInside(d);
  }

  lemma SmallClockOf(g: Exploded, offset: int)
    requires g.ClockInRange() && 0 <= g.mday < 32 && -400_000 < offset < 400_000
    ensures ClockFits(g.usec, g.sec - offset, g.min, g.hour, g.mday)
  {
    hide ClockFits;
    SmallClock(g.usec, g.sec - offset, g.min, g.hour, g.mday);
  }

  lemma NearbyDay(micros: int, offset: int)
    requires -500_000 < offset < 500_000 && FIRST_DAY + 10 <= DayOf(micros)
    ensures FIRST_DAY <= DayOf(micros - offset * 1_000_000)
    ensures DayOf(micros) < END_DAY - 10 ==> InTime(micros - offset * 1_000_000)
  {
  }

  lemma ModestRecord(f: Fields)
    requires Sane(f) && Record(f).Some?
    ensures Modest(Record(f).value) && Record(f).value.year == f.year
    ensures -400_000 < ZoneParams(f).Total() < 400_000
  {
  }

  lemma DenotedRecord(s: string)
    requires Denoted(s).Some?
    ensures Scanned(s).Some? && Sane(Scanned(s).value) && Record(Scanned(s).value).Some?
    ensures Denoted(s).value == (Record(Scanned(s).value).value, ZoneParams(Scanned(s).value))
  {
    ScanIsSane(UNKNOWN, Trim(s), 0, 0);
    hide Trim, Scan, Record;
  }

  // Every record has a GMT form, whatever its fields.
  lemma NormalForm(e: Exploded) returns (g: Exploded)
    ensures GmtForm(e, g)
  {
    hide EpochDay, DayOfYear, MonthLength, ClosedWeekday, Exploded.UtcMicros;
    var u := e.UtcMicros();
    var d := DateOfDay(DayOf(u));
    DayOfYearBounds(d);
    g := OnDay(d, FloorMod(u, 86_400_000_000));
    DayOfDate(g);
    NormalUtc(g, DayOf(u), u);
  }

  // The record of a date and a time of day, in microseconds.
  function OnDay(d: Date, clock: int): Exploded
    requires 0 <= d.month < 12
  {
    var sec := clock / 1_000_000;
    Exploded(clock % 1_000_000, sec % 60, sec / 60 % 60, sec / 3600, d.day, d.month, d.year,
             ClosedWeekday(EpochDay(d.year, d.month, d.day), d.year), DayOfYear(d), GMT)
  }

  lemma NormalUtc(g: Exploded, day: int, u: int)
    requires g.params == GMT && g.Day() == day == DayOf(u)
    requires g.ClockMicros() == FloorMod(u, 86_400_000_000)
    ensures g.UtcMicros() == u
  {
    hide Exploded.Day, Exploded.ClockMicros, Exploded.LocalMicros, Exploded.UtcMicros, DayOf, FloorMod;
    GmtUtc(g);
    LocalSplit(g);
    DayAndClock(u);
  }

  lemma DayAndClock(u: int)
    ensures u == DayOf(u) * 86_400_000_000 + FloorMod(u, 86_400_000_000)
  {
  }

  // Normalising the text's record, and then its zone, overflows no field if and
  // only if neither the record nor the instant it denotes lies behind year 32767.
  lemma OverflowsExactly(s: string)
    ensures NoOverflow(s) <==> InYears(s)
  {
    hide Denoted, Scanned, Modest, Fits, GmtForm, Record, ZoneParams, Sane, InTime, Exploded.InRange, Exploded.UtcMicros;
    if Denoted(s).Some? {
      DenotedRecord(s);
      ModestRecord(Scanned(s).value);
      var (e, zone) := Denoted(s).value;
      ModestFits(e);
      ModestDay(e);
      if InTime(e.UtcMicros()) {
        forall g | GmtForm(e, g)
          ensures Fits(g.(params := zone)) <==> InTime(e.UtcMicros() - zone.Total() * 1_000_000)
        {
          GmtFormMeans(e, g);
          ZonedFits(g, zone);
        }
        var g := NormalForm(e);
      }
    }
  }

  // A text in which no year after 32766 is found cannot overflow.
  lemma EarlyYearsFit(s: string)
    requires Denoted(s).Some? ==> Scanned(s).value.year <= 0x7FFE
    ensures InYears(s) && NoOverflow(s)
  {
    hide Denoted, Scanned, Modest, NoOverflow, Record, ZoneParams, Sane, FloorDiv, Exploded.UtcMicros;
    OverflowsExactly(s);
    if Denoted(s).Some? {
      DenotedRecord(s);
      ModestRecord(Scanned(s).value);
      var (e, zone) := Denoted(s).value;
      ModestDay(e);
      NearbyDay(e.UtcMicros(), zone.Total());
    }
  }
}
