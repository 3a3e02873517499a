/**
 Forms of dates that c_src/prtime.cc promises to read, besides the one in which
 dates are printed: every text of each form denotes the date and time it shows, in
 the zone it names.
 */
module DateForms {
  import opened Wrappers
  import opened Numbers
  import opened Quoting
  import opened Calendar
  import opened TimeFields
  import opened PrTime
  import opened DateText
  import opened DateHeader

  // The text denotes this date and time, by a clock of that zone.
  predicate Reads(s: string, d: DateTime, zone: Params) {
    var r := DateHeader.Denoted(s);
    r.Some? && FromExploded(r.value.0) == d && r.value.0.params == GMT && r.value.1 == zone
  }

  /* ----- Parts of texts ----- */

  // Two digits that show `v`.
  predicate Shows2(s: string, i: nat, v: int) {
    i + 2 <= |s| && IsDigit(s[i]) && IsDigit(s[i + 1]) && v == 10 * Figure(s[i]) + Figure(s[i + 1])
  }

  // Four digits that show `v`.
  predicate Shows4(s: string, i: nat, v: int) {
    i + 4 <= |s| && v >= 0 && Shows2(s, i, v / 100) && Shows2(s, i + 2, v % 100)
  }

  function Figure(c: char): int {
    c as int - '0' as int
  }

  // Hours, minutes and seconds with colons, in eight bytes.
  predicate ShowsClock(s: string, i: nat, hour: int, d: DateTime) {
    && i + 8 <= |s| && Shows2(s, i, hour) && s[i + 2] == ':' && Shows2(s, i + 3, d.minute) && s[i + 5] == ':'
    && Shows2(s, i + 6, d.second)
  }

  // Three letters, in any case, that name the month.
  predicate ShowsMonth(s: string, i: nat, month: int) {
    && i + 3 <= |s| && 1 <= month <= 12
    && [ToLower(s[i]), ToLower(s[i + 1]), ToLower(s[i + 2])] ==
       ["jan", "feb", "mar", "apr", "may", "jun", "jul", "aug", "sep", "oct", "nov", "dec"][month - 1]
  }

  lemma Number2(s: string, i: nat, v: int)
    requires Shows2(s, i, v)
    ensures Two(s, i) == v && 0 <= v < 100
  {
  }

  lemma Number4(s: string, i: nat, v: int)
    requires Shows4(s, i, v)
    ensures Two(s, i) * 100 + Two(s, i + 2) == v && 0 <= v < 10_000
    ensures IsDigit(s[i]) && IsDigit(s[i + 1]) && IsDigit(s[i + 2]) && IsDigit(s[i + 3])
  {
    Number2(s, i, v / 100);
    Number2(s, i + 2, v % 100);
  }

  // Digits up to `e`, and no further.
  lemma RunOfDigits(s: string, i: nat, e: nat)
    requires i < e <= |s| && (forall j | i <= j < e :: IsDigit(s[j])) && !IsDigit(At(s, e))
    ensures DigitsEnd(s, i) == e == DigitsFrom(s, i)
    ensures forall j | i <= j < e :: !EndsToken(s, j)
  {
    assert DigitsEnd(s, i) == e;
    forall j | i <= j < e
      ensures !EndsToken(s, j)
    {
      assert At(s, j) == s[j] && IsDigit(s[j]);
    }
  }

  /* ----- Where the next token starts ----- */

  // A token ends at `e`, a gap of at most one blank at `g`, where a token starts.
  lemma Next(year: int, s: string, i: nat, e: nat, g: nat)
    requires i <= e <= g <= |s| && (forall j | i <= j < e :: !EndsToken(s, j)) && EndsToken(s, e)
    requires g == e || (g == e + 1 && s[e] == ' ')
    requires At(s, g) !in " \t,;/()[]" && !TimeMark(s, g)
    requires At(s, g) == '-' ==> g > 0 && !IsLetter(At(s, g - 1)) && IsDigit(At(s, g + 1))
    ensures Onward(year, s, i) == g
  {
    TokenStops(s, i, e);
    assert GapEnd(s, e) == g;
    hide EndsToken, TimeMark;
  }

  lemma {:induction false} TokenStops(s: string, i: nat, e: nat)
    requires i <= e && (forall j | i <= j < e :: !EndsToken(s, j)) && EndsToken(s, e)
    ensures TokenEnd(s, i) == e
    decreases e - i
  {
    hide EndsToken;
    if i < e {
      TokenStops(s, i + 1, e);
    }
  }

  // A dash is passed over behind a letter, while no year is known, or before one.
  lemma NextDash(year: int, s: string, i: nat, e: nat)
    requires 0 < e < |s| && i <= e && (forall j | i <= j < e :: !EndsToken(s, j)) && s[e] == '-'
    requires (IsLetter(s[e - 1]) && year < 0) || !IsDigit(At(s, e + 1))
    requires At(s, e + 1) !in " \t,;/()[]-" && !TimeMark(s, e + 1)
    ensures Onward(year, s, i) == e + 1
  {
    TokenStops(s, i, e);
    hide EndsToken, TimeMark;
    assert GapEnd(s, e) == e && GapEnd(s, e + 1) == e + 1;
    assert At(s, e) == '-' && At(s, e - 1) == s[e - 1];
    assert DashEnd(year, s, e + 1) == e + 1;
    assert DashEnd(year, s, e) == e + 1;
  }

  // The mark before the time is passed over.
  lemma NextMark(year: int, s: string, i: nat)
    requires TimeMark(s, i)
    ensures Onward(year, s, i) == i + 1
  {
    assert EndsToken(s, i);
    assert TokenEnd(s, i) == i && GapEnd(s, i) == i;
  }

  lemma NumberToken2(f: Fields, s: string, i: nat, v: int)
    requires Shows2(s, i, v) && !IsDigit(At(s, i + 2)) && !IsLetter(At(s, i + 2)) && At(s, i + 2) != ':'
    requires (At(s, i + 2) == '/' || At(s, i + 2) == '-') ==> !IsDigit(At(s, i + 3))
    ensures Token(f, s, i) == Outcome.Scanned(
              if f.date < 0 && v < 32 then f.(date := v)
              else if f.year < 0 then f.(year := Century(v))
              else f, i)
  {
    Number2(s, i, v);
    RunOfDigits(s, i, i + 2);
    hide DigitsEnd, Two;
  }

  lemma NumberToken4(f: Fields, s: string, i: nat, v: int)
    requires Shows4(s, i, v) && At(s, i + 4) == ' ' && f.year < 0
    ensures Token(f, s, i) == Outcome.Scanned(f.(year := v), i)
  {
    Number4(s, i, v);
    RunOfDigits(s, i, i + 4);
    hide DigitsEnd, Two, Shows4;
  }

  lemma MonthWordToken(f: Fields, s: string, i: nat, month: int)
    requires ShowsMonth(s, i, month) && f.month.None?
    ensures Token(f, s, i) == Outcome.Scanned(f.(month := Some(month - 1)), i)
    ensures IsLetter(s[i]) && IsLetter(s[i + 1]) && IsLetter(s[i + 2])
  {
    var m := month - 1;
    MonthLetters(s, i, m);
    assert Word(s, i) == MONTHS[m];
    MonthsDiffer(Index(MONTHS, MONTHS[m]), m);
    hide Index, Word, ToLower;
    MonthToken(f, s, i, m);
  }

  lemma MonthLetters(s: string, i: nat, m: nat)
    requires m < 12 && i + 3 <= |s| && [ToLower(s[i]), ToLower(s[i + 1]), ToLower(s[i + 2])] == MONTHS[m]
    ensures IsLetter(s[i]) && IsLetter(s[i + 1]) && IsLetter(s[i + 2])
    ensures MONTHS[m] == ["jan", "feb", "mar", "apr", "may", "jun", "jul", "aug", "sep", "oct", "nov", "dec"][m]
  {
    assert forall k | 0 <= k < 3 :: 'a' <= MONTHS[m][k] <= 'z';
    assert ToLower(s[i]) == MONTHS[m][0] && ToLower(s[i + 1]) == MONTHS[m][1] && ToLower(s[i + 2]) == MONTHS[m][2];
  }

  // A clock time with seconds, and what may follow it directly.
  lemma ClockRead8(f: Fields, s: string, i: nat, hour: int, d: DateTime)
    requires ShowsClock(s, i, hour, d) && !IsDigit(At(s, i + 8)) && f.hour < 0
    ensures Token(f, s, i) == Outcome.Scanned(ClockFields(f, s, hour, d.minute, d.second, i + 8), FractionEnd(s, i + 8))
    ensures IsDigit(s[i]) && IsDigit(s[i + 1])
  {
    Number2(s, i, hour);
    Number2(s, i + 3, d.minute);
    Number2(s, i + 6, d.second);
    RunOfDigits(s, i, i + 2);
    RunOfDigits(s, i + 3, i + 5);
    RunOfDigits(s, i + 6, i + 8);
    hide DigitsFrom, DigitsEnd, Two, ClockFields, FractionEnd, EndsToken;
  }

  // The round in which a token that is no sign is read.
  lemma RoundIs(f: Fields, s: string, i: nat, g: Fields, rest: nat, next: nat)
    requires i < |s| && s[i] != '\0' && Token(f, s, i) == Outcome.Scanned(g, rest) && Onward(g.year, s, rest) == next
    ensures next > i && Round(f, s, i) == Outcome.Scanned(g, next)
  {
    assert Round(f, s, i).rest > i;
    hide Token, Onward;
  }

  // One more round of the scan.
  lemma ScanStep(f: Fields, s: string, i: nat, n: nat, g: Fields, next: nat)
    requires i < |s| && s[i] != '\0' && n <= 1000 && Round(f, s, i) == Outcome.Scanned(g, next)
    ensures Scan(f, s, i, n) == Scan(g, s, next, n + 1)
  {
    hide Round;
  }

  lemma ScanEnd(f: Fields, s: string, n: nat)
    ensures Scan(f, s, |s|, n) == Some(f)
  {
  }

  // The record of what was found, in the zone of the text.
  lemma DenotedAs(s: string, f: Fields, d: DateTime, zone: Params)
    requires Trim(s) == s && s != "" && Scan(UNKNOWN, s, 0, 0) == Some(f) && Matches(f, d)
    requires Sane(f) ==> ZoneParams(f) == zone
    ensures Reads(s, d, zone)
  {
    ScanIsSane(UNKNOWN, s, 0, 0);
    RecordIs(f, d);
    hide Trim, Scan, Record, Matches, Sane, ZoneParams, FromExploded;
  }

  // The fields are those of the date and time; what was not found is 0.
  predicate Matches(f: Fields, d: DateTime) {
    && d.Valid() && 0 <= d.year <= 32767
    && f.month == Some(d.month - 1) && f.date == d.day && f.year == d.year
    && Default(f.hour) == d.hour && Default(f.min) == d.minute
    && Default(f.sec) == d.second && Default(f.usec) == d.microsecond
  }

  lemma RecordIs(f: Fields, d: DateTime)
    requires Matches(f, d)
    ensures Record(f).Some? && FromExploded(Record(f).value) == d && Record(f).value.params == GMT
  {
    InMonth(d);
    hide Date.Valid;
  }

  /* ----- ISO 8601: YYYY-MM-DDTHH:MM:SS.ffffffZ ----- */

  predicate Shows6(s: string, i: nat, v: int) {
    && i + 6 <= |s| && v >= 0
    && Shows2(s, i, v / 10_000) && Shows2(s, i + 2, v / 100 % 100) && Shows2(s, i + 4, v % 100)
  }

  predicate IsIso(s: string, d: DateTime) {
    && |s| == 27 && Shows4(s, 0, d.year) && s[4] == '-' && Shows2(s, 5, d.month) && s[7] == '-' && Shows2(s, 8, d.day)
    && s[10] == 'T' && ShowsClock(s, 11, d.hour, d) && s[19] == '.' && Shows6(s, 20, d.microsecond) && s[26] == 'Z'
  }

  lemma IsoDate(s: string, d: DateTime)
    requires IsIso(s, d) && d.Valid() && d.year >= 100
    ensures var f := UNKNOWN.(year := d.year, month := Some(d.month - 1), date := d.day);
            Token(UNKNOWN, s, 0) == Outcome.Scanned(f, 10)
  {
    InMonth(d);
    Number4(s, 0, d.year);
    Number2(s, 5, d.month);
    Number2(s, 8, d.day);
    RunOfDigits(s, 0, 4);
    assert Long(s, 0) == Some((d.year, 4));
    assert Part(s, 5) == (d.month, 7);
    assert Long(s, 8) == Some((d.day, 10));
    assert TimeMark(s, 10);
    hide Long, Part, Two, DigitsEnd, ShowsClock, Shows6, Date.Valid;
    assert Numbers3(s, 0) == Some((d.year, d.month, d.day, 10));
  }

  // A month after the twelfth or a day after the 31st makes no date.
  lemma IsoNoDate(s: string, d: DateTime)
    requires IsIso(s, d) && d.year >= 100 && (d.month > 12 || d.day > 31)
    ensures Token(UNKNOWN, s, 0).fields == UNKNOWN
  {
    Number4(s, 0, d.year);
    Number2(s, 5, d.month);
    Number2(s, 8, d.day);
    RunOfDigits(s, 0, 4);
    assert Long(s, 0) == Some((d.year, 4));
    assert Part(s, 5) == (d.month, 7);
    assert Long(s, 8) == Some((d.day, 10));
    assert TimeMark(s, 10);
    hide Long, Part, Two, DigitsEnd, ShowsClock, Shows6;
    assert Numbers3(s, 0) == Some((d.year, d.month, d.day, 10));
  }

  lemma IsoFraction(s: string, d: DateTime)
    requires IsIso(s, d)
    ensures FractionEnd(s, 19) == 26 && Micros(s, 20, 26) == d.microsecond && DigitsFrom(s, 20) == 26
  {
    hide DigitsFrom, ShowsClock, Shows4, Micros, DigitsEnd, EndsToken;
    SixDigits(s, 20, d.microsecond);
    RunOfDigits(s, 20, 26);
    assert At(s, 19) == '.';
  }

  lemma SixDigits(s: string, i: nat, v: int)
    requires Shows6(s, i, v)
    ensures Micros(s, i, i + 6) == v && forall j | i <= j < i + 6 :: IsDigit(s[j])
  {
    forall j | i <= j < i + 6
      ensures IsDigit(s[j]) && Place(s, j, i + 6) == Figure(s[j])
    {
      assert At(s, j) == s[j];
    }
    hide Place, IsDigit, Figure;
    var a, b, c := v / 10_000, v / 100 % 100, v % 100;
    assert v / 100 == a * 100 + b;
    assert v == a * 10_000 + b * 100 + c;
  }

  // Such a text denotes its date and time, microseconds and all, in GMT.
  lemma IsoForm(s: string, d: DateTime)
    requires IsIso(s, d) && d.Valid() && d.year >= 100
    ensures Reads(s, d, GMT)
  {
    var f := UNKNOWN.(year := d.year, month := Some(d.month - 1), date := d.day);
    var g := f.(zone := Some((0, 0)), hour := d.hour, min := d.minute, sec := d.second, usec := d.microsecond);
    IsoRounds(s, d, f, g);
    Number4(s, 0, d.year);
    IsoEnds(s, d);
    hide Scan, Trim, IsIso, Date.Valid;
    DenotedAs(s, g, d, GMT);
  }

  lemma IsoEnds(s: string, d: DateTime)
    requires IsIso(s, d)
    ensures Trim(s) == s && s != ""
  {
    TrimBare(s, "");
    assert "" + s == s;
  }

  lemma IsoRounds(s: string, d: DateTime, f: Fields, g: Fields)
    requires IsIso(s, d) && d.Valid() && d.year >= 100
    requires f == UNKNOWN.(year := d.year, month := Some(d.month - 1), date := d.day)
    requires g == f.(zone := Some((0, 0)), hour := d.hour, min := d.minute, sec := d.second, usec := d.microsecond)
    ensures Scan(UNKNOWN, s, 0, 0) == Some(g)
  {
    hide Token, Onward, IsIso, Scan, Date.Valid, Round;
    IsoDate(s, d);
    IsoTime(s, d, f, g);
    IsoPlaces(s, d);
    RoundIs(UNKNOWN, s, 0, f, 10, 11);
    RoundIs(f, s, 11, g, 26, 27);
    ScanStep(UNKNOWN, s, 0, 0, f, 11);
    ScanStep(f, s, 11, 1, g, 27);
    ScanEnd(g, s, 2);
  }

  lemma IsoTime(s: string, d: DateTime, f: Fields, g: Fields)
    requires IsIso(s, d) && f.hour == -1
    requires g == f.(zone := Some((0, 0)), hour := d.hour, min := d.minute, sec := d.second, usec := d.microsecond)
    ensures Token(f, s, 11) == Outcome.Scanned(g, 26)
  {
    IsoFraction(s, d);
    assert At(s, 19) == '.' && At(s, 26) == 'Z';
    hide Shows2, Shows4, Shows6, FractionEnd, Micros, Token;
    ClockRead8(f, s, 11, d.hour, d);
  }

  lemma IsoPlaces(s: string, d: DateTime)
    requires IsIso(s, d)
    ensures |s| == 27 && s[0] != '\0' && s[11] != '\0'
    ensures forall year :: Onward(year, s, 10) == 11 && Onward(year, s, 26) == 27
  {
    assert TimeMark(s, 10) && EndsToken(s, 27) && !EndsToken(s, 26) && !TimeMark(s, 27);
    hide IsIso, EndsToken, TimeMark, Onward;
    forall year
      ensures Onward(year, s, 10) == 11 && Onward(year, s, 26) == 27
    {
      NextMark(year, s, 10);
      Next(year, s, 26, 27, 27);
    }
  }

  /* ----- MM/DD/YYYY hh:MM:SS AM, and DD/MM/YY HH:MM ----- */

  // The hour on a clock of twelve.
  function Twelve(hour: int): int {
    if hour % 12 == 0 then 12 else hour % 12
  }

  predicate IsAmerican(s: string, d: DateTime) {
    && |s| == 22 && Shows2(s, 0, d.month) && s[2] == '/' && Shows2(s, 3, d.day) && s[5] == '/' && Shows4(s, 6, d.year)
    && s[10] == ' ' && ShowsClock(s, 11, Twelve(d.hour), d) && s[19] == ' '
    && (s[20] == 'A' || s[20] == 'a' || s[20] == 'P' || s[20] == 'p') && (s[21] == 'M' || s[21] == 'm')
    && (d.hour >= 12 <==> s[20] == 'P' || s[20] == 'p')
  }

  lemma AmericanDate(s: string, d: DateTime)
    requires IsAmerican(s, d) && d.Valid() && d.year >= 100
    ensures Token(UNKNOWN, s, 0) ==
            Outcome.Scanned(UNKNOWN.(year := d.year, month := Some(d.month - 1), date := d.day), 10)
  {
    InMonth(d);
    Number2(s, 0, d.month);
    Number2(s, 3, d.day);
    Number4(s, 6, d.year);
    RunOfDigits(s, 0, 2);
    assert Long(s, 0) == Some((d.month, 2));
    assert Part(s, 3) == (d.day, 5);
    assert Long(s, 6) == Some((d.year, 10));
    assert !TimeMark(s, 10);
    hide Long, Part, Two, DigitsEnd, ShowsClock, Date.Valid, Twelve;
    assert Numbers3(s, 0) == Some((d.month, d.day, d.year, 10));
  }

  lemma AmericanTime(s: string, d: DateTime, f: Fields)
    requires IsAmerican(s, d) && d.Valid() && f.hour == -1 && f.usec == -1
    ensures Token(f, s, 11) == Outcome.Scanned(f.(hour := d.hour, min := d.minute, sec := d.second), 19)
  {
    assert BlanksEnd(s, 19) == 20 && FractionEnd(s, 19) == 19 && At(s, 19) == ' ';
    assert Meridian(s, 19, Twelve(d.hour)) == d.hour;
    hide Shows2, Shows4, FractionEnd, Meridian, Token, Date.Valid;
    ClockRead8(f, s, 11, Twelve(d.hour), d);
  }

  // AM and PM are no words that the scanner knows.
  lemma MeridianWord(s: string, d: DateTime, f: Fields)
    requires IsAmerican(s, d)
    ensures Token(f, s, 20) == Outcome.Scanned(f, 20)
  {
    var w := Word(s, 20);
    assert |w| == 3 && w[0] in "ap" && w[1] == 'm' && w[2] == '\0';
    assert s[20] != '+' && s[20] != '-' && !IsDigit(s[20]);
    hide Index, IsAmerican, Word, ZoneOf;
    ShortWord(w);
    NoZone(w);
  }

  // Names of months and weekdays have three letters.
  lemma ShortWord(w: string)
    requires |w| == 3 && w[2] == '\0'
    ensures w !in MONTHS && w !in DAYS
  {
    forall k
      ensures 0 <= k < 12 ==> MONTHS[k] != w
      ensures 0 <= k < 7 ==> DAYS[k] != w
    {
      assert 0 <= k < 12 ==> MONTHS[k][2] != w[2];
      assert 0 <= k < 7 ==> DAYS[k][2] != w[2];
    }
  }

  lemma NoZone(w: string)
    requires |w| == 3 && w[2] == '\0'
    ensures ZoneOf(w).None?
  {
  }

  lemma AmericanPlaces(s: string, d: DateTime)
    requires IsAmerican(s, d)
    ensures |s| == 22 && s[0] != '\0' && s[11] != '\0' && s[20] != '\0'
    ensures forall year :: Onward(year, s, 10) == 11 && Onward(year, s, 19) == 20 && Onward(year, s, 20) == 22
  {
    hide IsAmerican, EndsToken, TimeMark, Onward;
    AmericanMarks(s, d);
    forall year
      ensures Onward(year, s, 10) == 11 && Onward(year, s, 19) == 20 && Onward(year, s, 20) == 22
    {
      Next(year, s, 10, 10, 11);
      Next(year, s, 19, 19, 20);
      Next(year, s, 20, 22, 22);
    }
  }

  lemma AmericanMarks(s: string, d: DateTime)
    requires IsAmerican(s, d)
    ensures |s| == 22 && s[0] != '\0' && s[11] != '\0' && s[20] != '\0' && s[10] == ' ' && s[19] == ' '
    ensures EndsToken(s, 10) && EndsToken(s, 19) && EndsToken(s, 22) && !EndsToken(s, 20) && !EndsToken(s, 21)
    ensures !TimeMark(s, 11) && !TimeMark(s, 20) && !TimeMark(s, 22)
    ensures At(s, 11) !in " \t,;/()[]-" && At(s, 20) !in " \t,;/()[]-" && At(s, 22) !in " \t,;/()[]-"
  {
    hide ShowsClock;
    ClockStarts(s, 11, Twelve(d.hour), d);
    assert At(s, 11) == s[11] && At(s, 20) == s[20] && At(s, 21) == s[21] && At(s, 22) == '\0';
    EndsAt(s, 10);
    EndsAt(s, 19);
    EndsAt(s, 22);
  }

  // Such a text denotes its date and time, month first.
  lemma AmericanForm(s: string, d: DateTime)
    requires IsAmerican(s, d) && d.Valid() && d.year >= 100 && d.microsecond == 0
    ensures Reads(s, d, GMT)
  {
    var f := UNKNOWN.(year := d.year, month := Some(d.month - 1), date := d.day);
    var g := f.(hour := d.hour, min := d.minute, sec := d.second);
    AmericanDate(s, d);
    AmericanTime(s, d, f);
    MeridianWord(s, d, g);
    AmericanPlaces(s, d);
    Number4(s, 6, d.year);
    TrimBare(s, "");
    assert "" + s == s;
    hide Token, Onward, IsAmerican, Scan, Date.Valid, Round, Trim;
    RoundIs(UNKNOWN, s, 0, f, 10, 11);
    RoundIs(f, s, 11, g, 19, 20);
    RoundIs(g, s, 20, g, 20, 22);
    ScanStep(UNKNOWN, s, 0, 0, f, 11);
    ScanStep(f, s, 11, 1, g, 20);
    ScanStep(g, s, 20, 2, g, 22);
    ScanEnd(g, s, 3);
    DenotedAs(s, g, d, GMT);
  }

  predicate IsEuropean(s: string, d: DateTime) {
    && |s| == 14 && Shows2(s, 0, d.day) && s[2] == '/' && Shows2(s, 3, d.month) && s[5] == '/'
    && 1970 <= d.year < 2070 && Shows2(s, 6, d.year % 100) && s[8] == ' '
    && Shows2(s, 9, d.hour) && s[11] == ':' && Shows2(s, 12, d.minute)
  }

  lemma EuropeanDate(s: string, d: DateTime)
    requires IsEuropean(s, d) && d.Valid() && d.day > 12
    ensures Token(UNKNOWN, s, 0) ==
            Outcome.Scanned(UNKNOWN.(year := d.year, month := Some(d.month - 1), date := d.day), 8)
  {
    InMonth(d);
    Number2(s, 0, d.day);
    Number2(s, 3, d.month);
    Number2(s, 6, d.year % 100);
    RunOfDigits(s, 0, 2);
    assert Long(s, 0) == Some((d.day, 2));
    assert Part(s, 3) == (d.month, 5);
    assert Long(s, 6) == Some((d.year % 100, 8));
    assert !TimeMark(s, 8);
    assert Century(d.year % 100) == d.year;
    hide Long, Part, Two, DigitsEnd, Date.Valid, Century;
    assert Numbers3(s, 0) == Some((d.day, d.month, d.year % 100, 8));
  }

  lemma EuropeanTime(s: string, d: DateTime, f: Fields)
    requires IsEuropean(s, d) && f.hour == -1 && f.usec == -1 && f.sec == -1
    ensures Token(f, s, 9) == Outcome.Scanned(f.(hour := d.hour, min := d.minute), 14)
    ensures forall j | 9 <= j < 14 :: !EndsToken(s, j)
  {
    Number2(s, 9, d.hour);
    Number2(s, 12, d.minute);
    RunOfDigits(s, 9, 11);
    RunOfDigits(s, 12, 14);
    assert !EndsToken(s, 11);
    assert DigitsFrom(s, 14) == 14 && FractionEnd(s, 14) == 14 && BlanksEnd(s, 14) == 14 && At(s, 14) == '\0';
    assert ToLower(At(s, 14)) == '\0';
    assert Meridian(s, 14, d.hour) == d.hour;
    hide DigitsFrom, DigitsEnd, FractionEnd, Meridian, Two, EndsToken;
  }

  lemma EuropeanPlaces(s: string, d: DateTime)
    requires IsEuropean(s, d)
    ensures |s| == 14 && s[0] != '\0' && s[9] != '\0'
    ensures forall year :: Onward(year, s, 8) == 9 && Onward(year, s, 14) == 14
  {
    assert EndsToken(s, 8) && !TimeMark(s, 9) && EndsToken(s, 14) && !TimeMark(s, 14);
    assert At(s, 9) == s[9] && At(s, 14) == '\0' && s[8] == ' ' && IsDigit(s[9]);
    hide IsEuropean, EndsToken, TimeMark, Onward;
    forall year
      ensures Onward(year, s, 8) == 9 && Onward(year, s, 14) == 14
    {
      Next(year, s, 8, 8, 9);
      Next(year, s, 14, 14, 14);
    }
  }

  // With a day after the twelfth the day comes first; a year of two digits lies in
  // the hundred years from 1970 on; without seconds they are 0.
  lemma EuropeanForm(s: string, d: DateTime)
    requires IsEuropean(s, d) && d.Valid() && d.day > 12 && d.second == d.microsecond == 0
    ensures Reads(s, d, GMT)
  {
    hide Token, Onward, IsEuropean, Scan, Date.Valid, Round, Trim, EndsToken;
    var f := UNKNOWN.(year := d.year, month := Some(d.month - 1), date := d.day);
    var g := f.(hour := d.hour, min := d.minute);
    EuropeanEnds(s, d);
    EuropeanDate(s, d);
    EuropeanTime(s, d, f);
    EuropeanPlaces(s, d);
    RoundIs(UNKNOWN, s, 0, f, 8, 9);
    RoundIs(f, s, 9, g, 14, 14);
    ScanStep(UNKNOWN, s, 0, 0, f, 9);
    ScanStep(f, s, 9, 1, g, 14);
    ScanEnd(g, s, 2);
    DenotedAs(s, g, d, GMT);
  }

  lemma EuropeanEnds(s: string, d: DateTime)
    requires IsEuropean(s, d)
    ensures Trim(s) == s && s != "" && 1970 <= d.year < 2070
  {
    TrimBare(s, "");
    assert "" + s == s;
  }

  /* ----- DD-Mmm-YYYY HH:MM:SS ----- */

  predicate IsDashed(s: string, d: DateTime) {
    && |s| == 20 && Shows2(s, 0, d.day) && s[2] == '-' && ShowsMonth(s, 3, d.month) && s[6] == '-' && Shows4(s, 7, d.year)
    && s[11] == ' ' && ShowsClock(s, 12, d.hour, d)
  }

  lemma DashedTokens(s: string, d: DateTime, f: Fields, g: Fields, h: Fields)
    requires IsDashed(s, d) && d.Valid()
    requires f == UNKNOWN.(date := d.day) && g == f.(month := Some(d.month - 1)) && h == g.(year := d.year)
    ensures Token(UNKNOWN, s, 0) == Outcome.Scanned(f, 0) && Token(f, s, 3) == Outcome.Scanned(g, 3)
    ensures Token(g, s, 7) == Outcome.Scanned(h, 7)
  {
    hide Token, ShowsClock, ShowsMonth, Shows4, Shows2, Date.Valid;
    InMonth(d);
    MonthWordToken(f, s, 3, d.month);
    assert At(s, 2) == '-' && At(s, 3) == s[3] && At(s, 11) == ' ';
    NumberToken2(UNKNOWN, s, 0, d.day);
    NumberToken4(g, s, 7, d.year);
  }

  lemma PlainTime(s: string, i: nat, d: DateTime, f: Fields)
    requires ShowsClock(s, i, d.hour, d) && i + 8 == |s| && f.hour == -1 && f.usec == -1
    ensures Token(f, s, i) == Outcome.Scanned(f.(hour := d.hour, min := d.minute, sec := d.second), |s|)
  {
    var e := i + 8;
    assert FractionEnd(s, e) == e && BlanksEnd(s, e) == e && At(s, e) == '\0' && ToLower(At(s, e)) == '\0';
    assert Meridian(s, e, d.hour) == d.hour;
    hide ShowsClock, FractionEnd, Meridian, Token;
    ClockRead8(f, s, i, d.hour, d);
  }

  lemma DashedPlaces(s: string, d: DateTime)
    requires IsDashed(s, d)
    ensures Onward(-1, s, 0) == 3 && Onward(-1, s, 3) == 7
    ensures forall year :: Onward(year, s, 7) == 12 && Onward(year, s, 20) == 20
  {
    hide IsDashed, EndsToken, TimeMark, Onward;
    DashedRuns(s, d);
    DashedMarks(s, d);
    NextDash(-1, s, 0, 2);
    NextDash(-1, s, 3, 6);
    forall year
      ensures Onward(year, s, 7) == 12 && Onward(year, s, 20) == 20
    {
      Next(year, s, 7, 11, 12);
      Next(year, s, 20, 20, 20);
    }
  }

  lemma DashedRuns(s: string, d: DateTime)
    requires IsDashed(s, d)
    ensures |s| == 20
    ensures forall j | 0 <= j < 2 || 3 <= j < 6 || 7 <= j < 11 :: !EndsToken(s, j)
    ensures IsLetter(s[3]) && IsLetter(s[5]) && s[0] != '\0' && s[3] != '\0' && s[7] != '\0' && s[12] != '\0'
  {
    hide ShowsClock, Token, EndsToken;
    MonthWordToken(UNKNOWN, s, 3, d.month);
    RunOfDigits(s, 0, 2);
    Number4(s, 7, d.year);
    RunOfDigits(s, 7, 11);
    LetterRuns(s, 3);
    assert IsDigit(s[12]) by { ClockStarts(s, 12, d.hour, d); }
  }

  lemma ClockStarts(s: string, i: nat, hour: int, d: DateTime)
    requires ShowsClock(s, i, hour, d)
    ensures IsDigit(s[i])
  {
  }

  lemma DashedMarks(s: string, d: DateTime)
    requires IsDashed(s, d)
    ensures |s| == 20 && s[2] == '-' && s[6] == '-' && s[11] == ' ' && EndsToken(s, 11) && EndsToken(s, 20)
    ensures !TimeMark(s, 3) && !TimeMark(s, 7) && !TimeMark(s, 12) && !TimeMark(s, 20)
    ensures At(s, 3) !in " \t,;/()[]-" && At(s, 7) !in " \t,;/()[]-" && At(s, 12) !in " \t,;/()[]-"
    ensures At(s, 20) !in " \t,;/()[]-" && !IsDigit(At(s, 3))
  {
    hide Token, EndsToken, ShowsMonth, ShowsClock, Shows2;
    MonthWordToken(UNKNOWN, s, 3, d.month);
    Number4(s, 7, d.year);
    ClockStarts(s, 12, d.hour, d);
    assert At(s, 3) == s[3] && At(s, 4) == s[4] && At(s, 7) == s[7] && At(s, 12) == s[12] && At(s, 20) == '\0';
    EndsAt(s, 11);
    EndsAt(s, 20);
  }

  lemma EndsAt(s: string, i: nat)
    requires At(s, i) == ' ' || At(s, i) == '\0' || At(s, i) == '-'
    ensures EndsToken(s, i)
  {
  }

  // Such a text denotes its date and time.
  lemma DashedForm(s: string, d: DateTime)
    requires IsDashed(s, d) && d.Valid() && d.microsecond == 0
    ensures Reads(s, d, GMT)
  {
    hide Token, Onward, IsDashed, Scan, Date.Valid, Round, Trim, ShowsClock, Shows4, EndsToken;
    var f := UNKNOWN.(date := d.day);
    var g := f.(month := Some(d.month - 1));
    var h := g.(year := d.year);
    var k := h.(hour := d.hour, min := d.minute, sec := d.second);
    DashedParts(s, d);
    DashedTokens(s, d, f, g, h);
    PlainTime(s, 12, d, h);
    DashedPlaces(s, d);
    DashedRuns(s, d);
    RoundIs(UNKNOWN, s, 0, f, 0, 3);
    RoundIs(f, s, 3, g, 3, 7);
    RoundIs(g, s, 7, h, 7, 12);
    RoundIs(h, s, 12, k, 20, 20);
    ScanStep(UNKNOWN, s, 0, 0, f, 3);
    ScanStep(f, s, 3, 1, g, 7);
    ScanStep(g, s, 7, 2, h, 12);
    ScanStep(h, s, 12, 3, k, 20);
    ScanEnd(k, s, 4);
    DenotedAs(s, k, d, GMT);
  }

  lemma DashedParts(s: string, d: DateTime)
    requires IsDashed(s, d)
    ensures |s| == 20 && Trim(s) == s && ShowsClock(s, 12, d.hour, d) && 0 <= d.year < 10_000
  {
    Number4(s, 7, d.year);
    TrimBare(s, "");
    assert "" + s == s;
  }

  /* ----- DD Mmm YYYY HH:MM:SS and a zone ----- */

  // The text up to the zone.
  predicate IsHead(s: string, d: DateTime) {
    && |s| > 21 && Shows2(s, 0, d.day) && s[2] == ' ' && ShowsMonth(s, 3, d.month) && s[6] == ' ' && Shows4(s, 7, d.year)
    && s[11] == ' ' && ShowsClock(s, 12, d.hour, d) && s[20] == ' '
  }

  // The zone starts like no other token, and not like AM or PM.
  predicate IsTail(s: string) {
    && |s| > 21 && !IsLWS(s[|s| - 1]) && s[21] !in " \t,;/()[]" && s[21] != '\0' && !TimeMark(s, 21)
    && (s[21] == '-' ==> IsDigit(At(s, 22))) && !(ToLower(s[21]) in "ap" && ToLower(At(s, 22)) == 'm')
  }

  function HeadFields(d: DateTime): Fields {
    UNKNOWN.(date := d.day, month := Some(d.month - 1), year := d.year, hour := d.hour, min := d.minute, sec := d.second)
  }

  lemma HeadTokens(s: string, d: DateTime, f: Fields, g: Fields, h: Fields)
    requires IsHead(s, d) && d.Valid()
    requires f == UNKNOWN.(date := d.day) && g == f.(month := Some(d.month - 1)) && h == g.(year := d.year)
    ensures Token(UNKNOWN, s, 0) == Outcome.Scanned(f, 0) && Token(f, s, 3) == Outcome.Scanned(g, 3)
    ensures Token(g, s, 7) == Outcome.Scanned(h, 7)
  {
    hide Token, ShowsClock, ShowsMonth, Shows4, Shows2, Date.Valid;
    InMonth(d);
    MonthWordToken(f, s, 3, d.month);
    assert At(s, 2) == ' ' && At(s, 3) == s[3] && At(s, 11) == ' ';
    NumberToken2(UNKNOWN, s, 0, d.day);
    NumberToken4(g, s, 7, d.year);
  }

  lemma HeadTime(s: string, d: DateTime, f: Fields)
    requires IsHead(s, d) && IsTail(s) && f.hour == -1 && f.usec == -1
    ensures Token(f, s, 12) == Outcome.Scanned(f.(hour := d.hour, min := d.minute, sec := d.second), 20)
  {
    assert At(s, 20) == ' ' && At(s, 21) == s[21];
    assert FractionEnd(s, 20) == 20 && BlanksEnd(s, 20) == 21;
    assert Meridian(s, 20, d.hour) == d.hour;
    hide ShowsClock, ShowsMonth, Shows2, Shows4, FractionEnd, Meridian, Token;
    ClockRead8(f, s, 12, d.hour, d);
  }

  lemma HeadRuns(s: string, d: DateTime)
    requires IsHead(s, d)
    ensures |s| > 21
    ensures forall j | 0 <= j < 2 || 3 <= j < 6 || 7 <= j < 11 :: !EndsToken(s, j)
    ensures IsLetter(s[3]) && IsDigit(s[7]) && IsDigit(s[12]) && s[0] != '\0'
  {
    hide ShowsClock, Token, EndsToken;
    MonthWordToken(UNKNOWN, s, 3, d.month);
    RunOfDigits(s, 0, 2);
    Number4(s, 7, d.year);
    RunOfDigits(s, 7, 11);
    LetterRuns(s, 3);
    ClockStarts(s, 12, d.hour, d);
  }

  lemma HeadMarks(s: string, d: DateTime)
    requires IsHead(s, d)
    ensures |s| > 21 && s[2] == ' ' && s[6] == ' ' && s[11] == ' ' && s[20] == ' '
    ensures EndsToken(s, 2) && EndsToken(s, 6) && EndsToken(s, 11) && EndsToken(s, 20)
    ensures !TimeMark(s, 3) && !TimeMark(s, 7) && !TimeMark(s, 12)
    ensures At(s, 3) !in " \t,;/()[]-" && At(s, 7) !in " \t,;/()[]-" && At(s, 12) !in " \t,;/()[]-"
  {
    hide Token, EndsToken, ShowsMonth, ShowsClock, Shows2;
    MonthWordToken(UNKNOWN, s, 3, d.month);
    Number4(s, 7, d.year);
    ClockStarts(s, 12, d.hour, d);
    assert At(s, 3) == s[3] && At(s, 4) == s[4] && At(s, 7) == s[7] && At(s, 12) == s[12];
    EndsAt(s, 2);
    EndsAt(s, 6);
    EndsAt(s, 11);
    EndsAt(s, 20);
  }

  lemma HeadPlaces(s: string, d: DateTime)
    requires IsHead(s, d) && IsTail(s)
    ensures forall year :: Onward(year, s, 0) == 3 && Onward(year, s, 3) == 7 && Onward(year, s, 7) == 12
    ensures forall year :: Onward(year, s, 20) == 21
  {
    assert At(s, 21) == s[21] && At(s, 20) == s[20];
    hide IsHead, EndsToken, TimeMark, Onward;
    HeadRuns(s, d);
    HeadMarks(s, d);
    forall year
      ensures Onward(year, s, 0) == 3 && Onward(year, s, 3) == 7 && Onward(year, s, 7) == 12 && Onward(year, s, 20) == 21
    {
      Next(year, s, 0, 2, 3);
      Next(year, s, 3, 6, 7);
      Next(year, s, 7, 11, 12);
      Next(year, s, 20, 20, 21);
    }
  }

  // The scan comes to the zone with the date and the time.
  lemma HeadScanned(s: string, d: DateTime)
    requires IsHead(s, d) && IsTail(s) && d.Valid()
    ensures Scan(UNKNOWN, s, 0, 0) == Scan(HeadFields(d), s, 21, 4)
  {
    hide Token, Onward, IsHead, IsTail, Scan, Date.Valid, Round, EndsToken;
    var f := UNKNOWN.(date := d.day);
    var g := f.(month := Some(d.month - 1));
    var h := g.(year := d.year);
    HeadTokens(s, d, f, g, h);
    HeadTime(s, d, h);
    HeadPlaces(s, d);
    HeadRuns(s, d);
    RoundIs(UNKNOWN, s, 0, f, 0, 3);
    RoundIs(f, s, 3, g, 3, 7);
    RoundIs(g, s, 7, h, 7, 12);
    RoundIs(h, s, 12, HeadFields(d), 20, 21);
    ScanStep(UNKNOWN, s, 0, 0, f, 3);
    ScanStep(f, s, 3, 1, g, 7);
    ScanStep(g, s, 7, 2, h, 12);
    ScanStep(h, s, 12, 3, HeadFields(d), 21);
  }

  lemma HeadEnds(s: string, d: DateTime)
    requires IsHead(s, d) && IsTail(s)
    ensures Trim(s) == s && s != "" && 0 <= d.year < 10_000
  {
    Number4(s, 7, d.year);
    TrimBare(s, "");
    assert "" + s == s;
  }

  // One more token, the zone, and the text is read.
  lemma ZoneRead(s: string, d: DateTime, g: Fields, rest: nat, zone: Params)
    requires IsHead(s, d) && IsTail(s) && d.Valid() && d.microsecond == 0
    requires Token(HeadFields(d), s, 21) == Outcome.Scanned(g, rest) && Onward(g.year, s, rest) == |s|
    requires g == HeadFields(d).(zone := g.zone, offset := g.offset) && (Sane(g) ==> ZoneParams(g) == zone)
    ensures Reads(s, d, zone)
  {
    TailStarts(s);
    HeadEnds(s, d);
    hide Token, Onward, IsHead, IsTail, Scan, Date.Valid, Round, Trim, Sane, ZoneParams;
    HeadScanned(s, d);
    assert Round(HeadFields(d), s, 21) == Outcome.Scanned(g, |s|) by { TailRound(HeadFields(d), s, g, rest); }
    ScanStep(HeadFields(d), s, 21, 4, g, |s|);
    ScanEnd(g, s, 5);
    DenotedAs(s, g, d, zone);
  }

  lemma TailStarts(s: string)
    requires IsTail(s)
    ensures |s| > 21 && s[21] != '\0'
  {
  }

  lemma TailRound(f: Fields, s: string, g: Fields, rest: nat)
    requires |s| > 21 && s[21] != '\0' && Token(f, s, 21) == Outcome.Scanned(g, rest) && Onward(g.year, s, rest) == |s|
    ensures Round(f, s, 21) == Outcome.Scanned(g, |s|)
  {
    hide Token, Onward;
  }

  // The zones by name: minutes off GMT, and of daylight saving.
  const ZONES: seq<(string, int, int)> := [
    ("pst", -8 * 60, 0), ("pdt", -8 * 60, 60), ("mst", -7 * 60, 0), ("mdt", -7 * 60, 60), ("cst", -6 * 60, 0),
    ("cdt", -6 * 60, 60), ("est", -5 * 60, 0), ("edt", -5 * 60, 60), ("ast", -4 * 60, 0), ("nst", -3 * 60 - 30, 0),
    ("gmt", 0, 0), ("bst", 0, 60), ("met", 60, 0), ("eet", 120, 0), ("jst", 540, 0)]

  predicate NamesZone(s: string, i: nat, k: nat) {
    k < |ZONES| && i + 3 == |s| && [ToLower(s[i]), ToLower(s[i + 1]), ToLower(s[i + 2])] == ZONES[k].0
  }

  lemma ZonesAreNoWords(k: nat, j: nat)
    requires k < 15
    ensures j < 12 ==> MONTHS[j] != ZONES[k].0
    ensures j < 7 ==> DAYS[j] != ZONES[k].0
  {
    var w := ZONES[k].0;
    if j < 12 {
      assert MONTHS[j][0] != w[0] || MONTHS[j][1] != w[1] || MONTHS[j][2] != w[2];
    }
    if j < 7 {
      assert DAYS[j][0] != w[0] || DAYS[j][1] != w[1] || DAYS[j][2] != w[2];
    }
  }

  lemma ZoneFound(k: nat)
    requires k < 15
    ensures ZoneOf(ZONES[k].0) == Some((ZONES[k].1, ZONES[k].2))
  {
    assert |ZONES[k].0| == 3;
  }

  lemma NamedToken(f: Fields, s: string, k: nat)
    requires NamesZone(s, 21, k) && |s| == 24 && f.zone.None?
    ensures |ZONES| == 15 && Token(f, s, 21) == Outcome.Scanned(f.(zone := Some((ZONES[k].1, ZONES[k].2))), 21)
    ensures IsTail(s) && forall j | 21 <= j < 24 :: !EndsToken(s, j)
  {
    hide Index, ZoneOf, EndsToken, Word, ToLower;
    ZoneCount(s, k);
    ZoneLetters(s, k);
    ZoneWord(s, k);
    ZoneFound(k);
    ZoneTail(s);
    LetterRuns(s, 21);
    assert s[21] != '+' && s[21] != '-' && !IsDigit(s[21]);
  }

  lemma ZoneTail(s: string)
    requires |s| == 24 && IsLetter(s[21]) && IsLetter(s[22]) && IsLetter(s[23])
    requires !(ToLower(s[21]) in "ap" && ToLower(s[22]) == 'm')
    ensures IsTail(s) && !IsDigit(At(s, 24))
  {
    assert At(s, 21) == s[21] && At(s, 22) == s[22];
  }

  lemma ZoneWord(s: string, k: nat)
    requires NamesZone(s, 21, k) && |s| == 24
    ensures k < 15 && Word(s, 21) == ZONES[k].0 && Word(s, 21) !in MONTHS && Word(s, 21) !in DAYS
  {
    hide ToLower;
    ZoneCount(s, k);
    assert At(s, 21) == s[21] && At(s, 22) == s[22] && At(s, 23) == s[23];
    forall j: nat
      ensures j < 12 ==> MONTHS[j] != ZONES[k].0
      ensures j < 7 ==> DAYS[j] != ZONES[k].0
    {
      ZonesAreNoWords(k, j);
    }
  }

  lemma ZoneLetters(s: string, k: nat)
    requires NamesZone(s, 21, k) && |s| == 24
    ensures IsLetter(s[21]) && IsLetter(s[22]) && IsLetter(s[23])
    ensures !(ToLower(s[21]) in "ap" && ToLower(s[22]) == 'm')
  {
    var w := ZONES[k].0;
    assert forall j | 0 <= j < 3 :: 'a' <= w[j] <= 'z';
    assert !(w[0] in "ap" && w[1] == 'm');
    assert ToLower(s[21]) == w[0] && ToLower(s[22]) == w[1] && ToLower(s[23]) == w[2];
  }

  lemma LastPlace(s: string, i: nat)
    requires i < |s| && forall j | i <= j < |s| :: !EndsToken(s, j)
    ensures forall year :: Onward(year, s, i) == |s|
  {
    assert At(s, |s|) == '\0' && EndsToken(s, |s|) && !TimeMark(s, |s|);
    hide EndsToken, TimeMark, Onward;
    forall year
      ensures Onward(year, s, i) == |s|
    {
      Next(year, s, i, |s|, |s|);
    }
  }

  // A text with the name of a zone, in any case of letters, denotes its date and
  // time by a clock of that zone.
  lemma NamedZoneForm(s: string, d: DateTime, k: nat)
    requires IsHead(s, d) && |s| == 24 && NamesZone(s, 21, k) && d.Valid() && d.microsecond == 0
    ensures Reads(s, d, Params(ZONES[k].1 * 60, ZONES[k].2 * 60))
  {
    hide IsHead, IsTail, EndsToken, Token, Onward, Date.Valid, NamesZone;
    ZoneCount(s, k);
    var g := HeadFields(d).(zone := Some((ZONES[k].1, ZONES[k].2)));
    NamedToken(HeadFields(d), s, k);
    LastPlace(s, 21);
    ZoneRead(s, d, g, 21, Params(ZONES[k].1 * 60, ZONES[k].2 * 60));
  }

  lemma ZoneCount(s: string, k: nat)
    requires NamesZone(s, 21, k)
    ensures |ZONES| == 15 && k < |ZONES|
  {
  }

  // A signed offset, in hours, or in hours and minutes.
  predicate ShowsOffset(s: string, minutes: int) {
    && |s| > 22 && (s[21] == '+' || s[21] == '-')
    && (forall j | 22 <= j < |s| :: IsDigit(s[j]))
    && minutes == (if s[21] == '+' then 1 else -1) *
                  (if |s| == 26 then (10 * Figure(s[22]) + Figure(s[23])) * 60 + 10 * Figure(s[24]) + Figure(s[25])
                   else if |s| == 24 then (10 * Figure(s[22]) + Figure(s[23])) * 60
                   else Figure(s[22]) * 60)
  }

  lemma OffsetToken(f: Fields, s: string, minutes: int)
    requires ShowsOffset(s, minutes) && (|s| == 23 || |s| == 24 || |s| == 26) && f.offset == -1 && f.zone.None?
    ensures Token(f, s, 21) == Outcome.Scanned(f.(offset := minutes, zone := Some((0, 0))), 22)
    ensures IsTail(s) && forall j | 22 <= j < |s| :: !EndsToken(s, j)
  {
    RunOfDigits(s, 22, |s|);
    assert At(s, 21) == s[21] && At(s, 22) == s[22] && IsDigit(s[22]) && IsDigit(s[|s| - 1]);
    hide DigitsFrom, DigitsEnd, EndsToken;
  }

  // A text with a signed offset denotes its date and time by a clock that far off
  // GMT; but an offset of minus one minute passes for none.
  lemma OffsetForm(s: string, d: DateTime, minutes: int)
    requires IsHead(s, d) && (|s| == 23 || |s| == 24 || |s| == 26) && ShowsOffset(s, minutes)
    requires d.Valid() && d.microsecond == 0
    ensures -6039 <= minutes <= 6039 && Reads(s, d, Params(if minutes == -1 then 0 else minutes * 60, 0))
  {
    OffsetBounds(s, minutes);
    hide IsHead, IsTail, EndsToken, Token, Onward, Date.Valid, ShowsOffset;
    var g := HeadFields(d).(offset := minutes, zone := Some((0, 0)));
    OffsetToken(HeadFields(d), s, minutes);
    LastPlace(s, 22);
    ZoneRead(s, d, g, 22, Params(if minutes == -1 then 0 else minutes * 60, 0));
  }

  lemma OffsetBounds(s: string, minutes: int)
    requires ShowsOffset(s, minutes) && (|s| == 23 || |s| == 24 || |s| == 26)
    ensures -6039 <= minutes <= 6039
  {
  }

  // A zone by name and an offset behind it, in hours and minutes.
  predicate ShowsBoth(s: string, k: nat, minutes: int) {
    && |s| == 29 && k < |ZONES| && [ToLower(s[21]), ToLower(s[22]), ToLower(s[23])] == ZONES[k].0
    && (s[24] == '+' || s[24] == '-') && (forall j | 25 <= j < 29 :: IsDigit(s[j]))
    && minutes == (if s[24] == '+' then 1 else -1) *
                  ((10 * Figure(s[25]) + Figure(s[26])) * 60 + 10 * Figure(s[27]) + Figure(s[28]))
  }

  lemma BothWord(f: Fields, s: string, k: nat, minutes: int)
    requires ShowsBoth(s, k, minutes) && f.zone.None?
    ensures |ZONES| == 15 && k < 15 && Token(f, s, 21) == Outcome.Scanned(f.(zone := Some((ZONES[k].1, ZONES[k].2))), 21)
    ensures IsTail(s) && forall j | 21 <= j < 24 :: !EndsToken(s, j)
  {
    hide Index, ZoneOf;
    var z := s[..24];
    assert z[21] == s[21] && z[22] == s[22] && z[23] == s[23];
    ZoneCount(z, k);
    ZoneLetters(z, k);
    ZoneWord(z, k);
    ZoneFound(k);
    assert At(s, 21) == s[21] && At(s, 22) == s[22] && At(s, 23) == s[23] && At(s, 24) == s[24];
    assert Word(s, 21) == Word(z, 21);
    assert IsDigit(s[28]);
    hide Word, ToLower, EndsToken;
    LetterRuns(s, 21);
  }

  // Behind GMT the offset counts, behind any other zone it does not.
  lemma BothSign(f: Fields, s: string, k: nat, minutes: int)
    requires ShowsBoth(s, k, minutes) && f.zone == Some((ZONES[k].1, ZONES[k].2)) && f.offset == -1
    ensures k < |ZONES|
    ensures Token(f, s, 24) == Outcome.Scanned(if ZONES[k].0 == "gmt" then f.(offset := minutes) else f, 25)
    ensures -6039 <= minutes <= 6039 && forall j | 25 <= j < 29 :: !EndsToken(s, j)
  {
    RunOfDigits(s, 25, 29);
    OnlyGmt(k);
    assert At(s, 24) == s[24];
    hide DigitsFrom, DigitsEnd, EndsToken;
  }

  lemma OnlyGmt(k: nat)
    requires k < |ZONES|
    ensures ZONES[k].0 == "gmt" <==> (ZONES[k].1, ZONES[k].2) == (0, 0)
  {
    assert |ZONES[k].0| == 3;
    assert ZONES[k].0[0] == 'g' <==> k == 10;
  }

  // With a year known, a sign before a digit is where the next token starts.
  lemma NextSign(year: int, s: string, i: nat, e: nat)
    requires year >= 0 && i <= e < |s| && (forall j | i <= j < e :: !EndsToken(s, j))
    requires (s[e] == '+' || s[e] == '-') && IsDigit(At(s, e + 1))
    ensures Onward(year, s, i) == e
  {
    assert EndsToken(s, e) && !TimeMark(s, e);
    TokenStops(s, i, e);
    assert GapEnd(s, e) == e;
    hide EndsToken, TimeMark;
  }

  // A text with both denotes its date and time by a clock of the offset when the
  // zone is GMT, and of the zone otherwise.
  lemma BothForm(s: string, d: DateTime, k: nat, minutes: int)
    requires IsHead(s, d) && ShowsBoth(s, k, minutes) && d.Valid() && d.microsecond == 0
    ensures k < |ZONES| && -6039 <= minutes <= 6039
    ensures Reads(s, d, if ZONES[k].0 == "gmt" then Params(if minutes == -1 then 0 else minutes * 60, 0)
                        else Params(ZONES[k].1 * 60, ZONES[k].2 * 60))
  {
    hide IsHead, IsTail, EndsToken, Token, Onward, Date.Valid, ShowsBoth, Scan, Round, Trim;
    BothPlaces(s, k, minutes);
    var f := HeadFields(d);
    BothWord(f, s, k, minutes);
    var g := f.(zone := Some((ZONES[k].1, ZONES[k].2)));
    BothSign(g, s, k, minutes);
    BothScanned(s, d, g, if ZONES[k].0 == "gmt" then g.(offset := minutes) else g);
    OnlyGmt(k);
    BothDenotes(s, d, g, ZONES[k].0 == "gmt", minutes, Params(ZONES[k].1 * 60, ZONES[k].2 * 60));
  }

  lemma BothDenotes(s: string, d: DateTime, g: Fields, gmt: bool, minutes: int, zone: Params)
    requires Trim(s) == s && s != "" && Scan(UNKNOWN, s, 0, 0) == Some(if gmt then g.(offset := minutes) else g)
    requires Matches(g, d) && g.offset == -1 && g.zone.Some? && (gmt ==> g.zone == Some((0, 0)))
    requires zone.gmtOffset == g.zone.value.0 * 60 && zone.dstOffset == g.zone.value.1 * 60 && -6039 <= minutes <= 6039
    ensures Reads(s, d, if gmt then Params(if minutes == -1 then 0 else minutes * 60, 0) else zone)
  {
    hide Scan, Trim, Date.Valid;
    var h := if gmt then g.(offset := minutes) else g;
    DenotedAs(s, h, d, if gmt then Params(if minutes == -1 then 0 else minutes * 60, 0) else zone);
  }

  lemma BothScanned(s: string, d: DateTime, g: Fields, h: Fields)
    requires IsHead(s, d) && IsTail(s) && d.Valid() && |s| == 29 && (s[24] == '+' || s[24] == '-') && IsDigit(At(s, 25))
    requires Token(HeadFields(d), s, 21) == Outcome.Scanned(g, 21) && g == HeadFields(d).(zone := g.zone)
    requires Token(g, s, 24) == Outcome.Scanned(h, 25) && h.year == g.year
    requires (forall j | 21 <= j < 24 :: !EndsToken(s, j)) && (forall j | 25 <= j < 29 :: !EndsToken(s, j))
    ensures Scan(UNKNOWN, s, 0, 0) == Some(h) && Trim(s) == s && Matches(HeadFields(d).(usec := d.microsecond), d)
  {
    hide IsHead, IsTail, EndsToken, Token, Onward, Date.Valid, Scan, Round, Trim;
    TailStarts(s);
    HeadEnds(s, d);
    HeadScanned(s, d);
    NextSign(d.year, s, 21, 24);
    LastPlace(s, 25);
    TailGoesOn(HeadFields(d), s, g, 24);
    RoundSign(g, s, h);
    ScanStep(HeadFields(d), s, 21, 4, g, 24);
    ScanStep(g, s, 24, 5, h, 29);
    ScanEnd(h, s, 6);
  }

  lemma BothPlaces(s: string, k: nat, minutes: int)
    requires ShowsBoth(s, k, minutes)
    ensures |s| == 29 && k < |ZONES| && (s[24] == '+' || s[24] == '-') && IsDigit(At(s, 25)) && s[24] != '\0'
  {
  }

  lemma TailGoesOn(f: Fields, s: string, g: Fields, next: nat)
    requires |s| > 21 && s[21] != '\0' && Token(f, s, 21) == Outcome.Scanned(g, 21) && Onward(g.year, s, 21) == next
    ensures Round(f, s, 21) == Outcome.Scanned(g, next)
  {
    hide Token, Onward;
  }

  lemma RoundSign(f: Fields, s: string, g: Fields)
    requires |s| == 29 && s[24] != '\0' && Token(f, s, 24) == Outcome.Scanned(g, 25) && Onward(g.year, s, 25) == 29
    ensures Round(f, s, 24) == Outcome.Scanned(g, 29)
  {
    hide Token, Onward;
  }

  // UT is GMT.
  lemma UtForm(s: string, d: DateTime)
    requires IsHead(s, d) && |s| == 23 && (s[21] == 'U' || s[21] == 'u') && (s[22] == 'T' || s[22] == 't')
    requires d.Valid() && d.microsecond == 0
    ensures Reads(s, d, GMT)
  {
    hide IsHead, IsTail, EndsToken, Token, Onward, Date.Valid;
    UtToken(HeadFields(d), s);
    LastPlace(s, 21);
    ZoneRead(s, d, HeadFields(d).(zone := Some((0, 0))), 21, GMT);
  }

  lemma UtToken(f: Fields, s: string)
    requires |s| == 23 && (s[21] == 'U' || s[21] == 'u') && (s[22] == 'T' || s[22] == 't') && f.zone.None?
    ensures Token(f, s, 21) == Outcome.Scanned(f.(zone := Some((0, 0))), 21)
    ensures IsTail(s) && forall j | 21 <= j < 23 :: !EndsToken(s, j)
  {
    hide Index, ZoneOf;
    UtWord(s);
    NoZone(Word(s, 21));
    assert At(s, 21) == s[21] && At(s, 22) == s[22] && At(s, 23) == '\0';
  }

  lemma UtWord(s: string)
    requires |s| == 23 && (s[21] == 'U' || s[21] == 'u') && (s[22] == 'T' || s[22] == 't')
    ensures Word(s, 21) == ['u', 't', '\0'] && Word(s, 21) !in MONTHS && Word(s, 21) !in DAYS
  {
    assert Word(s, 21) == ['u', 't', '\0'];
    ShortWord(Word(s, 21));
  }

  /* ----- D Mmm YY H:MM ----- */

  predicate IsShort(s: string, d: DateTime) {
    && |s| == 13 && 1 <= d.day <= 9 && IsDigit(s[0]) && d.day == Figure(s[0]) && s[1] == ' ' && ShowsMonth(s, 2, d.month)
    && s[5] == ' ' && 1970 <= d.year < 2070 && Shows2(s, 6, d.year % 100) && s[8] == ' '
    && IsDigit(s[9]) && d.hour == Figure(s[9]) && s[10] == ':' && Shows2(s, 11, d.minute)
  }

  lemma ShortTokens(s: string, d: DateTime, f: Fields, g: Fields, h: Fields)
    requires IsShort(s, d)
    requires f == UNKNOWN.(date := d.day) && g == f.(month := Some(d.month - 1)) && h == g.(year := d.year)
    ensures Token(UNKNOWN, s, 0) == Outcome.Scanned(f, 0) && Token(f, s, 2) == Outcome.Scanned(g, 2)
    ensures Token(g, s, 6) == Outcome.Scanned(h, 6)
    ensures Token(h, s, 9) == Outcome.Scanned(h.(hour := d.hour, min := d.minute), 13)
  {
    hide Token, ShowsMonth, Shows2, Century;
    MonthWordToken(f, s, 2, d.month);
    assert At(s, 1) == ' ' && At(s, 8) == ' ';
    YearOfTwo(d.year);
    ShortDay(s, d);
    ShortTime(s, d, h);
    NumberToken2(g, s, 6, d.year % 100);
  }

  lemma YearOfTwo(year: int)
    requires 1970 <= year < 2070
    ensures Century(year % 100) == year && 0 <= year % 100 < 100
  {
  }

  lemma ShortDay(s: string, d: DateTime)
    requires IsShort(s, d)
    ensures Token(UNKNOWN, s, 0) == Outcome.Scanned(UNKNOWN.(date := d.day), 0)
  {
    RunOfDigits(s, 0, 1);
    assert At(s, 1) == ' ' && At(s, 0) == s[0];
    hide DigitsEnd, ShowsMonth, Shows2;
  }

  lemma ShortTime(s: string, d: DateTime, f: Fields)
    requires IsShort(s, d) && f.hour == -1 && f.usec == -1 && f.sec == -1
    ensures Token(f, s, 9) == Outcome.Scanned(f.(hour := d.hour, min := d.minute), 13)
  {
    Number2(s, 11, d.minute);
    RunOfDigits(s, 9, 10);
    RunOfDigits(s, 11, 13);
    assert At(s, 9) == s[9] && At(s, 10) == ':';
    assert DigitsFrom(s, 13) == 13 && FractionEnd(s, 13) == 13 && BlanksEnd(s, 13) == 13 && At(s, 13) == '\0';
    assert ToLower(At(s, 13)) == '\0';
    assert Meridian(s, 13, d.hour) == d.hour;
    hide DigitsFrom, DigitsEnd, FractionEnd, Meridian, Two, EndsToken, ShowsMonth;
  }

  lemma ShortRuns(s: string, d: DateTime)
    requires IsShort(s, d)
    ensures |s| == 13 && forall j | j == 0 || 2 <= j < 5 || 6 <= j < 8 :: !EndsToken(s, j)
    ensures IsLetter(s[2]) && IsDigit(s[6]) && IsDigit(s[9]) && s[0] != '\0'
  {
    hide Token, EndsToken;
    MonthWordToken(UNKNOWN, s, 2, d.month);
    RunOfDigits(s, 0, 1);
    RunOfDigits(s, 6, 8);
    LetterRuns(s, 2);
  }

  lemma ShortMarks(s: string, d: DateTime)
    requires IsShort(s, d)
    ensures |s| == 13 && s[1] == ' ' && s[5] == ' ' && s[8] == ' '
    ensures EndsToken(s, 1) && EndsToken(s, 5) && EndsToken(s, 8) && EndsToken(s, 13)
    ensures !TimeMark(s, 2) && !TimeMark(s, 6) && !TimeMark(s, 9) && !TimeMark(s, 13)
    ensures At(s, 2) !in " \t,;/()[]-" && At(s, 6) !in " \t,;/()[]-" && At(s, 9) !in " \t,;/()[]-"
    ensures At(s, 13) !in " \t,;/()[]-"
  {
    hide Token, EndsToken, ShowsMonth;
    MonthWordToken(UNKNOWN, s, 2, d.month);
    assert At(s, 2) == s[2] && At(s, 3) == s[3] && At(s, 6) == s[6] && At(s, 9) == s[9] && At(s, 13) == '\0';
    EndsAt(s, 1);
    EndsAt(s, 5);
    EndsAt(s, 8);
    EndsAt(s, 13);
  }

  lemma ShortPlaces(s: string, d: DateTime)
    requires IsShort(s, d)
    ensures forall year :: Onward(year, s, 0) == 2 && Onward(year, s, 2) == 6 && Onward(year, s, 6) == 9
    ensures forall year :: Onward(year, s, 13) == 13
  {
    hide IsShort, EndsToken, TimeMark, Onward;
    ShortRuns(s, d);
    ShortMarks(s, d);
    forall year
      ensures Onward(year, s, 0) == 2 && Onward(year, s, 2) == 6 && Onward(year, s, 6) == 9 && Onward(year, s, 13) == 13
    {
      Next(year, s, 0, 1, 2);
      Next(year, s, 2, 5, 6);
      Next(year, s, 6, 8, 9);
      Next(year, s, 13, 13, 13);
    }
  }

  lemma ShortEnds(s: string, d: DateTime)
    requires IsShort(s, d)
    ensures Trim(s) == s && s != "" && 0 <= d.year < 10_000
  {
    TrimBare(s, "");
    assert "" + s == s;
  }

  // The first number is the day, the second the year of the hundred from 1970 on.
  lemma ShortForm(s: string, d: DateTime)
    requires IsShort(s, d) && d.Valid() && d.second == d.microsecond == 0
    ensures Reads(s, d, GMT)
  {
    hide Token, Onward, IsShort, Scan, Date.Valid, Round, Trim, EndsToken;
    var f := UNKNOWN.(date := d.day);
    var g := f.(month := Some(d.month - 1));
    var h := g.(year := d.year);
    var k := h.(hour := d.hour, min := d.minute);
    ShortEnds(s, d);
    ShortTokens(s, d, f, g, h);
    ShortPlaces(s, d);
    ShortRuns(s, d);
    RoundIs(UNKNOWN, s, 0, f, 0, 2);
    RoundIs(f, s, 2, g, 2, 6);
    RoundIs(g, s, 6, h, 6, 9);
    RoundIs(h, s, 9, k, 13, 13);
    ScanStep(UNKNOWN, s, 0, 0, f, 2);
    ScanStep(f, s, 2, 1, g, 6);
    ScanStep(g, s, 6, 2, h, 9);
    ScanStep(h, s, 9, 3, k, 13);
    ScanEnd(k, s, 4);
    DenotedAs(s, k, d, GMT);
  }

  /* ----- Years of five digits ----- */

  predicate Shows5(s: string, i: nat, v: int) {
    i + 5 <= |s| && v >= 0 && Shows4(s, i, v / 10) && IsDigit(s[i + 4]) && Figure(s[i + 4]) == v % 10
  }

  predicate IsFar(s: string, d: DateTime) {
    && |s| == 21 && Shows2(s, 0, d.day) && s[2] == ' ' && ShowsMonth(s, 3, d.month) && s[6] == ' ' && Shows5(s, 7, d.year)
    && s[12] == ' ' && ShowsClock(s, 13, d.hour, d)
  }

  lemma NumberToken5(f: Fields, s: string, i: nat, v: int)
    requires Shows5(s, i, v) && At(s, i + 5) == ' ' && f.year < 0
    ensures Token(f, s, i) == Outcome.Scanned(f.(year := v), i) && 0 <= v < 100_000
    ensures forall j | i <= j < i + 5 :: !EndsToken(s, j)
  {
    Number4(s, i, v / 10);
    RunOfDigits(s, i, i + 5);
    assert At(s, i + 4) == s[i + 4];
    FiveDigits(s, i, v);
    hide DigitsEnd, Two, Shows4, EndsToken;
  }

  lemma FiveDigits(s: string, i: nat, v: int)
    requires Shows5(s, i, v)
    ensures Two(s, i) * 1000 + Two(s, i + 2) * 10 + Digit(s, i + 4) == v && 0 <= v < 100_000
  {
    Number4(s, i, v / 10);
    hide Two, Shows4;
    assert At(s, i + 4) == s[i + 4];
  }

  lemma FarTokens(s: string, d: DateTime, f: Fields, g: Fields, h: Fields)
    requires IsFar(s, d) && d.Valid()
    requires f == UNKNOWN.(date := d.day) && g == f.(month := Some(d.month - 1)) && h == g.(year := d.year)
    ensures Token(UNKNOWN, s, 0) == Outcome.Scanned(f, 0) && Token(f, s, 3) == Outcome.Scanned(g, 3)
    ensures Token(g, s, 7) == Outcome.Scanned(h, 7) && 0 <= d.year < 100_000
  {
    hide Token, ShowsClock, ShowsMonth, Shows5, Shows2, Date.Valid;
    InMonth(d);
    MonthWordToken(f, s, 3, d.month);
    assert At(s, 2) == ' ' && At(s, 3) == s[3] && At(s, 12) == ' ';
    NumberToken2(UNKNOWN, s, 0, d.day);
    NumberToken5(g, s, 7, d.year);
  }

  lemma FarRuns(s: string, d: DateTime)
    requires IsFar(s, d)
    ensures |s| == 21 && forall j | 0 <= j < 2 || 3 <= j < 6 || 7 <= j < 12 :: !EndsToken(s, j)
    ensures IsLetter(s[3]) && IsDigit(s[7]) && IsDigit(s[13]) && s[0] != '\0'
  {
    hide ShowsClock, Token, EndsToken;
    MonthWordToken(UNKNOWN, s, 3, d.month);
    RunOfDigits(s, 0, 2);
    assert At(s, 12) == ' ';
    NumberToken5(UNKNOWN, s, 7, d.year);
    Number4(s, 7, d.year / 10);
    LetterRuns(s, 3);
    ClockStarts(s, 13, d.hour, d);
  }

  lemma FarMarks(s: string, d: DateTime)
    requires IsFar(s, d)
    ensures |s| == 21 && s[2] == ' ' && s[6] == ' ' && s[12] == ' '
    ensures EndsToken(s, 2) && EndsToken(s, 6) && EndsToken(s, 12) && EndsToken(s, 21)
    ensures !TimeMark(s, 3) && !TimeMark(s, 7) && !TimeMark(s, 13) && !TimeMark(s, 21)
    ensures At(s, 3) !in " \t,;/()[]-" && At(s, 7) !in " \t,;/()[]-" && At(s, 13) !in " \t,;/()[]-"
    ensures At(s, 21) !in " \t,;/()[]-"
  {
    hide Token, EndsToken;
    FarRuns(s, d);
    MonthWordToken(UNKNOWN, s, 3, d.month);
    assert At(s, 3) == s[3] && At(s, 4) == s[4] && At(s, 7) == s[7] && At(s, 13) == s[13] && At(s, 21) == '\0';
    EndsAt(s, 2);
    EndsAt(s, 6);
    EndsAt(s, 12);
    EndsAt(s, 21);
  }

  lemma FarPlaces(s: string, d: DateTime)
    requires IsFar(s, d)
    ensures forall year :: Onward(year, s, 0) == 3 && Onward(year, s, 3) == 7 && Onward(year, s, 7) == 13
    ensures forall year :: Onward(year, s, 21) == 21
  {
    hide IsFar, EndsToken, TimeMark, Onward;
    FarRuns(s, d);
    FarMarks(s, d);
    forall year
      ensures Onward(year, s, 0) == 3 && Onward(year, s, 3) == 7 && Onward(year, s, 7) == 13 && Onward(year, s, 21) == 21
    {
      Next(year, s, 0, 2, 3);
      Next(year, s, 3, 6, 7);
      Next(year, s, 7, 12, 13);
      Next(year, s, 21, 21, 21);
    }
  }

  lemma FarEnds(s: string, d: DateTime)
    requires IsFar(s, d)
    ensures |s| == 21 && Trim(s) == s && s != "" && ShowsClock(s, 13, d.hour, d)
  {
    TrimBare(s, "");
    assert "" + s == s;
  }

  lemma FarScanned(s: string, d: DateTime)
    requires IsFar(s, d) && d.Valid()
    ensures Scan(UNKNOWN, s, 0, 0) == Some(HeadFields(d)) && 0 <= d.year < 100_000
  {
    hide Token, Onward, IsFar, Scan, Date.Valid, Round, EndsToken, ShowsClock;
    var f := UNKNOWN.(date := d.day);
    var g := f.(month := Some(d.month - 1));
    var h := g.(year := d.year);
    FarEnds(s, d);
    FarTokens(s, d, f, g, h);
    PlainTime(s, 13, d, h);
    FarPlaces(s, d);
    FarRuns(s, d);
    RoundIs(UNKNOWN, s, 0, f, 0, 3);
    RoundIs(f, s, 3, g, 3, 7);
    RoundIs(g, s, 7, h, 7, 13);
    RoundIs(h, s, 13, HeadFields(d), 21, 21);
    ScanStep(UNKNOWN, s, 0, 0, f, 3);
    ScanStep(f, s, 3, 1, g, 7);
    ScanStep(g, s, 7, 2, h, 13);
    ScanStep(h, s, 13, 3, HeadFields(d), 21);
    ScanEnd(HeadFields(d), s, 4);
  }

  // A text DD Mmm YYYYY HH:MM:SS is read if and only if its year fits 16 bits, and
  // then denotes its date and time.
  lemma FarForm(s: string, d: DateTime)
    requires IsFar(s, d) && d.Valid() && d.microsecond == 0
    ensures if d.year <= 32767 then Reads(s, d, GMT) else DateHeader.Denoted(s).None?
  {
    hide IsFar, Scan, Date.Valid, Trim;
    FarScanned(s, d);
    FarEnds(s, d);
    if d.year <= 32767 {
      DenotedAs(s, HeadFields(d), d, GMT);
    }
  }

  predicate IsFarSlashed(s: string, d: DateTime) {
    |s| == 11 && Shows2(s, 0, d.month) && s[2] == '/' && Shows2(s, 3, d.day) && s[5] == '/' && Shows5(s, 6, d.year)
  }

  lemma FarSlashedDate(s: string, d: DateTime)
    requires IsFarSlashed(s, d) && d.Valid() && d.year >= 100
    ensures Token(UNKNOWN, s, 0) ==
            Outcome.Scanned(UNKNOWN.(year := d.year, month := Some(d.month - 1), date := d.day), 11)
    ensures 0 <= d.year < 100_000
  {
    InMonth(d);
    Number2(s, 0, d.month);
    Number2(s, 3, d.day);
    Number4(s, 6, d.year / 10);
    RunOfDigits(s, 0, 2);
    assert Long(s, 0) == Some((d.month, 2));
    assert Part(s, 3) == (d.day, 5);
    assert Long(s, 6) == Some((d.year / 10, 10));
    assert At(s, 10) == s[10] && At(s, 11) == '\0' && !TimeMark(s, 11);
    hide Long, Part, Two, DigitsEnd, Date.Valid, Shows4;
    assert Numbers3(s, 0) == Some((d.month, d.day, d.year, 11));
  }

  lemma FarSlashedEnds(s: string, d: DateTime)
    requires IsFarSlashed(s, d)
    ensures |s| == 11 && Trim(s) == s && s != "" && s[0] != '\0'
    ensures forall year :: Onward(year, s, 11) == 11
  {
    TrimBare(s, "");
    assert "" + s == s && At(s, 11) == '\0';
    EndsAt(s, 11);
    assert !TimeMark(s, 11);
    hide IsFarSlashed, EndsToken, TimeMark, Onward, Trim;
    forall year
      ensures Onward(year, s, 11) == 11
    {
      Next(year, s, 11, 11, 11);
    }
  }

  // So is a text MM/DD/YYYYY, which denotes the first moment of its date.
  lemma FarSlashedForm(s: string, d: DateTime)
    requires IsFarSlashed(s, d) && d.Valid() && d.year >= 100
    requires d.hour == d.minute == d.second == d.microsecond == 0
    ensures if d.year <= 32767 then Reads(s, d, GMT) else DateHeader.Denoted(s).None?
  {
    hide Token, Onward, IsFarSlashed, Scan, Date.Valid, Round, Trim;
    var f := UNKNOWN.(year := d.year, month := Some(d.month - 1), date := d.day);
    FarSlashedDate(s, d);
    FarSlashedEnds(s, d);
    RoundIs(UNKNOWN, s, 0, f, 11, 11);
    ScanStep(UNKNOWN, s, 0, 0, f, 11);
    ScanEnd(f, s, 1);
    if d.year <= 32767 {
      DenotedAs(s, f, d, GMT);
    }
  }
}
