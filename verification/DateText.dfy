/**
 The scanner of PR_ParseTimeStringToExplodedTime in c_src/prtime.cc: words, signed
 zone offsets, clock times, dates with slashes or dashes, and plain numbers.
 */
module DateText {
  import opened Wrappers
  import opened Numbers
  import opened Quoting

  // -1 where nothing was found; a zone is minutes off GMT, and of daylight saving.
  // A month written as 0 is found, and is -1. An offset of minus one minute passes
  // for none.
  datatype Fields = Fields(
    dotw: int, month: Option<int>, zone: Option<(int, int)>, offset: int,
    date: int, year: int, hour: int, min: int, sec: int, usec: int)

  const UNKNOWN := Fields(-1, None, None, -1, -1, -1, -1, -1, -1, -1)

  // C strings end with NUL.
  function At(s: string, i: nat): char {
    if i < |s| then s[i] else '\0'
  }

  function Word(s: string, i: nat): string {
    [ToLower(At(s, i)), ToLower(At(s, i + 1)), ToLower(At(s, i + 2))]
  }

  const MONTHS: seq<string> :=
    ["jan", "feb", "mar", "apr", "may", "jun", "jul", "aug", "sep", "oct", "nov", "dec"]

  const DAYS: seq<string> := ["sun", "mon", "tue", "wed", "thu", "fri", "sat"]

  function Index(names: seq<string>, w: string): (k: int)
    ensures -1 <= k < |names| && (k >= 0 ==> names[k] == w) && (k < 0 ==> w !in names)
  {
    if names == [] then -1
    else if names[0] == w then 0
    else
      var k := Index(names[1..], w);
      if k < 0 then -1 else k + 1
  }

  function ZoneOf(w: string): Option<(int, int)> {
    if w == "pst" then Some((-480, 0)) else if w == "pdt" then Some((-480, 60))
    else if w == "mst" then Some((-420, 0)) else if w == "mdt" then Some((-420, 60))
    else if w == "cst" then Some((-360, 0)) else if w == "cdt" then Some((-360, 60))
    else if w == "est" then Some((-300, 0)) else if w == "edt" then Some((-300, 60))
    else if w == "ast" then Some((-240, 0)) else if w == "nst" then Some((-210, 0))
    else if w == "gmt" then Some((0, 0)) else if w == "bst" then Some((0, 60))
    else if w == "met" then Some((60, 0)) else if w == "eet" then Some((120, 0))
    else if w == "jst" then Some((540, 0)) else None
  }

  predicate IsLetter(c: char) {
    'a' <= c <= 'z' || 'A' <= c <= 'Z'
  }

  // The first month, weekday and zone named are the ones that count.
  function WordToken(f: Fields, s: string, i: nat): Fields {
    var w := Word(s, i);
    var month, dotw := Index(MONTHS, w), Index(DAYS, w);
    if month >= 0 then (if f.month.None? then f.(month := Some(month)) else f)
    else if dotw >= 0 then (if f.dotw < 0 then f.(dotw := dotw) else f)
    else if f.zone.Some? then f
    else if ZoneOf(w).Some? then f.(zone := ZoneOf(w))
    else if w[0] == 'u' && w[1] == 't' && !IsLetter(At(s, i + 2)) then f.(zone := Some((0, 0)))
    else f
  }

  function Two(s: string, i: nat): int {
    (At(s, i) as int - '0' as int) * 10 + (At(s, i + 1) as int - '0' as int)
  }

  // One or two digits from `i` up to `end`.
  function Short(s: string, i: nat, end: nat): int {
    if end - i == 2 then Two(s, i) else At(s, i) as int - '0' as int
  }

  function Digit(s: string, i: nat): int {
    At(s, i) as int - '0' as int
  }

  // What a token yields, and where the scanner stands then.
  datatype Outcome = Scanned(fields: Fields, rest: nat)

  function DigitsFrom(s: string, i: nat): (e: nat)
    ensures i <= e && (i < |s| ==> e <= |s|)
  {
    if i <= |s| then DigitsEnd(s, i) else i
  }

  function BlanksEnd(s: string, i: nat): (e: nat)
    ensures i <= e
    decreases |s| - i
  {
    if i < |s| && (s[i] == ' ' || s[i] == '\t') then BlanksEnd(s, i + 1) else i
  }

  // AM or PM behind a clock time.
  function Meridian(s: string, i: nat, hour: int): int {
    var j := BlanksEnd(s, i);
    var c, m := ToLower(At(s, j)), ToLower(At(s, j + 1));
    if c == 'p' && m == 'm' then (if hour == 12 then 12 else hour + 12)
    else if hour == 12 && c == 'a' && m == 'm' then 0
    else hour
  }

  // A digit behind the point, or 0 behind the last one.
  function Place(s: string, i: nat, end: nat): int {
    if i < end then Digit(s, i) else 0
  }

  // Microseconds: six digits count.
  function Micros(s: string, i: nat, end: nat): int {
    Place(s, i, end) * 100_000 + Place(s, i + 1, end) * 10_000 + Place(s, i + 2, end) * 1_000
    + Place(s, i + 3, end) * 100 + Place(s, i + 4, end) * 10 + Place(s, i + 5, end)
  }

  // Digits up to `end`, where a colon stands.
  function ClockToken(f: Fields, s: string, i: nat, end: nat): (r: Outcome)
    requires i < end < |s|
    ensures i <= r.rest
  {
    if (f.hour >= 0 && f.min >= 0) || end - i > 2 then Scanned(f, i)
    else
      var hour := Short(s, i, end);
      var m := end + 1;
      var mEnd := DigitsFrom(s, m);
      if mEnd == m || mEnd - m > 2 then Scanned(f, m)
      else
        var min := Short(s, m, mEnd);
        var n := if At(s, mEnd) == ':' then mEnd + 1 else mEnd;
        var nEnd := DigitsFrom(s, n);
        if nEnd - n > 2 then Scanned(f, n)
        else
          var sec := if nEnd == n then -1 else Short(s, n, nEnd);
          Scanned(ClockFields(f, s, hour, min, sec, nEnd), FractionEnd(s, nEnd))
  }

  function FractionEnd(s: string, i: nat): (e: nat)
    ensures i <= e
  {
    if At(s, i) == '.' then DigitsFrom(s, i + 1) else i
  }

  // Behind the seconds: a fraction, then Z, or AM or PM.
  function ClockFields(f: Fields, s: string, hour: int, min: int, sec: int, i: nat): Fields {
    var e := FractionEnd(s, i);
    var usec := if At(s, i) == '.' then Micros(s, i + 1, e) else -1;
    if At(s, e) == 'Z' then f.(zone := Some((0, 0)), hour := hour, min := min, sec := sec, usec := usec)
    else f.(hour := if hour <= 12 then Meridian(s, e, hour) else hour, min := min, sec := sec, usec := usec)
  }

  // One or two digits, and where they end.
  function Part(s: string, i: nat): (r: (int, nat))
    ensures i < r.1
  {
    if IsDigit(At(s, i + 1)) then (Two(s, i), i + 2) else (Digit(s, i), i + 1)
  }

  // One, two or four digits.
  function Long(s: string, i: nat): (r: Option<(int, nat)>)
    ensures r.Some? ==> i < r.value.1
  {
    if !IsDigit(At(s, i + 1)) || !IsDigit(At(s, i + 2)) then Some(Part(s, i))
    else if !IsDigit(At(s, i + 3)) then None
    else Some((Two(s, i) * 100 + Two(s, i + 2), i + 4))
  }

  predicate Slash(s: string, i: nat) {
    At(s, i) == '/' || At(s, i) == '-'
  }

  // Three numbers with slashes or dashes between them, and where they end. The last
  // may have five digits.
  function Numbers3(s: string, i: nat): (r: Option<(int, int, int, nat)>)
    ensures r.Some? ==> i < r.value.3
  {
    var a := Long(s, i);
    if a.None? || !Slash(s, a.value.1) || !IsDigit(At(s, a.value.1 + 1)) then None
    else
      var b := Part(s, a.value.1 + 1);
      if !Slash(s, b.1) || !IsDigit(At(s, b.1 + 1)) then None
      else
        var c := Long(s, b.1 + 1);
        if c.None? then None
        else
          var e := c.value.1;
          var five := e == b.1 + 5 && IsDigit(At(s, e));
          var (n, end) := if five then (c.value.0 * 10 + Digit(s, e), e + 1) else c.value;
          if (IsDigit(At(s, end)) || IsLetter(At(s, end))) && !TimeMark(s, end) then None
          else Some((a.value.0, b.0, n, end))
  }

  function Century(n: int): int {
    if n < 70 then n + 2000 else if n < 100 then n + 1900 else n
  }

  // Year, month and day, day and month and year, or month and day and year.
  function DateToken(f: Fields, s: string, i: nat): (r: Outcome)
    ensures i <= r.rest
  {
    var ns := Numbers3(s, i);
    if f.month.Some? || ns.None? then Scanned(f, i)
    else
      var (a, b, c, end) := ns.value;
      if a > 31 || a == 0 then
        if b > 12 || c > 31 then Scanned(f, i)
        else Scanned(f.(year := Century(a), month := Some(b - 1), date := c), end)
      else if a > 12 && b > 12 then Scanned(f, end)
      else if a > 12 then Scanned(f.(date := a, month := Some(b - 1), year := Century(c)), end)
      else Scanned(f.(month := Some(a - 1), date := b, year := Century(c)), end)
  }

  // A zone offset in hours, or in hours and minutes; only the first one counts,
  // and none behind a zone other than GMT.
  function SignToken(f: Fields, s: string, i: nat): (r: Outcome)
    ensures r.rest == i + 1
  {
    var n := DigitsFrom(s, i + 1) - (i + 1);
    if f.offset != -1 || (f.zone.Some? && f.zone != Some((0, 0))) || n !in {1, 2, 4} then Scanned(f, i + 1)
    else
      var minutes :=
        if n == 4 then Two(s, i + 1) * 60 + Two(s, i + 3)
        else if n == 2 then Two(s, i + 1) * 60
        else Digit(s, i + 1) * 60;
      Scanned(f.(offset := if At(s, i) == '+' then minutes else -minutes, zone := Some((0, 0))), i + 1)
  }

  // A plain number: by its length a day of the month or a year.
  function PlainToken(f: Fields, s: string, i: nat, end: nat): Fields {
    var n := end - i;
    if n == 5 && f.year < 0 then f.(year := Two(s, i) * 1000 + Two(s, i + 2) * 10 + At(s, i + 4) as int - '0' as int)
    else if n == 4 && f.year < 0 then f.(year := Two(s, i) * 100 + Two(s, i + 2))
    else if n == 2 then
      var v := Two(s, i);
      if f.date < 0 && v < 32 then f.(date := v)
      else if f.year < 0 then f.(year := if v < 70 then 2000 + v else 1900 + v)
      else f
    else if n == 1 && f.date < 0 then f.(date := At(s, i) as int - '0' as int)
    else f
  }

  function NumberToken(f: Fields, s: string, i: nat): (r: Outcome)
    requires i < |s| && IsDigit(s[i])
    ensures i <= r.rest
  {
    var end := DigitsEnd(s, i);
    var c := At(s, end);
    if c == ':' then ClockToken(f, s, i, end)
    else if (c == '/' || c == '-') && IsDigit(At(s, end + 1)) then DateToken(f, s, i)
    else if IsLetter(c) then Scanned(f, i)
    else Scanned(PlainToken(f, s, i, end), i)
  }

  function Token(f: Fields, s: string, i: nat): (r: Outcome)
    requires i < |s|
    ensures i <= r.rest && (s[i] == '+' || s[i] == '-' ==> i < r.rest)
  {
    if s[i] == '+' || s[i] == '-' then SignToken(f, s, i)
    else if IsDigit(s[i]) then NumberToken(f, s, i)
    else Scanned(WordToken(f, s, i), i)
  }

  /* ----- From token to token ----- */

  predicate TimeMark(s: string, i: nat) {
    At(s, i) == 'T' && IsDigit(At(s, i + 1))
  }

  predicate EndsToken(s: string, i: nat) {
    At(s, i) == '\0' || At(s, i) in " \t,;-+/()[]" || TimeMark(s, i)
  }

  function TokenEnd(s: string, i: nat): (e: nat)
    ensures i <= e && EndsToken(s, e)
    ensures forall j | i <= j < e :: !EndsToken(s, j)
    decreases |s| - i
  {
    if EndsToken(s, i) then i else TokenEnd(s, i + 1)
  }

  function GapEnd(s: string, i: nat): (e: nat)
    ensures i <= e && At(s, e) !in " \t,;/()[]"
    ensures forall j | i <= j < e :: At(s, j) in " \t,;/()[]"
    decreases |s| - i
  {
    if i < |s| && s[i] in " \t,;/()[]" then GapEnd(s, i + 1) else i
  }

  // The gap with its dashes: one behind a letter while no year is known, or one
  // without a digit behind it.
  function DashEnd(year: int, s: string, i: nat): (e: nat)
    ensures i <= e && GapEnd(s, i) <= e
    decreases |s| - i
  {
    var g := GapEnd(s, i);
    if At(s, g) == '-' && ((g > 0 && IsLetter(At(s, g - 1)) && year < 0) || !IsDigit(At(s, g + 1))) then
      DashEnd(year, s, g + 1)
    else g
  }

  function Onward(year: int, s: string, i: nat): (e: nat)
    ensures i <= e
  {
    var g := DashEnd(year, s, TokenEnd(s, i));
    if TimeMark(s, g) then g + 1 else g
  }

  lemma OnwardMoves(year: int, s: string, i: nat)
    requires i < |s| && s[i] != '\0' && s[i] != '+' && s[i] != '-'
    ensures Onward(year, s, i) > i
  {
    if EndsToken(s, i) && s[i] in " \t,;/()[]" {
      assert GapEnd(s, i) > i;
    }
  }

  // One round of the loop.
  function Round(f: Fields, s: string, i: nat): (r: Outcome)
    requires i < |s| && s[i] != '\0'
    ensures r.rest > i
  {
    var (g, rest) := (Token(f, s, i).fields, Token(f, s, i).rest);
    if s[i] != '+' && s[i] != '-' then
      OnwardMoves(g.year, s, i);
      Scanned(g, Onward(g.year, s, rest))
    else Scanned(g, Onward(g.year, s, rest))
  }

  // The whole text, at most 1001 rounds.
  function Scan(f: Fields, s: string, i: nat, iterations: nat): Option<Fields>
    decreases |s| - i
  {
    if i >= |s| || s[i] == '\0' then Some(f)
    else if iterations > 1000 then None
    else
      var r := Round(f, s, i);
      Scan(r.fields, s, r.rest, iterations + 1)
  }

  method ParseTimeString(s: string) returns (r: Option<Fields>)
    ensures r == Scan(UNKNOWN, s, 0, 0)
  {
    var f := UNKNOWN;
    var rest := 0;
    var iterations := 0;
    while rest < |s| && s[rest] != '\0'
      invariant Scan(f, s, rest, iterations) == Scan(UNKNOWN, s, 0, 0)
      decreases |s| - rest
    {
      if iterations > 1000 {
        return None;
      }
      iterations := iterations + 1;
      var r := Round(f, s, rest);
      f, rest := r.fields, r.rest;
    }
    return Some(f);
  }

  /* ----- What can be found ----- */

  // Ranges of the fields once set, wide enough for the machine's integers.
  predicate Sane(f: Fields) {
    && -1 <= f.dotw < 7 && (f.month.Some? ==> -1 <= f.month.value < 12) && -1 <= f.date < 100
    && -1 <= f.year < 100_000 && -1 <= f.hour < 100 && -1 <= f.min < 100 && -1 <= f.sec < 100
    && -1 <= f.usec < 1_000_000 && -6039 <= f.offset <= 6039
    && (f.zone.Some? ==> -720 <= f.zone.value.0 <= 720 && 0 <= f.zone.value.1 <= 60)
  }

  lemma WordIsSane(f: Fields, s: string, i: nat)
    requires Sane(f)
    ensures Sane(WordToken(f, s, i))
  {
    hide Index, Word;
  }

  lemma TwoIsSmall(s: string, i: nat)
    requires IsDigit(At(s, i)) && IsDigit(At(s, i + 1))
    ensures 0 <= Two(s, i) < 100
  {
  }

  lemma ShortIsSmall(s: string, i: nat, end: nat)
    requires i < end <= i + 2 && forall j | i <= j < end :: IsDigit(At(s, j))
    ensures 0 <= Short(s, i, end) < 100
  {
    if end == i + 2 {
      TwoIsSmall(s, i);
    }
  }

  lemma PlainIsSane(f: Fields, s: string, i: nat, end: nat)
    requires Sane(f) && i < end && forall j | i <= j < end :: IsDigit(At(s, j))
    ensures Sane(PlainToken(f, s, i, end))
  {
    hide At, Two;
    if end - i >= 2 {
      TwoIsSmall(s, i);
    }
    if end - i >= 4 {
      TwoIsSmall(s, i + 2);
    }
  }

  lemma DigitsAreDigits(s: string, i: nat)
    ensures forall j | i <= j < DigitsFrom(s, i) :: IsDigit(At(s, j))
  {
  }

  lemma DigitIsSmall(s: string, i: nat)
    requires IsDigit(At(s, i))
    ensures 0 <= Digit(s, i) < 10
  {
  }

  lemma MicrosAreSmall(s: string, i: nat, end: nat)
    requires forall j | i <= j < end :: IsDigit(At(s, j))
    ensures 0 <= Micros(s, i, end) < 1_000_000
  {
    forall j | i <= j < i + 6
      ensures 0 <= Place(s, j, end) < 10
    {
      if j < end {
        DigitIsSmall(s, j);
      }
    }
    hide Place;
  }

  lemma ClockFieldsAreSane(f: Fields, s: string, hour: int, min: int, sec: int, i: nat)
    requires Sane(f) && 0 <= hour < 100 && 0 <= min < 100 && -1 <= sec < 100
    ensures Sane(ClockFields(f, s, hour, min, sec, i))
  {
    hide At, Micros, BlanksEnd, DigitsFrom;
    DigitsAreDigits(s, i + 1);
    MicrosAreSmall(s, i + 1, DigitsFrom(s, i + 1));
  }

  lemma ClockIsSane(f: Fields, s: string, i: nat, end: nat)
    requires Sane(f) && i < end < |s| && forall j | i <= j < end :: IsDigit(At(s, j))
    ensures Sane(ClockToken(f, s, i, end).fields)
  {
    hide At, Short, DigitsFrom, ClockFields, Sane;
    var m := end + 1;
    var mEnd := DigitsFrom(s, m);
    var n := if At(s, mEnd) == ':' then mEnd + 1 else mEnd;
    var nEnd := DigitsFrom(s, n);
    DigitsAreDigits(s, m);
    DigitsAreDigits(s, n);
    if !(f.hour >= 0 && f.min >= 0) && end - i <= 2 && mEnd != m && mEnd - m <= 2 && nEnd - n <= 2 {
      ShortIsSmall(s, i, end);
      ShortIsSmall(s, m, mEnd);
      var sec := if nEnd == n then -1 else Short(s, n, nEnd);
      if nEnd != n {
        ShortIsSmall(s, n, nEnd);
      }
      ClockFieldsAreSane(f, s, Short(s, i, end), Short(s, m, mEnd), sec, nEnd);
    }
  }

  lemma PartIsSmall(s: string, i: nat)
    requires IsDigit(At(s, i))
    ensures 0 <= Part(s, i).0 < 100
  {
    DigitIsSmall(s, i);
    if IsDigit(At(s, i + 1)) {
      TwoIsSmall(s, i);
    }
  }

  lemma LongIsSmall(s: string, i: nat)
    requires IsDigit(At(s, i))
    ensures Long(s, i).Some? ==> 0 <= Long(s, i).value.0 < 10_000
  {
    hide At, Part, Two;
    PartIsSmall(s, i);
    if IsDigit(At(s, i + 1)) {
      TwoIsSmall(s, i);
      if IsDigit(At(s, i + 2)) && IsDigit(At(s, i + 3)) {
        TwoIsSmall(s, i + 2);
      }
    }
  }

  lemma NumbersAreSmall(s: string, i: nat)
    requires IsDigit(At(s, i))
    ensures Numbers3(s, i).Some? ==>
              var (a, b, c, _) := Numbers3(s, i).value; 0 <= a < 10_000 && 0 <= b < 100 && 0 <= c < 100_000
  {
    hide At, Part, Long, Digit, TimeMark;
    if Numbers3(s, i).Some? {
      LongIsSmall(s, i);
      var m := Long(s, i).value.1 + 1;
      PartIsSmall(s, m);
      var n := Part(s, m).1 + 1;
      LongIsSmall(s, n);
      var e := Long(s, n).value.1;
      if IsDigit(At(s, e)) {
        DigitIsSmall(s, e);
      }
    }
  }

  lemma DateIsSane(f: Fields, s: string, i: nat)
    requires Sane(f) && IsDigit(At(s, i))
    ensures Sane(DateToken(f, s, i).fields)
  {
    hide At, Numbers3;
    NumbersAreSmall(s, i);
  }

  lemma SignIsSane(f: Fields, s: string, i: nat)
    requires Sane(f)
    ensures Sane(SignToken(f, s, i).fields)
  {
    hide At, DigitsFrom, Two, Digit;
    DigitsAreDigits(s, i + 1);
    var n := DigitsFrom(s, i + 1) - (i + 1);
    if n >= 1 {
      DigitIsSmall(s, i + 1);
    }
    if n >= 2 {
      TwoIsSmall(s, i + 1);
    }
    if n >= 4 {
      TwoIsSmall(s, i + 3);
    }
  }

  lemma TokenIsSane(f: Fields, s: string, i: nat)
    requires Sane(f) && i < |s|
    ensures Sane(Token(f, s, i).fields)
  {
    hide Sane, WordToken, PlainToken, ClockToken, DateToken, SignToken;
    if s[i] == '+' || s[i] == '-' {
      SignIsSane(f, s, i);
    } else if IsDigit(s[i]) {
      var end := DigitsEnd(s, i);
      assert forall j | i <= j < end :: IsDigit(At(s, j));
      PlainIsSane(f, s, i, end);
      DateIsSane(f, s, i);
      if At(s, end) == ':' {
        ClockIsSane(f, s, i, end);
      }
    } else {
      WordIsSane(f, s, i);
    }
  }

  lemma {:induction false} ScanIsSane(f: Fields, s: string, i: nat, iterations: nat)
    requires Sane(f)
    ensures Scan(f, s, i, iterations).Some? ==> Sane(Scan(f, s, i, iterations).value)
    decreases |s| - i
  {
    hide Sane, Token, Onward;
    if i < |s| && s[i] != '\0' {
      TokenIsSane(f, s, i);
      var r := Round(f, s, i);
      ScanIsSane(r.fields, s, r.rest, iterations + 1);
    }
  }
}
