/** c_src/utils.cc: text to a 32-bit int, base ten. */
module Numbers {
  import opened Machine

  predicate IsDigit(c: char) {
    '0' <= c <= '9'
  }

  function DigitOf(c: char): (d: int)
    requires IsDigit(c)
    ensures 0 <= d <= 9
  {
    c as int - '0' as int
  }

  // `isspace` in the C locale.
  predicate IsSpace(c: char) {
    c == ' ' || '\t' <= c <= '\r'
  }

  // The number a run of digits denotes.
  function Val(t: string): (v: nat)
    requires forall i | 0 <= i < |t| :: IsDigit(t[i])
  {
    if t == "" then 0 else 10 * Val(t[..|t| - 1]) + DigitOf(t[|t| - 1])
  }

  lemma {:induction false} ValGrows(t: string, n: nat)
    requires n <= |t| && forall i | 0 <= i < |t| :: IsDigit(t[i])
    ensures Val(t[..n]) <= Val(t)
    decreases |t|
  {
    if n < |t| {
      ValGrows(t[..|t| - 1], n);
      assert t[..|t| - 1][..n] == t[..n];
    } else {
      assert t[..n] == t;
    }
  }

  // Where the digits that start at `i` end.
  function DigitsEnd(s: string, i: nat): (e: nat)
    requires i <= |s|
    ensures i <= e <= |s| && (e < |s| ==> !IsDigit(s[e]))
    ensures forall j | i <= j < e :: IsDigit(s[j])
    decreases |s| - i
  {
    if i == |s| || !IsDigit(s[i]) then i else DigitsEnd(s, i + 1)
  }

  function SpacesEnd(s: string, i: nat): (e: nat)
    requires i <= |s|
    ensures i <= e <= |s| && (e < |s| ==> !IsSpace(s[e]))
    decreases |s| - i
  {
    if i == |s| || !IsSpace(s[i]) then i else SpacesEnd(s, i + 1)
  }

  function Clamp(v: int): int {
    if v > INT32_MAX then INT32_MAX else if v < INT32_MIN then INT32_MIN else v
  }

  // The magnitude of the digits from `i` on.
  function Magnitude(s: string, i: nat): nat
    requires i <= |s|
  {
    Val(s[i..DigitsEnd(s, i)])
  }

  function Signed(negative: bool, v: nat): int {
    if negative then 0 - v else v
  }

  // Whether one more digit still fits.
  predicate Room(output: int32, digit: int, negative: bool)
    requires 0 <= digit <= 9
  {
    if negative then
      !(output < TruncDiv(INT32_MIN, 10)
        || (output == TruncDiv(INT32_MIN, 10) && digit > 0 - TruncMod(INT32_MIN, 10)))
    else
      !(output > TruncDiv(INT32_MAX, 10)
        || (output == TruncDiv(INT32_MAX, 10) && digit > TruncMod(INT32_MAX, 10)))
  }

  // The bound check is exact: it fails only when the next value leaves 32 bits.
  lemma RoomIsExact(output: int32, digit: int, negative: bool)
    requires 0 <= digit <= 9 && (if negative then output <= 0 else output >= 0)
    ensures Room(output, digit, negative) <==> FitsInt32(output * 10 + Signed(negative, digit))
    ensures Room(output, digit, negative) ==> FitsInt32(output * 10)
  {
  }

  // `Base<Sign>::Invoke`: the typed accumulator shows that nothing overflows.
  method Accumulate(s: string, begin: nat, negative: bool) returns (ok: bool, output: int32)
    requires begin <= |s|
    ensures output == Clamp(Signed(negative, Magnitude(s, begin)))
    ensures ok <==> begin < |s| && DigitsEnd(s, begin) == |s| && FitsInt32(Signed(negative, Magnitude(s, begin)))
  {
    output := 0;
    ghost var e := DigitsEnd(s, begin);
    if begin == |s| {
      assert s[begin..e] == "";
      return false, output;
    }
    var current := begin;
    assert s[begin..begin] == "";
    while current != |s|
      invariant begin <= current <= e
      invariant output == Signed(negative, Val(s[begin..current]))
    {
      var c := s[current];
      if !IsDigit(c) {
        assert current == e;
        return false, output;
      }
      var digit: int := DigitOf(c);
      OneDigit(s, begin, current);
      RoomIsExact(output, digit, negative);
      if current != begin {
        if !Room(output, digit, negative) {
          assert s[begin..e][..current + 1 - begin] == s[begin..current + 1];
          ValGrows(s[begin..e], current + 1 - begin);
          output := if negative then INT32_MIN else INT32_MAX;
          return false, output;
        }
        output := output * 10;
      }
      output := if negative then output - digit else output + digit;
      current := current + 1;
    }
    return true, output;
  }

  lemma OneDigit(s: string, begin: nat, current: nat)
    requires begin <= |s| && begin <= current < DigitsEnd(s, begin)
    ensures Val(s[begin..current + 1]) == 10 * Val(s[begin..current]) + DigitOf(s[current])
  {
    var t := s[begin..current + 1];
    assert t[..|t| - 1] == s[begin..current];
  }

  // Where the digits of the text would start, and the sign before them.
  function Start(s: string): (i: nat)
    ensures i <= |s|
  {
    var b := SpacesEnd(s, 0);
    if b < |s| && (s[b] == '-' || s[b] == '+') then b + 1 else b
  }

  predicate Negative(s: string) {
    var b := SpacesEnd(s, 0);
    b < |s| && s[b] == '-'
  }

  // The integer the text denotes, read as far as its digits go.
  function Denoted(s: string): int {
    Signed(Negative(s), Magnitude(s, Start(s)))
  }

  // An optional sign and at least one digit, and nothing else.
  predicate Numeral(s: string) {
    SpacesEnd(s, 0) == 0 && Start(s) < |s| && DigitsEnd(s, Start(s)) == |s|
  }

  // True exactly for a numeral that fits; out of range the result saturates.
  method StringToInt(s: string) returns (ok: bool, output: int32)
    ensures ok <==> Numeral(s) && FitsInt32(Denoted(s))
    ensures output == Clamp(Denoted(s))
  {
    var valid := true;
    var begin := 0;
    while begin != |s| && IsSpace(s[begin])
      invariant 0 <= begin <= |s|
      invariant SpacesEnd(s, begin) == SpacesEnd(s, 0)
      invariant valid <==> begin == 0
      invariant begin == 0 || SpacesEnd(s, 0) > 0
    {
      valid := false;
      begin := begin + 1;
    }
    if begin != |s| && s[begin] == '-' {
      ok, output := Accumulate(s, begin + 1, true);
    } else {
      if begin != |s| && s[begin] == '+' {
        begin := begin + 1;
      }
      ok, output := Accumulate(s, begin, false);
    }
    ok := valid && ok;
  }

  // A natural number in decimal.
  function Decimal(n: nat): string {
    if n < 10 then [('0' as int + n) as char] else Decimal(n / 10) + [('0' as int + n % 10) as char]
  }

  lemma {:induction false} DecimalIsRead(n: nat)
    ensures Decimal(n) != "" && (forall i | 0 <= i < |Decimal(n)| :: IsDigit(Decimal(n)[i])) && Val(Decimal(n)) == n
  {
    if n < 10 {
      assert Decimal(n)[..0] == "";
    } else {
      DecimalIsRead(n / 10);
      var t := Decimal(n);
      assert t[..|t| - 1] == Decimal(n / 10);
    }
  }

  lemma PrintedIntegerIsRead(v: int32)
    ensures var s := if v < 0 then "-" + Decimal(0 - v) else Decimal(v);
            Numeral(s) && Denoted(s) == v
  {
    var n: nat := if v < 0 then 0 - v else v;
    DecimalIsRead(n);
    hide Decimal, Val;
    if v < 0 {
      DigitsAfter("-", Decimal(n));
    } else {
      DigitsAfter("", Decimal(n));
      assert "" + Decimal(n) == Decimal(n);
    }
  }

  lemma DigitsAfter(sign: string, d: string)
    requires d != "" && (forall i | 0 <= i < |d| :: IsDigit(d[i])) && (sign == "" || sign == "-")
    ensures Numeral(sign + d) && Denoted(sign + d) == Signed(sign == "-", Val(d))
  {
    var s := sign + d;
    SignRead(sign, d);
    hide Val, SpacesEnd, Start, Negative, Magnitude, DigitsEnd;
    AllDigits(s, |sign|);
    MagnitudeOf(s, |sign|, d);
  }

  lemma MagnitudeOf(s: string, k: nat, d: string)
    requires k <= |s| && DigitsEnd(s, k) == |s| && s[k..] == d && forall i | 0 <= i < |d| :: IsDigit(d[i])
    ensures Magnitude(s, k) == Val(d)
  {
    hide Val, DigitsEnd;
    assert s[k..|s|] == d;
  }

  lemma SignRead(sign: string, d: string)
    requires d != "" && (forall i | 0 <= i < |d| :: IsDigit(d[i])) && (sign == "" || sign == "-")
    ensures var s := sign + d;
            && SpacesEnd(s, 0) == 0 && Start(s) == |sign| && (Negative(s) <==> sign == "-")
            && s[|sign|..] == d && forall j | |sign| <= j < |s| :: IsDigit(s[j])
  {
    var s := sign + d;
    assert forall j | |sign| <= j < |s| :: s[j] == d[j - |sign|];
    assert s[0] == if sign == "-" then '-' else d[0];
  }

  lemma {:induction false} AllDigits(s: string, i: nat)
    requires i <= |s| && forall j | i <= j < |s| :: IsDigit(s[j])
    ensures DigitsEnd(s, i) == |s|
    decreases |s| - i
  {
    if i < |s| {
      AllDigits(s, i + 1);
    }
  }
}
