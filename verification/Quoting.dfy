/** c_src/utils.cc: trimming and unquoting byte ranges. Bytes are `char`s. */
module Quoting {

  // `strchr` also finds the terminating NUL of its first argument.
  predicate IsLWS(c: char) {
    c == ' ' || c == '\t' || c == '\0'
  }

  predicate IsQuote(c: char) {
    c == '"' || c == '\''
  }

  predicate IsTokenChar(c: char) {
    ' ' < c < '\U{007f}' && c !in "()<>@,;:\\\"/[]?={}"
  }

  // `ToLowerASCII`.
  function ToLower(c: char): char {
    if 'A' <= c <= 'Z' then (c as int + 32) as char else c
  }

  /* ----- Trimming ----- */

  function TrimLeft(s: string): (r: string)
    ensures r == "" || !IsLWS(r[0])
  {
    if s == "" || !IsLWS(s[0]) then s else TrimLeft(s[1..])
  }

  function TrimRight(s: string): (r: string)
    ensures r == "" || !IsLWS(r[|r| - 1])
    ensures |r| <= |s| && s[..|r|] == r
  {
    if s == "" || !IsLWS(s[|s| - 1]) then s else TrimRight(s[..|s| - 1])
  }

  function Trim(s: string): string {
    TrimRight(TrimLeft(s))
  }

  // The range shrinks to the trimmed text.
  method TrimLWS(s: string, begin: nat, end: nat) returns (b: nat, e: nat)
    requires begin <= end <= |s|
    ensures begin <= b <= e <= end && s[b..e] == Trim(s[begin..end])
  {
    hide TrimLeft, TrimRight;
    b, e := begin, end;
    while b < e && IsLWS(s[b])
      invariant begin <= b <= e == end
      invariant TrimLeft(s[b..e]) == TrimLeft(s[begin..end])
    {
      LeftOf(s, b, e);
      b := b + 1;
    }
    LeftOf(s, b, e);
    ghost var kept := s[b..e];
    assert TrimLeft(s[begin..end]) == kept;
    while b < e && IsLWS(s[e - 1])
      invariant begin <= b <= e <= end
      invariant TrimRight(s[b..e]) == TrimRight(kept)
    {
      RightOf(s, b, e);
      e := e - 1;
    }
    RightOf(s, b, e);
  }

  lemma LeftOf(s: string, b: nat, e: nat)
    requires b <= e <= |s|
    ensures TrimLeft(s[b..e]) == if b < e && IsLWS(s[b]) then TrimLeft(s[b + 1..e]) else s[b..e]
  {
    assert b < e ==> s[b..e][1..] == s[b + 1..e];
  }

  lemma RightOf(s: string, b: nat, e: nat)
    requires b <= e <= |s|
    ensures TrimRight(s[b..e]) == if b < e && IsLWS(s[e - 1]) then TrimRight(s[b..e - 1]) else s[b..e]
  {
    assert b < e ==> s[b..e][..e - b - 1] == s[b..e - 1];
  }

  // What has no LWS at either end is left alone; nothing else comes out.
  lemma TrimBare(s: string, lead: string)
    requires s != "" && !IsLWS(s[0]) && !IsLWS(s[|s| - 1])
    requires lead == "" || lead == " "
    ensures Trim(lead + s) == s
  {
    if lead == "" {
      assert lead + s == s;
    } else {
      assert (lead + s)[1..] == s && (lead + s)[0] == ' ';
      assert TrimLeft(lead + s) == TrimLeft(s);
    }
  }

  /* ----- Unquoting ----- */

  function Unescape(t: string, escaped: bool): string {
    if t == "" then ""
    else if t[0] == '\\' && !escaped then Unescape(t[1..], true)
    else [t[0]] + Unescape(t[1..], false)
  }

  // An escape is still open at the end of `t`.
  function Open(t: string, escaped: bool): bool {
    if t == "" then escaped else Open(t[1..], t[0] == '\\' && !escaped)
  }

  // `t` holds `quote` unescaped.
  predicate HasQuote(t: string, escaped: bool, quote: char) {
    t != "" && ((t[0] == quote && !escaped && t[0] != '\\') || HasQuote(t[1..], t[0] == '\\' && !escaped, quote))
  }

  // In quotes of one kind.
  predicate Wrapped(s: string) {
    |s| >= 2 && IsQuote(s[0]) && s[|s| - 1] == s[0]
  }

  function Inner(s: string): string
    requires Wrapped(s)
  {
    s[1..|s| - 1]
  }

  method UnquoteImpl(s: string, strict: bool) returns (ok: bool, out: string)
    ensures ok <==> Wrapped(s)
                    && (strict ==> s[0] == '"' && !HasQuote(Inner(s), false, '"') && !Open(Inner(s), false))
    ensures ok ==> out == Unescape(Inner(s), false)
  {
    out := "";
    if |s| == 0 || !IsQuote(s[0]) || (strict && s[0] != '"') || |s| < 2 || s[0] != s[|s| - 1] {
      return false, out;
    }
    var quote := s[0];
    var begin, end := 1, |s| - 1;
    var escaped := false;
    assert s[begin..end] == Inner(s);
    while begin != end
      invariant 1 <= begin <= end == |s| - 1
      invariant out + Unescape(s[begin..end], escaped) == Unescape(Inner(s), false)
      invariant Open(s[begin..end], escaped) == Open(Inner(s), false)
      invariant strict ==> HasQuote(s[begin..end], escaped, quote) == HasQuote(Inner(s), false, quote)
    {
      var c := s[begin];
      assert s[begin..end][1..] == s[begin + 1..end];
      begin := begin + 1;
      if c == '\\' && !escaped {
        escaped := true;
        continue;
      }
      if strict && !escaped && c == quote {
        return false, out;
      }
      escaped := false;
      out := out + [c];
    }
    if strict && escaped {
      return false, out;
    }
    return true, out;
  }

  function Unquote(s: string): string {
    if Wrapped(s) then Unescape(Inner(s), false) else s
  }

  lemma {:induction false} UnescapeShrinks(t: string, escaped: bool)
    ensures |Unescape(t, escaped)| <= |t|
  {
    if t != "" {
      UnescapeShrinks(t[1..], t[0] == '\\' && !escaped);
    }
  }

  // Unquoting changes exactly the wrapped texts.
  lemma UnquoteChanges(s: string)
    ensures Unquote(s) == s <==> !Wrapped(s)
  {
    if Wrapped(s) {
      UnescapeShrinks(Inner(s), false);
    }
  }
}
