/**
 The parameter printers of lib/sippet/message.ex against the parsers of
 c_src/parser.cc: what is printed is parsed back.
 */
module ParamPrinting {
  import opened Wrappers
  import opened Concatenation
  import opened Tokenizer
  import opened Quoting
  import opened Params

  /* ----- Printing ----- */

  // `String.replace/3` of one character.
  function Replace(s: string, c: char, repl: string): string {
    if s == "" then "" else (if s[0] == c then repl else [s[0]]) + Replace(s[1..], c, repl)
  }

  // `do_quoted_string`.
  function QuotedString(v: string): string {
    "\"" + Replace(Replace(v, '\\', "\\\\"), '"', "\\\"") + "\""
  }

  // A token of section 25.1 of RFC 3261.
  predicate IsWordChar(c: char) {
    'a' <= c <= 'z' || 'A' <= c <= 'Z' || '0' <= c <= '9' || c in "-.!%*_+`'~"
  }

  predicate IsWord(v: string) {
    v != "" && forall i | 0 <= i < |v| :: IsWordChar(v[i])
  }

  datatype Mode = Challenge | Credentials

  function AlwaysQuoted(mode: Mode): seq<string> {
    match mode
    case Challenge => ["realm", "domain", "nonce", "opaque", "qop"]
    case Credentials => ["username", "realm", "nonce", "uri", "response", "cnonce", "opaque"]
  }

  predicate AuthQuotes(p: Pair, mode: Mode) {
    Lower(p.name) in AlwaysQuoted(mode) || !IsWord(p.value)
  }

  // One parameter as `do_auth_parameters` prints it.
  function AuthItem(p: Pair, mode: Mode): string {
    p.name + "=" + if AuthQuotes(p, mode) then QuotedString(p.value) else p.value
  }

  function Join(items: seq<string>, sep: string): string
    decreases |items|, 0
  {
    if items == [] then "" else items[0] + Tail(items[1..], sep)
  }

  function Tail(items: seq<string>, sep: string): string
    decreases |items|, 1
  {
    if items == [] then "" else sep + Join(items, sep)
  }

  function AuthItems(ps: seq<Pair>, mode: Mode): seq<string> {
    if ps == [] then [] else [AuthItem(ps[0], mode)] + AuthItems(ps[1..], mode)
  }

  // What follows the scheme in the header.
  function PrintAuth(ps: seq<Pair>, mode: Mode): string {
    " " + Join(AuthItems(ps, mode), ",")
  }

  // `do_maybe_double_quote`.
  predicate GenericQuotes(p: Pair) {
    (p.name != "" && p.name[0] == '+')
    || p.value == "" || exists i | 0 <= i < |p.value| :: !(IsWordChar(p.value[i]) || p.value[i] in ":[]")
  }

  function Doubled(v: string): string {
    "\"" + Replace(v, '"', "\\\"") + "\""
  }

  function GenericItem(p: Pair): string {
    if p.value == "" then p.name
    else p.name + "=" + if GenericQuotes(p) then Doubled(p.value) else p.value
  }

  // `do_parameters`: each parameter goes in front of what is already there.
  function PrintGeneric(ps: seq<Pair>, result: string): string
    decreases |ps|
  {
    if ps == [] then result else PrintGeneric(ps[1..], ";" + GenericItem(ps[0]) + result)
  }

  /* ----- What is printed in quotes ----- */

  // The values that are printed in quotes although they are words, by the names of
  // their parameters, in any case of letters.
  lemma AuthQuotesNames(name: string, value: string)
    requires IsWord(value)
    ensures var n := |name| + 2; var s := PrintAuth([Pair(name, value)], Challenge);
            && n < |s| && s[1..n] == name + "="
            && (s[n] == '"' <==> Lower(name) in ["realm", "domain", "nonce", "opaque", "qop"])
            && (s[n] != '"' ==> s[n..] == value)
    ensures var n := |name| + 2; var s := PrintAuth([Pair(name, value)], Credentials);
            && n < |s| && s[1..n] == name + "="
            && (s[n] == '"' <==> Lower(name) in ["username", "realm", "nonce", "uri", "response", "cnonce", "opaque"])
            && (s[n] != '"' ==> s[n..] == value)
  {
    assert value[0] != '"';
    AuthText(Pair(name, value), Challenge);
    AuthText(Pair(name, value), Credentials);
    hide Replace, Lower, IsWordChar;
  }

  lemma AuthText(p: Pair, mode: Mode)
    ensures PrintAuth([p], mode) == (" " + p.name + "=") + if AuthQuotes(p, mode) then QuotedString(p.value) else p.value
  {
    hide QuotedString, AuthQuotes;
    assert [p][1..] == [];
    assert AuthItems([p], mode) == [AuthItem(p, mode)] + AuthItems([], mode) == [AuthItem(p, mode)];
    assert Join([AuthItem(p, mode)], ",") == AuthItem(p, mode) + "" == AuthItem(p, mode);
  }

  // What the printer leaves bare are the parser's token characters, but for five that
  // section 25.1 of RFC 3261 does not have.
  lemma WordsAreTokens(c: char)
    ensures IsWordChar(c) <==> IsTokenChar(c) && c !in "#$&^|"
  {
  }

  // A value that is no word is printed in quotes under every name.
  lemma AuthQuotesValues(p: Pair, mode: Mode)
    requires !IsWord(p.value)
    ensures var n := |p.name| + 2; n < |PrintAuth([p], mode)| && PrintAuth([p], mode)[n] == '"'
  {
    AuthText(p, mode);
    hide Replace, IsWord;
  }

  // Generic values are printed in quotes when there is a byte in them that stands
  // neither in a word nor in a host, and under the names of feature tags.
  lemma GenericQuotesNames(p: Pair)
    requires p.value != ""
    ensures var n := |p.name| + 2; var s := PrintGeneric([p], "");
            && n < |s| && s[..n] == ";" + p.name + "="
            && (s[n] == '"' <==> (p.name != "" && p.name[0] == '+')
                                 || exists i | 0 <= i < |p.value| :: !IsWordChar(p.value[i]) && p.value[i] !in ":[]")
            && (s[n] != '"' ==> s[n..] == p.value)
  {
    assert [p][1..] == [];
    assert PrintGeneric([p], "") == PrintGeneric([], ";" + GenericItem(p) + "") == ";" + GenericItem(p);
    assert !GenericQuotes(p) ==> IsWordChar(p.value[0]) || p.value[0] in ":[]";
    hide Replace, IsWordChar;
  }

  /* ----- Escaping is undone ----- */

  // The two replacements at once.
  function Escaped(v: string): string {
    if v == "" then "" else (if v[0] == '\\' || v[0] == '"' then ['\\', v[0]] else [v[0]]) + Escaped(v[1..])
  }

  lemma {:induction false} ReplaceConcat(s: string, t: string, c: char, repl: string)
    ensures Replace(s + t, c, repl) == Replace(s, c, repl) + Replace(t, c, repl)
  {
    if s == "" {
      assert s + t == t;
    } else {
      ReplaceConcat(s[1..], t, c, repl);
      assert (s + t)[1..] == s[1..] + t && (s + t)[0] == s[0];
      Associates(if s[0] == c then repl else [s[0]], Replace(s[1..], c, repl), Replace(t, c, repl));
    }
  }

  lemma ReplaceFew(c: char, d: char, repl: string)
    ensures Replace([c], d, repl) == if c == d then repl else [c]
    ensures Replace([c, c], d, repl) == if c == d then repl + repl else [c, c]
  {
    assert [c][1..] == "" && [c, c][1..] == [c];
  }

  lemma {:induction false} TwoReplacements(v: string)
    ensures Replace(Replace(v, '\\', "\\\\"), '"', "\\\"") == Escaped(v)
  {
    if v != "" {
      TwoReplacements(v[1..]);
      var head := if v[0] == '\\' then "\\\\" else [v[0]];
      ReplaceConcat(head, Replace(v[1..], '\\', "\\\\"), '"', "\\\"");
      ReplaceFew(v[0], '"', "\\\"");
    }
  }

  lemma {:induction false} UnescapeEscaped(v: string)
    ensures Unescape(Escaped(v), false) == v
  {
    if v != "" {
      UnescapeEscaped(v[1..]);
      var e := Escaped(v);
      if v[0] == '\\' || v[0] == '"' {
        assert e[1..][1..] == Escaped(v[1..]);
      } else {
        assert e[1..] == Escaped(v[1..]);
      }
    }
  }

  // The generic printer escapes quotes but not backslashes, so unescaping
  // alone restores a text exactly when each backslash stands before a quote.
  predicate BackslashesGuardQuotes(v: string) {
    forall i | 0 <= i < |v| && v[i] == '\\' :: i + 1 < |v| && v[i + 1] == '"'
  }

  lemma {:induction false} HalfEscapedShrinks(v: string, escaped: bool)
    ensures |Unescape(Replace(v, '"', "\\\""), escaped)| <= |v| + if escaped then 1 else 0
  {
    if v != "" {
      var r := Replace(v, '"', "\\\"");
      var rest := Replace(v[1..], '"', "\\\"");
      HalfEscapedShrinks(v[1..], false);
      HalfEscapedShrinks(v[1..], true);
      if v[0] == '"' {
        assert r[1..][1..] == rest && r[1..][0] == '"';
      } else {
        assert r[1..] == rest;
      }
    }
  }

  lemma {:induction false} HalfEscaped(v: string)
    ensures Unescape(Replace(v, '"', "\\\""), false) == v <==> BackslashesGuardQuotes(v)
    decreases |v|, 1
  {
    if v != "" {
      var r := Replace(v, '"', "\\\"");
      var rest := Replace(v[1..], '"', "\\\"");
      if v[0] == '"' {
        assert r[1..][1..] == rest && r[1..][0] == '"';
        assert Unescape(r, false) == ['"'] + Unescape(rest, false);
        HalfEscaped(v[1..]);
        Shifted(v, 1);
      } else if v[0] != '\\' {
        assert r[1..] == rest;
        assert Unescape(r, false) == [v[0]] + Unescape(rest, false);
        HalfEscaped(v[1..]);
        Shifted(v, 1);
      } else {
        assert r[1..] == rest;
        HalfBackslash(v);
      }
    }
  }

  lemma Shifted(v: string, k: nat)
    requires 1 <= k <= |v|
    requires k == 1 ==> v[0] != '\\'
    requires k == 2 ==> v[0] == '\\' && v[1] == '"'
    requires k <= 2
    ensures BackslashesGuardQuotes(v) <==> BackslashesGuardQuotes(v[k..])
  {
    var w := v[k..];
    assert forall i | 0 <= i < |w| :: w[i] == v[i + k];
    if BackslashesGuardQuotes(w) {
      forall i | 0 <= i < |v| && v[i] == '\\'
        ensures i + 1 < |v| && v[i + 1] == '"'
      {
        if i >= k {
          assert w[i - k] == '\\';
        }
      }
    }
  }

  lemma HalfBackslash(v: string)
    requires v != "" && v[0] == '\\'
    ensures Unescape(Replace(v[1..], '"', "\\\""), true) == v <==> BackslashesGuardQuotes(v)
    decreases |v|, 0
  {
    var rest := v[1..];
    var r := Replace(rest, '"', "\\\"");
    if rest != "" {
      var rest2 := rest[1..];
      var r2 := Replace(rest2, '"', "\\\"");
      assert rest2 == v[2..];
      if rest[0] == '"' {
        assert r[1..] == ['"'] + r2;
        assert (['"'] + r2)[1..] == r2;
        assert Unescape(r, true) == ['\\'] + (['"'] + Unescape(r2, false));
        HalfEscaped(rest2);
        Shifted(v, 2);
        assert v == ['\\'] + (['"'] + rest2);
      } else {
        assert r[1..] == r2;
        HalfEscapedShrinks(rest2, false);
        assert Unescape(r, true) == [rest[0]] + Unescape(r2, false);
      }
    }
  }

  /* ----- Printed items are tokens ----- */

  // The state after `t`, unless a delimiter outside quotes is met in it.
  function Pass(delims: string, st: AdvanceState, t: string): Option<AdvanceState>
    decreases |t|
  {
    if t == "" then Some(st)
    else if Hits(delims, st, t[0]) then None
    else Pass(delims, Advance(QUOTES, st, t[0]), t[1..])
  }

  // Outside quotes.
  predicate Plain(st: AdvanceState) {
    !st.inQuote && !st.inEscape
  }

  lemma {:induction false} PassConcat(delims: string, st: AdvanceState, t: string, u: string)
    ensures Pass(delims, st, t + u) ==
            match Pass(delims, st, t) case Some(mid) => Pass(delims, mid, u) case None => None
    decreases |t|
  {
    if t == "" {
      assert t + u == u;
    } else {
      assert (t + u)[0] == t[0] && (t + u)[1..] == t[1..] + u;
      if !Hits(delims, st, t[0]) {
        PassConcat(delims, Advance(QUOTES, st, t[0]), t[1..], u);
      }
    }
  }

  lemma {:induction false} PassEnd(delims: string, st: AdvanceState, s: string, i: nat, t: string)
    requires i + |t| <= |s| && s[i..i + |t|] == t && Pass(delims, st, t).Some?
    ensures End(delims, QUOTES, st, s, i) == End(delims, QUOTES, Pass(delims, st, t).value, s, i + |t|)
    decreases |t|
  {
    if t != "" {
      assert s[i] == s[i..i + |t|][0];
      assert s[i + 1..i + 1 + |t[1..]|] == s[i..i + |t|][1..];
      PassEnd(delims, Advance(QUOTES, st, t[0]), s, i + 1, t[1..]);
      assert i + 1 + |t[1..]| == i + |t|;
    }
  }

  // Neither delimiters nor quotes.
  lemma {:induction false} PassPlain(delims: string, st: AdvanceState, t: string)
    requires Plain(st) && forall i | 0 <= i < |t| :: t[i] !in delims && !IsQuote(t[i])
    ensures Pass(delims, st, t).Some? && Plain(Pass(delims, st, t).value)
    decreases |t|
  {
    if t != "" {
      PassPlain(delims, Advance(QUOTES, st, t[0]), t[1..]);
    }
  }

  const INSIDE := AdvanceState(true, false, '"')

  // Escaped text leaves the inside of quotes as it was.
  lemma {:induction false} PassEscaped(delims: string, v: string)
    ensures Pass(delims, INSIDE, Escaped(v)) == Some(INSIDE)
    decreases |v|
  {
    if v != "" {
      var e := Escaped(v);
      PassEscaped(delims, v[1..]);
      if v[0] == '\\' || v[0] == '"' {
        assert e[1..][0] == v[0] && e[1..][1..] == Escaped(v[1..]);
      } else {
        assert e[1..] == Escaped(v[1..]);
      }
    }
  }

  lemma PassQuoted(delims: string, st: AdvanceState, inner: string)
    requires Plain(st) && '"' !in delims && Pass(delims, INSIDE, inner) == Some(INSIDE)
    ensures var q := "\"" + inner + "\""; Pass(delims, st, q).Some? && Plain(Pass(delims, st, q).value)
  {
    var q := "\"" + inner + "\"";
    assert q[1..] == inner + "\"";
    assert Advance(QUOTES, st, '"') == st.(inQuote := true, quoteChar := '"');
    assert st.(inQuote := true, quoteChar := '"') == INSIDE;
    PassConcat(delims, INSIDE, inner, "\"");
    assert Pass(delims, INSIDE, "\"") == Pass(delims, Advance(QUOTES, INSIDE, '"'), "\""[1..]);
  }

  // An item as it stands in a list: no LWS at its ends, no delimiter at its
  // head, and passed over as a whole.
  ghost predicate Item(delims: string, item: string) {
    && item != "" && !IsLWS(item[0]) && !IsLWS(item[|item| - 1]) && item[0] !in delims && ' ' !in delims
    && Pass(delims, START, item).Some? && Plain(Pass(delims, START, item).value)
    && Pass(delims, START, " " + item).Some? && Plain(Pass(delims, START, " " + item).value)
  }

  // Text that is passed over as a whole, before a delimiter or the end, is a token.
  lemma TextIsToken(delims: string, s: string, i: nat, t: string)
    requires t != "" && t[0] !in delims && Pass(delims, START, t).Some? && Plain(Pass(delims, START, t).value)
    requires i + |t| <= |s| && s[i..i + |t|] == t && (i + |t| < |s| ==> s[i + |t|] in delims)
    ensures NextToken(delims, QUOTES, s, i) == Some(Token(i, i + |t|))
  {
    assert s[i] == s[i..i + |t|][0];
    SkipOne(delims, QUOTES, s, i);
    PassEnd(delims, START, s, i, t);
  }

  // The next value is an item with at most a blank before it.
  lemma ItemIsValue(delims: string, s: string, i: nat, t: string, item: string)
    requires Item(delims, item) && (t == item || t == " " + item)
    requires i + |t| <= |s| && s[i..i + |t|] == t && (i + |t| < |s| ==> s[i + |t|] in delims)
    ensures NextValue(delims, s, i) == Some(Value(item, i + |t|))
  {
    TrimmedItem(delims, t, item);
    hide Item, Pass, Trim, NextToken, IsLWS;
    TextIsToken(delims, s, i, t);
  }

  lemma TrimmedItem(delims: string, t: string, item: string)
    requires Item(delims, item) && (t == item || t == " " + item)
    ensures Trim(t) == item && t != "" && t[0] !in delims
    ensures Pass(delims, START, t).Some? && Plain(Pass(delims, START, t).value)
  {
    TrimBare(item, "");
    TrimBare(item, " ");
    assert "" + item == item;
    hide Pass, Trim, IsLWS;
  }

  lemma JoinSplits(sep: string, s: string, i: nat, lead: string, items: seq<string>)
    requires i <= |s| && items != [] && s[i..] == lead + Join(items, sep)
    ensures var t := lead + items[0];
            i + |t| <= |s| && s[i..i + |t|] == t && s[i + |t|..] == Tail(items[1..], sep)
  {
    var tail := Tail(items[1..], sep);
    assert lead + (items[0] + tail) == (lead + items[0]) + tail;
    SplitAt(s, i, lead + items[0], tail);
  }

  lemma SplitAt(s: string, i: nat, t: string, rest: string)
    requires i <= |s| && s[i..] == t + rest
    ensures i + |t| <= |s| && s[i..i + |t|] == t && s[i + |t|..] == rest
  {
    assert s[i..][..|t|] == t && s[i..][|t|..] == rest;
  }

  // Behind an item comes the end, or the delimiter and the other items.
  lemma AfterItem(delim: char, s: string, e: nat, rest: seq<string>)
    requires e <= |s| && s[e..] == Tail(rest, [delim])
    ensures rest == [] <==> e == |s|
    ensures rest != [] ==> s[e] == delim && s[e + 1..] == "" + Join(rest, [delim])
  {
    hide Join;
    if rest != [] {
      assert s[e..][0] == s[e];
      assert s[e..][1..] == s[e + 1..];
      assert ([delim] + Join(rest, [delim]))[1..] == Join(rest, [delim]);
    }
  }

  lemma NothingLeft(delims: string, s: string)
    ensures Values(delims, s, |s|) == []
  {
  }

  lemma OverDelimiter(delims: string, s: string, e: nat)
    requires e < |s| && s[e] in delims
    ensures Values(delims, s, e) == Values(delims, s, e + 1)
  {
    SkipOne(delims, QUOTES, s, e);
  }

  /* ----- One printed parameter ----- */

  // A token without single quotes.
  predicate GoodName(name: string) {
    name != "" && forall i | 0 <= i < |name| :: IsTokenChar(name[i]) && name[i] != '\''
  }

  lemma {:induction false} FindAfterName(name: string, rest: string)
    requires forall i | 0 <= i < |name| :: name[i] != '='
    ensures Find('=', name + "=" + rest) == |name|
    ensures Find('=', name) == |name|
  {
    var t := name + "=" + rest;
    assert t[|name|] == '=';
    assert forall i | 0 <= i < |name| :: t[i] == name[i];
  }

  lemma TrimName(name: string)
    requires GoodName(name)
    ensures Trim(name) == name
  {
    TrimBare(name, "");
    assert "" + name == name;
  }

  // The printed name and value are taken apart again.
  lemma ParseItem(name: string, v: string)
    requires GoodName(name) && v != "" && !IsLWS(v[0]) && !IsLWS(v[|v| - 1])
    ensures ParsePair(name + "=" + v) == Some(Pair(name, Bared(v)))
    ensures ParseParam(name + "=" + v) == Pair(name, Bared(v))
  {
    hide Trim, Bared, Find;
    var t := name + "=" + v;
    FindAfterName(name, v);
    assert t[..|name|] == name && t[|name| + 1..] == v;
    TrimName(name);
    TrimBare(v, "");
    assert "" + v == v;
    assert forall j | 0 <= j < |name| :: t[j] == name[j] && !IsQuote(name[j]);
  }

  // A quoted value is wrapped, and unquoted once.
  lemma BaredQuoted(inner: string)
    ensures var q := "\"" + inner + "\"";
            q[0] == '"' && q[|q| - 1] == '"' && Wrapped(q) && Bared(q) == Unescape(inner, false)
  {
    var q := "\"" + inner + "\"";
    assert Inner(q) == inner;
  }

  // Plain text before a value does not disturb the state.
  lemma PrefixedPass(delims: string, head: string, v: string)
    requires forall i | 0 <= i < |head| :: head[i] !in delims && !IsQuote(head[i])
    requires forall st | Plain(st) :: Pass(delims, st, v).Some? && Plain(Pass(delims, st, v).value)
    ensures Pass(delims, START, head + v).Some? && Plain(Pass(delims, START, head + v).value)
  {
    PassPlain(delims, START, head);
    PassConcat(delims, START, head, v);
  }

  // A name, an equals sign and a value that ends outside quotes make an item.
  lemma ItemOf(delims: string, name: string, v: string)
    requires GoodName(name) && (delims == "," || delims == ";")
    requires v != "" && !IsLWS(v[|v| - 1])
    requires forall st | Plain(st) :: Pass(delims, st, v).Some? && Plain(Pass(delims, st, v).value)
    ensures Item(delims, name + "=" + v)
  {
    hide Pass;
    var item := name + "=" + v;
    PrefixedPass(delims, name + "=", v);
    PrefixedPass(delims, " " + (name + "="), v);
    assert (" " + (name + "=")) + v == " " + item;
    assert item[|item| - 1] == v[|v| - 1] && item[0] == name[0];
  }

  lemma NameIsItem(delims: string, name: string)
    requires GoodName(name) && (delims == "," || delims == ";")
    ensures Item(delims, name)
  {
    PassPlain(delims, START, name);
    PassPlain(delims, START, " " + name);
  }

  lemma QuotedPasses(delims: string, inner: string)
    requires (delims == "," || delims == ";") && Pass(delims, INSIDE, inner) == Some(INSIDE)
    ensures var q := "\"" + inner + "\"";
            forall st | Plain(st) :: Pass(delims, st, q).Some? && Plain(Pass(delims, st, q).value)
  {
    var q := "\"" + inner + "\"";
    forall st | Plain(st)
      ensures Pass(delims, st, q).Some? && Plain(Pass(delims, st, q).value)
    {
      PassQuoted(delims, st, inner);
    }
  }

  /* ----- Authentication parameters ----- */

  lemma AuthItemParses(p: Pair, mode: Mode)
    requires GoodName(p.name)
    ensures ParsePair(AuthItem(p, mode)) ==
            Some(Pair(p.name, if AuthQuotes(p, mode) then p.value else Bared(p.value)))
  {
    hide Bared, ParsePair, GoodName, Escaped, Unescape, Lower, AlwaysQuoted;
    if AuthQuotes(p, mode) {
      TwoReplacements(p.value);
      UnescapeEscaped(p.value);
      BaredQuoted(Escaped(p.value));
      ParseItem(p.name, QuotedString(p.value));
    } else {
      ParseItem(p.name, p.value);
    }
  }

  // What is left of a value after both rounds of unquoting.
  lemma AuthValueSurvives(p: Pair, mode: Mode)
    ensures Unquote(if AuthQuotes(p, mode) then p.value else Bared(p.value)) == p.value <==>
            if AuthQuotes(p, mode) then !Wrapped(p.value) else p.value[0] != '\''
  {
    var v := p.value;
    UnquoteChanges(v);
    if !AuthQuotes(p, mode) {
      assert IsWordChar(v[0]);
      if v[0] == '\'' {
        BaredShrinks(v);
        UnquoteShrinks(Bared(v));
      }
    }
  }

  lemma BaredShrinks(v: string)
    requires v != "" && IsQuote(v[0])
    ensures |Bared(v)| < |v|
  {
    if Wrapped(v) {
      UnescapeShrinks(Inner(v), false);
    }
  }

  lemma UnquoteShrinks(v: string)
    ensures |Unquote(v)| <= |v|
  {
    if Wrapped(v) {
      UnescapeShrinks(Inner(v), false);
    }
  }

  lemma BareItem(name: string, value: string)
    requires GoodName(name) && IsWord(value)
    ensures var item := name + "=" + value;
            && item != "" && !IsLWS(item[0]) && !IsLWS(item[|item| - 1])
            && forall i | 0 <= i < |item| :: item[i] != ','
  {
    var item := name + "=" + value;
    assert item[|item| - 1] == value[|value| - 1] && item[0] == name[0];
    assert forall i | 0 <= i < |name| :: name[i] != ',';
    assert forall i | 0 <= i < |value| :: value[i] != ',';
  }

  lemma QuotedItem(p: Pair, mode: Mode)
    requires GoodName(p.name) && AuthQuotes(p, mode)
    ensures Item(",", AuthItem(p, mode))
  {
    hide Pass, Item;
    TwoReplacements(p.value);
    PassEscaped(",", p.value);
    QuotedPasses(",", Escaped(p.value));
    ItemOf(",", p.name, QuotedString(p.value));
  }

  // `ps` lists the entries of `m`, in whatever order.
  ghost predicate Lists(ps: seq<Pair>, m: map<string, string>) {
    && (forall p | p in ps :: p.name in m && m[p.name] == p.value)
    && (forall name | name in m :: Pair(name, m[name]) in ps)
  }

  lemma {:induction false} PutLists(m: map<string, string>, ps: seq<Pair>)
    ensures forall name :: name in Put(m, ps) ==> name in m || exists p :: p in ps && p.name == name
    ensures forall name | name in m && (forall p | p in ps :: p.name != name) ::
              name in Put(m, ps) && Put(m, ps)[name] == m[name]
    ensures (forall p, q | p in ps && q in ps && p.name == q.name :: p == q) ==>
              forall p | p in ps :: p.name in Put(m, ps) && Put(m, ps)[p.name] == p.value
    decreases |ps|
  {
    if ps != [] {
      var n := m[ps[0].name := ps[0].value];
      PutLists(n, ps[1..]);
      assert forall p | p in ps :: p == ps[0] || p in ps[1..];
      assert forall p | p in ps[1..] :: p in ps;
    }
  }

  lemma ListedMap(ps: seq<Pair>, m: map<string, string>)
    requires Lists(ps, m)
    ensures Put(map[], ps) == m
  {
    PutLists(map[], ps);
    var r := Put(map[], ps);
    assert forall p, q | p in ps && q in ps && p.name == q.name :: p.value == m[p.name] == q.value;
    forall name
      ensures name in r <==> name in m
      ensures name in m ==> r[name] == m[name]
    {
      if name in m {
        assert Pair(name, m[name]) in ps;
      }
    }
  }

  lemma BlankHasNoValues()
    ensures Values(",", " ", 0) == []
  {
    var s := " ";
    PassEnd(",", START, s, 0, s);
    assert s[0..1] == s;
    assert Trim(s) == "" by { assert s[1..] == ""; }
  }

  /* ----- Generic parameters ----- */

  // The items as they end up in the header, last parameter first.
  function Backwards(ps: seq<Pair>): seq<Pair> {
    if ps == [] then [] else Backwards(ps[1..]) + [ps[0]]
  }

  function GenericItems(ps: seq<Pair>): seq<string> {
    if ps == [] then [] else [GenericItem(ps[0])] + GenericItems(ps[1..])
  }

  lemma {:induction false} PrintedBackwards(ps: seq<Pair>, done: seq<Pair>)
    ensures PrintGeneric(ps, Tail(GenericItems(done), ";")) == Tail(GenericItems(Backwards(ps) + done), ";")
    decreases |ps|
  {
    hide GenericItem;
    if ps == [] {
      assert Backwards(ps) + done == done;
    } else {
      var p := ps[0];
      var more := [p] + done;
      assert more[1..] == done;
      PrintedOne(p, done);
      PrintedBackwards(ps[1..], more);
      assert Backwards(ps) + done == Backwards(ps[1..]) + more;
    }
  }

  lemma PrintedOne(p: Pair, done: seq<Pair>)
    ensures ";" + GenericItem(p) + Tail(GenericItems(done), ";") == Tail(GenericItems([p] + done), ";")
  {
    hide GenericItem;
    var items := GenericItems(done);
    assert ([p] + done)[1..] == done;
    assert GenericItems([p] + done) == [GenericItem(p)] + items;
    assert ([GenericItem(p)] + items)[1..] == items;
    assert Join([GenericItem(p)] + items, ";") == GenericItem(p) + Tail(items, ";");
    assert ";" + GenericItem(p) + Tail(items, ";") == ";" + (GenericItem(p) + Tail(items, ";"));
  }

  lemma {:induction false} BackwardsHolds(ps: seq<Pair>)
    ensures forall p :: p in Backwards(ps) <==> p in ps
  {
    if ps != [] {
      BackwardsHolds(ps[1..]);
      assert ps == [ps[0]] + ps[1..];
    }
  }
}
