/**
 Exactly which lists of parameters are printed by lib/sippet/message.ex and
 parsed back by c_src/parser.cc. An item that the tokenizer cuts, or one before
 the last that leaves a quote open, changes how many delimiters its value holds.
 */
module ParamLists {
  import opened Wrappers
  import opened Concatenation
  import opened Tokenizer
  import opened Quoting
  import opened Params
  import opened ParamPrinting

  /* ----- Counting a byte ----- */

  function Count(c: char, s: string): (n: nat)
    ensures n <= |s|
  {
    if s == "" then 0 else (if s[0] == c then 1 else 0) + Count(c, s[1..])
  }

  lemma {:induction false} CountConcat(c: char, s: string, t: string)
    ensures Count(c, s + t) == Count(c, s) + Count(c, t)
  {
    if s == "" {
      assert s + t == t;
    } else {
      assert (s + t)[0] == s[0] && (s + t)[1..] == s[1..] + t;
      CountConcat(c, s[1..], t);
    }
  }

  lemma {:induction false} CountNone(c: char, s: string)
    requires forall i | 0 <= i < |s| :: s[i] != c
    ensures Count(c, s) == 0
  {
    if s != "" {
      CountNone(c, s[1..]);
    }
  }

  lemma CountOne(c: char, d: char)
    ensures Count(c, [d]) == if c == d then 1 else 0
  {
    assert [d][1..] == "";
  }

  lemma {:induction false} CountTrimLeft(c: char, s: string)
    requires !IsLWS(c)
    ensures Count(c, TrimLeft(s)) == Count(c, s)
  {
    if s != "" {
      CountTrimLeft(c, s[1..]);
    }
  }

  lemma {:induction false} CountTrimRight(c: char, s: string)
    requires !IsLWS(c)
    ensures Count(c, TrimRight(s)) == Count(c, s)
  {
    if s != "" {
      var n := |s| - 1;
      CountTrimRight(c, s[..n]);
      assert s == s[..n] + [s[n]];
      CountConcat(c, s[..n], [s[n]]);
      CountOne(c, s[n]);
    }
  }

  lemma CountTrim(c: char, s: string)
    requires !IsLWS(c)
    ensures Count(c, Trim(s)) == Count(c, s)
  {
    CountTrimLeft(c, s);
    CountTrimRight(c, TrimLeft(s));
  }

  lemma {:induction false} CountUnescape(c: char, t: string, escaped: bool)
    requires c != '\\'
    ensures Count(c, Unescape(t, escaped)) == Count(c, t)
  {
    if t != "" {
      if t[0] == '\\' && !escaped {
        CountUnescape(c, t[1..], true);
      } else {
        CountUnescape(c, t[1..], false);
        assert ([t[0]] + Unescape(t[1..], false))[1..] == Unescape(t[1..], false);
      }
    }
  }

  lemma {:induction false} CountReplace(c: char, v: string)
    requires c != '\\' && c != '"'
    ensures Count(c, Replace(v, '"', "\\\"")) == Count(c, v)
  {
    if v != "" {
      CountReplace(c, v[1..]);
      var head := if v[0] == '"' then "\\\"" else [v[0]];
      CountConcat(c, head, Replace(v[1..], '"', "\\\""));
      CountOne(c, v[0]);
      if v[0] == '"' {
        CountNone(c, head);
      }
    }
  }

  lemma CountUnquote(c: char, v: string)
    requires c != '\\' && !IsQuote(c)
    ensures Count(c, Unquote(v)) == Count(c, v)
  {
    if Wrapped(v) {
      var t := Inner(v);
      assert v == [v[0]] + (t + [v[0]]);
      CountConcat(c, [v[0]], t + [v[0]]);
      CountConcat(c, t, [v[0]]);
      CountOne(c, v[0]);
      CountUnescape(c, t, false);
    }
  }

  lemma CountBared(c: char, v: string)
    requires c != '\\' && !IsQuote(c)
    ensures Count(c, Bared(v)) == Count(c, v)
  {
    CountUnquote(c, v);
    if v != "" && IsQuote(v[0]) && !Wrapped(v) {
      assert v == [v[0]] + v[1..];
    }
  }

  /* ----- What tokenizing does to joined items ----- */

  predicate Delimiter(delim: char) {
    delim == ',' || delim == ';'
  }

  // No LWS at the ends, no delimiter at the head.
  predicate Shaped(delim: char, item: string) {
    item != "" && !IsLWS(item[0]) && !IsLWS(item[|item| - 1]) && item[0] != delim
  }

  // The tokenizer cuts the item somewhere inside.
  predicate Cut(delim: char, item: string) {
    Pass([delim], START, item).None?
  }

  // It is passed over as a whole, but with a quote still open at its end.
  predicate LeftOpen(delim: char, item: string) {
    Pass([delim], START, item).Some? && Pass([delim], START, item).value.inQuote
  }

  // Outside quotes the last byte seen does not matter.
  lemma PassAlike(delims: string, st: AdvanceState, su: AdvanceState, t: string)
    requires Plain(st) && Plain(su)
    ensures var (r, q) := (Pass(delims, st, t), Pass(delims, su, t));
            && (r.None? <==> q.None?)
            && (r.Some? ==> r.value.inQuote == q.value.inQuote && r.value.inEscape == q.value.inEscape)
  {
  }

  // So a blank before an item changes nothing.
  lemma BlankBefore(delim: char, lead: string, item: string)
    requires Delimiter(delim) && (lead == "" || lead == " ")
    ensures var (r, q) := (Pass([delim], START, item), Pass([delim], START, lead + item));
            && (r.None? <==> q.None?)
            && (r.Some? ==> r.value.inQuote == q.value.inQuote && r.value.inEscape == q.value.inEscape)
  {
    var t := lead + item;
    if lead == "" {
      assert t == item;
    } else {
      assert t[0] == ' ' && t[1..] == item;
      PassAlike([delim], START, Advance(QUOTES, START, ' '), item);
    }
  }

  lemma {:induction false} OutsideIsPlain(delims: string, st: AdvanceState, t: string)
    requires st.inEscape ==> st.inQuote
    ensures Pass(delims, st, t).Some? && !Pass(delims, st, t).value.inQuote ==> Plain(Pass(delims, st, t).value)
    decreases |t|
  {
    if t != "" && !Hits(delims, st, t[0]) {
      OutsideIsPlain(delims, Advance(QUOTES, st, t[0]), t[1..]);
    }
  }

  lemma SoundItem(delim: char, item: string)
    requires Delimiter(delim) && Shaped(delim, item) && !Cut(delim, item) && !LeftOpen(delim, item)
    ensures Item([delim], item)
  {
    BlankBefore(delim, " ", item);
    OutsideIsPlain([delim], START, item);
  }

  // A token that is cut ends before the item does, at a delimiter in it.
  lemma {:induction false} CutEnd(delims: string, st: AdvanceState, s: string, i: nat, t: string)
    requires i + |t| <= |s| && s[i..i + |t|] == t && Pass(delims, st, t).None?
    ensures var e := End(delims, QUOTES, st, s, i); e < i + |t| && s[e] in delims
    decreases |t|
  {
    assert t != "" && s[i] == s[i..i + |t|][0];
    if !Hits(delims, st, t[0]) {
      assert s[i + 1..i + 1 + |t[1..]|] == s[i..i + |t|][1..];
      CutEnd(delims, Advance(QUOTES, st, t[0]), s, i + 1, t[1..]);
    }
  }

  // A sound item before others is a value of its own.
  lemma FirstSound(delim: char, s: string, i: nat, lead: string, items: seq<string>) returns (e: nat)
    requires Delimiter(delim) && i <= |s| && s[i..] == lead + Join(items, [delim]) && (lead == "" || lead == " ")
    requires |items| > 1 && Item([delim], items[0])
    ensures e <= |s| && s[e..] == "" + Join(items[1..], [delim])
    ensures Values([delim], s, i) == [items[0]] + Values([delim], s, e)
  {
    hide Item, NextValue, Values, Join;
    var t := lead + items[0];
    var m := i + |t|;
    JoinSplits([delim], s, i, lead, items);
    AfterItem(delim, s, m, items[1..]);
    assert lead == "" ==> t == items[0];
    ItemIsValue([delim], s, i, t, items[0]);
    ValuesFrom([delim], s, i);
    OverDelimiter([delim], s, m);
    e := m + 1;
  }

  // The sound items at the head of a joined list are values of their own; the
  // rest of the list starts at `e`.
  lemma {:induction false} SoundPrefix(delim: char, s: string, i: nat, lead: string, items: seq<string>, k: nat)
    returns (e: nat, lead2: string)
    requires Delimiter(delim) && i <= |s| && s[i..] == lead + Join(items, [delim]) && (lead == "" || lead == " ")
    requires k < |items| && forall j | 0 <= j < k :: Item([delim], items[j])
    ensures e <= |s| && s[e..] == lead2 + Join(items[k..], [delim]) && (lead2 == "" || lead2 == " ")
    ensures Values([delim], s, i) == items[..k] + Values([delim], s, e)
    decreases k
  {
    hide Item, Values, Join;
    if k == 0 {
      e, lead2 := i, lead;
      assert items[0..] == items;
      assert items[..0] + Values([delim], s, i) == Values([delim], s, i);
    } else {
      var rest := items[1..];
      var m := FirstSound(delim, s, i, lead, items);
      e, lead2 := SoundPrefix(delim, s, m, "", rest, k - 1);
      assert rest[k - 1..] == items[k..];
      PrefixGrows(items, k, Values([delim], s, e));
    }
  }

  lemma PrefixGrows(items: seq<string>, k: nat, more: seq<string>)
    requires 0 < k <= |items|
    ensures [items[0]] + (items[1..][..k - 1] + more) == items[..k] + more
  {
  }

  // The last item may leave a quote open.
  lemma LastIsValue(delim: char, s: string, e: nat, lead: string, item: string)
    requires Delimiter(delim) && Shaped(delim, item) && !Cut(delim, item)
    requires e <= |s| && s[e..] == lead + item && (lead == "" || lead == " ")
    ensures Values([delim], s, e) == [item]
  {
    var t := lead + item;
    BlankBefore(delim, lead, item);
    SplitAt(s, e, t, "");
    assert lead == "" ==> t == item;
    TrimBare(item, lead);
    SkipOne([delim], QUOTES, s, e);
    PassEnd([delim], START, s, e, t);
    hide Pass, Trim, Values, NextToken;
    assert NextToken([delim], QUOTES, s, e) == Some(Token(e, |s|)) by { WholeRest(delim, s, e, t); }
    ValuesFrom([delim], s, e);
    NothingLeft([delim], s);
  }

  lemma WholeRest(delim: char, s: string, e: nat, t: string)
    requires t != "" && t[0] != delim && e + |t| == |s| && s[e..e + |t|] == t && Pass([delim], START, t).Some?
    ensures NextToken([delim], QUOTES, s, e) == Some(Token(e, |s|))
  {
    assert s[e] == s[e..e + |t|][0];
    SkipOne([delim], QUOTES, s, e);
    PassEnd([delim], START, s, e, t);
  }

  // Without an offending item, the values are the items.
  lemma SoundList(delim: char, s: string, lead: string, items: seq<string>)
    requires Delimiter(delim) && s == lead + Join(items, [delim]) && (lead == "" || lead == " ") && items != []
    requires forall j | 0 <= j < |items| :: Shaped(delim, items[j]) && !Cut(delim, items[j])
    requires forall j | 0 <= j < |items| - 1 :: !LeftOpen(delim, items[j])
    ensures Values([delim], s, 0) == items
  {
    hide Shaped, Cut, LeftOpen, Item, Values, Join;
    var n := |items| - 1;
    SoundHead(delim, items, n);
    assert s[0..] == s;
    var e, lead2 := SoundPrefix(delim, s, 0, lead, items, n);
    JoinLast(delim, items, n);
    LastIsValue(delim, s, e, lead2, items[n]);
    assert items == items[..n] + [items[n]];
  }

  lemma SoundHead(delim: char, items: seq<string>, n: nat)
    requires Delimiter(delim) && n <= |items|
    requires forall j | 0 <= j < n :: Shaped(delim, items[j]) && !Cut(delim, items[j]) && !LeftOpen(delim, items[j])
    ensures forall j | 0 <= j < n :: Item([delim], items[j])
  {
    hide Shaped, Cut, LeftOpen, Item;
    forall j | 0 <= j < n
      ensures Item([delim], items[j])
    {
      SoundItem(delim, items[j]);
    }
  }

  lemma JoinLast(delim: char, items: seq<string>, n: nat)
    requires n == |items| - 1
    ensures Join(items[n..], [delim]) == items[n]
  {
    assert items[n..] == [items[n]];
    assert items[n] + "" == items[n];
  }

  /* ----- Offending items ----- */

  lemma {:induction false} TrimRightHead(x: string)
    requires x != "" && !IsLWS(x[0])
    ensures TrimRight(x) != ""
    decreases |x|
  {
    if |x| > 1 {
      TrimRightHead(x[..|x| - 1]);
    }
  }

  lemma {:induction false} TrimRightBehind(x: string, u: string)
    requires x != "" && !IsLWS(x[|x| - 1])
    ensures TrimRight(x + u) == x + TrimRight(u)
    decreases |u|
  {
    if u == "" {
      assert x + u == x && x + TrimRight(u) == x;
    } else {
      var n := |u| - 1;
      assert (x + u)[|x + u| - 1] == u[n] && (x + u)[..|x + u| - 1] == x + u[..n];
      if IsLWS(u[n]) {
        TrimRightBehind(x, u[..n]);
      }
    }
  }

  // Only the blank before the text, if any, goes at its front.
  lemma TrimFront(lead: string, x: string)
    requires x != "" && !IsLWS(x[0]) && (lead == "" || lead == " ")
    ensures Trim(lead + x) == TrimRight(x)
  {
    if lead == "" {
      assert lead + x == x;
    } else {
      assert (lead + x)[1..] == x && (lead + x)[0] == ' ';
      assert TrimLeft(lead + x) == TrimLeft(x);
    }
  }

  // An item that is cut comes back with fewer delimiters than it has.
  lemma CutIsShort(delim: char, s: string, e: nat, lead: string, item: string) returns (c: nat)
    requires Delimiter(delim) && Shaped(delim, item) && Cut(delim, item) && (lead == "" || lead == " ")
    requires var t := lead + item; e + |t| <= |s| && s[e..e + |t|] == t
    ensures var v := Values([delim], s, e);
            && v != [] && Count(delim, v[0]) < Count(delim, item)
            && c < |item| && item[c] == delim && v[0] == TrimRight(item[..c])
  {
    var t := lead + item;
    var m := e + |t|;
    BlankBefore(delim, lead, item);
    CutEnd([delim], START, s, e, t);
    var end := End([delim], QUOTES, START, s, e);
    c := CutPoint(delim, s, e, lead, item, end);
    hide Cut, Pass, Values, NextToken, Trim;
    CutCounts(delim, s, e, end, m, lead, item);
    TrimFront(lead, item[..c]);
    TrimRightHead(item[..c]);
    ValuesFrom([delim], s, e);
  }

  // The token of a cut item: at least the first byte of the item.
  lemma CutPoint(delim: char, s: string, e: nat, lead: string, item: string, end: nat) returns (c: nat)
    requires Delimiter(delim) && Shaped(delim, item) && (lead == "" || lead == " ")
    requires var t := lead + item; e + |t| <= |s| && s[e..e + |t|] == t && e <= end < e + |t|
    requires end == End([delim], QUOTES, START, s, e) && s[end] == delim
    ensures 1 <= c < |item| && item[c] == delim && s[e..end] == lead + item[..c]
    ensures NextToken([delim], QUOTES, s, e) == Some(Token(e, end))
  {
    var t := lead + item;
    assert forall j | e <= j < e + |t| :: s[j] == s[e..e + |t|][j - e] == t[j - e];
    SkipOne([delim], QUOTES, s, e);
    assert end > e + |lead| by {
      assert t[|lead|] == item[0];
    }
    c := end - e - |lead|;
    assert s[end] == t[end - e] == item[c];
    assert s[e..end] == t[..end - e] == lead + item[..c];
  }

  lemma CutCounts(delim: char, s: string, e: nat, end: nat, m: nat, lead: string, item: string)
    requires Delimiter(delim) && e <= end < m <= |s| && s[end] == delim && (lead == "" || lead == " ")
    requires s[e..m] == lead + item
    ensures Count(delim, Trim(s[e..end])) < Count(delim, item)
  {
    CountTrim(delim, s[e..end]);
    assert s[e..m] == s[e..end] + ([delim] + s[end + 1..m]);
    CountConcat(delim, s[e..end], [delim] + s[end + 1..m]);
    CountConcat(delim, [delim], s[end + 1..m]);
    CountOne(delim, delim);
    CountConcat(delim, lead, item);
    CountNone(delim, lead);
  }

  // An item that leaves a quote open swallows the delimiter behind it.
  lemma OpenIsLong(delim: char, s: string, e: nat, lead: string, item: string) returns (u: string)
    requires Delimiter(delim) && Shaped(delim, item) && LeftOpen(delim, item) && (lead == "" || lead == " ")
    requires var t := lead + item; e + |t| < |s| && s[e..e + |t|] == t && s[e + |t|] == delim
    ensures var v := Values([delim], s, e); v != [] && v[0] == (item + [delim]) + u
  {
    var t := lead + item;
    var m := e + |t|;
    var end := OpenEnd(delim, s, e, lead, item);
    u := TrimRight(s[m + 1..end]);
    hide Pass, LeftOpen, End, NextToken, Values, Shaped;
    Around(delim, s, e, m, end, lead, item);
    OpenTrim(delim, lead, item, s[m + 1..end]);
    ValuesFrom([delim], s, e);
  }

  lemma OpenEnd(delim: char, s: string, e: nat, lead: string, item: string) returns (end: nat)
    requires Delimiter(delim) && Shaped(delim, item) && LeftOpen(delim, item) && (lead == "" || lead == " ")
    requires var t := lead + item; e + |t| < |s| && s[e..e + |t|] == t && s[e + |t|] == delim
    ensures e + |lead| + |item| < end <= |s| && NextToken([delim], QUOTES, s, e) == Some(Token(e, end))
  {
    var t := lead + item;
    BlankBefore(delim, lead, item);
    PassEnd([delim], START, s, e, t);
    end := End([delim], QUOTES, START, s, e);
    assert s[e] == s[e..e + |t|][0] == t[0];
    SkipOne([delim], QUOTES, s, e);
  }

  lemma Around(delim: char, s: string, e: nat, m: nat, end: nat, lead: string, item: string)
    requires e <= m < end <= |s| && s[e..m] == lead + item && s[m] == delim
    ensures s[e..end] == lead + ((item + [delim]) + s[m + 1..end])
  {
    var rest := s[m + 1..end];
    assert s[e..end] == s[e..m] + ([delim] + rest);
    Associates(lead, item, [delim] + rest);
    Associates(item, [delim], rest);
  }

  lemma OpenTrim(delim: char, lead: string, item: string, rest: string)
    requires Delimiter(delim) && Shaped(delim, item) && (lead == "" || lead == " ")
    ensures Trim(lead + ((item + [delim]) + rest)) == (item + [delim]) + TrimRight(rest)
  {
    var x := item + [delim];
    assert (x + rest)[0] == item[0];
    TrimFront(lead, x + rest);
    TrimRightBehind(x, rest);
  }

  /* ----- All items at once ----- */

  // No item is cut, and none but the last leaves a quote open.
  predicate SoundItems(delim: char, items: seq<string>) {
    forall j | 0 <= j < |items| :: !Cut(delim, items[j]) && (j < |items| - 1 ==> !LeftOpen(delim, items[j]))
  }

  // The first offending item is where the values differ from the items: there are
  // fewer delimiters in it, or the item is followed by one.
  lemma Offence(delim: char, s: string, lead: string, items: seq<string>) returns (k: nat, u: string, c: nat)
    requires Delimiter(delim) && s == lead + Join(items, [delim]) && (lead == "" || lead == " ")
    requires (forall j | 0 <= j < |items| :: Shaped(delim, items[j])) && !SoundItems(delim, items)
    ensures k < |items| && !Cut(delim, items[k]) ==> k < |items| - 1 && LeftOpen(delim, items[k])
    ensures k < |items| && k < |Values([delim], s, 0)| && Values([delim], s, 0)[..k] == items[..k]
    ensures var v := Values([delim], s, 0)[k];
            if Cut(delim, items[k]) then
              && Count(delim, v) < Count(delim, items[k])
              && c < |items[k]| && items[k][c] == delim && v == TrimRight(items[k][..c])
            else v == (items[k] + [delim]) + u
  {
    hide Shaped, Cut, LeftOpen, Item, Values, Join;
    k := FirstOffender(delim, items);
    SoundHead(delim, items, k);
    assert s[0..] == s;
    var e, lead2 := SoundPrefix(delim, s, 0, lead, items, k);
    var rest := items[k..];
    JoinSplits([delim], s, e, lead2, rest);
    u, c := "", 0;
    var m := e + |lead2 + rest[0]|;
    assert Values([delim], s, 0)[..k] == items[..k];
    if Cut(delim, items[k]) {
      c := CutIsShort(delim, s, e, lead2, items[k]);
    } else {
      AfterItem(delim, s, m, rest[1..]);
      u := OpenIsLong(delim, s, e, lead2, items[k]);
    }
    assert Values([delim], s, 0)[k] == Values([delim], s, e)[0];
  }

  lemma FirstOffender(delim: char, items: seq<string>) returns (k: nat)
    requires !SoundItems(delim, items)
    ensures k < |items| && (Cut(delim, items[k]) || (k < |items| - 1 && LeftOpen(delim, items[k])))
    ensures forall j | 0 <= j < k :: !Cut(delim, items[j]) && !LeftOpen(delim, items[j])
  {
    hide Cut, LeftOpen;
    k := 0;
    while !(Cut(delim, items[k]) || (k < |items| - 1 && LeftOpen(delim, items[k])))
      invariant k < |items|
      invariant forall j | 0 <= j < k :: !Cut(delim, items[j]) && !LeftOpen(delim, items[j])
      decreases |items| - k
    {
      assert k < |items| - 1;
      k := k + 1;
    }
  }

  /* ----- Authentication parameters ----- */

  // A text that goes on behind its value keeps its name, and the delimiter in it.
  lemma LongerPair(name: string, printed: string, delim: char, u: string)
    requires GoodName(name) && Delimiter(delim)
    ensures var t := (name + "=" + printed + [delim]) + u;
            && ParsePair(t).Some?
            && Count(delim, Unquote(ParsePair(t).value.value)) > Count(delim, printed)
            && Count(delim, ParseParam(t).value) > Count(delim, printed)
            && ParsePair(t).value.name == name && ParseParam(t).name == name
  {
    hide Find, Trim, Bared, Unquote, Count;
    var t := (name + "=" + printed + [delim]) + u;
    var w := (printed + [delim]) + u;
    assert t == name + "=" + w;
    FindAfterName(name, w);
    TrimName(name);
    assert t[..|name|] == name && t[|name| + 1..] == w;
    assert forall j | 0 <= j < |name| :: t[j] == name[j] && !IsQuote(name[j]);
    LongerCounts(printed, delim, u);
  }

  lemma LongerCounts(printed: string, delim: char, u: string)
    requires Delimiter(delim)
    ensures var w := Trim((printed + [delim]) + u);
            && w != "" && Count(delim, Unquote(Bared(w))) > Count(delim, printed)
            && Count(delim, Bared(w)) > Count(delim, printed)
  {
    hide Trim, Bared, Unquote;
    var w := (printed + [delim]) + u;
    CountTrim(delim, w);
    CountConcat(delim, printed + [delim], u);
    CountConcat(delim, printed, [delim]);
    CountOne(delim, delim);
    CountBared(delim, Trim(w));
    CountUnquote(delim, Bared(Trim(w)));
  }

  // What the tokenizer needs of an item and what the two rounds of unquoting
  // leave of it.
  lemma AuthItemFacts(p: Pair, mode: Mode)
    requires GoodName(p.name)
    ensures var item := AuthItem(p, mode);
            && Shaped(',', item) && !Cut(',', item)
            && (AuthQuotes(p, mode) ==> !LeftOpen(',', item))
            && (!AuthQuotes(p, mode) ==> (LeftOpen(',', item) <==> Count('\'', p.value) % 2 == 1))
            && ParsePair(item).Some?
  {
    AuthItemParses(p, mode);
    if AuthQuotes(p, mode) {
      QuotedItem(p, mode);
    } else {
      hide ParsePair;
      BareItem(p.name, p.value);
      WordItem(',', p.name, p.value);
    }
  }

  // A bare value leaves a quote open when its single quotes are odd in number.
  lemma {:induction false} WordPasses(delims: string, st: AdvanceState, v: string)
    requires delims == "," || delims == ";"
    requires forall i | 0 <= i < |v| :: IsWordChar(v[i]) || v[i] in ":[]"
    requires !st.inEscape && (st.inQuote ==> st.quoteChar == '\'')
    ensures var r := Pass(delims, st, v);
            r.Some? && (r.value.inQuote <==> st.inQuote != (Count('\'', v) % 2 == 1))
    decreases |v|
  {
    hide IsWordChar, Hits, Advance;
    if v != "" {
      WordChar(delims, st, v[0]);
      WordPasses(delims, Advance(QUOTES, st, v[0]), v[1..]);
    }
  }

  lemma WordChar(delims: string, st: AdvanceState, c: char)
    requires (delims == "," || delims == ";") && (IsWordChar(c) || c in ":[]")
    requires !st.inEscape && (st.inQuote ==> st.quoteChar == '\'')
    ensures !Hits(delims, st, c)
    ensures var su := Advance(QUOTES, st, c);
            !su.inEscape && (su.inQuote ==> su.quoteChar == '\'') && (su.inQuote <==> st.inQuote != (c == '\''))
  {
  }

  lemma WordItem(delim: char, name: string, v: string)
    requires GoodName(name) && Delimiter(delim)
    requires forall i | 0 <= i < |v| :: IsWordChar(v[i]) || v[i] in ":[]"
    ensures var item := name + "=" + v;
            !Cut(delim, item) && (LeftOpen(delim, item) <==> Count('\'', v) % 2 == 1)
  {
    hide Pass, GoodName, IsWordChar, Count;
    var head := name + "=";
    NamePasses(delim, name);
    var st := Pass([delim], START, head).value;
    PassConcat([delim], START, head, v);
    WordPasses([delim], st, v);
  }

  lemma NamePasses(delim: char, name: string)
    requires GoodName(name) && Delimiter(delim)
    ensures Pass([delim], START, name + "=").Some? && Plain(Pass([delim], START, name + "=").value)
  {
    PassPlain([delim], START, name + "=");
  }

  // Each value comes back on its own, and no bare value but the last has an odd
  // number of single quotes.
  predicate AuthReturns(ps: seq<Pair>, mode: Mode) {
    forall j | 0 <= j < |ps| :: Comes(ps[j], mode) && (j < |ps| - 1 ==> !Odd(ps[j], mode))
  }

  // The value survives both rounds of unquoting.
  predicate Comes(p: Pair, mode: Mode) {
    if AuthQuotes(p, mode) then !Wrapped(p.value) else p.value[0] != '\''
  }

  predicate Odd(p: Pair, mode: Mode) {
    !AuthQuotes(p, mode) && Count('\'', p.value) % 2 == 1
  }

  lemma {:induction false} AuthItemsAt(ps: seq<Pair>, mode: Mode)
    ensures |AuthItems(ps, mode)| == |ps|
    ensures forall j | 0 <= j < |ps| :: AuthItems(ps, mode)[j] == AuthItem(ps[j], mode)
  {
    hide AuthItem;
    if ps != [] {
      AuthItemsAt(ps[1..], mode);
    }
  }

  // Lists of authentication parameters come back exactly then.
  lemma AuthListRoundTrip(ps: seq<Pair>, mode: Mode)
    requires forall p | p in ps :: GoodName(p.name)
    ensures AuthPairs(Values(",", PrintAuth(ps, mode), 0)) == ps <==> AuthReturns(ps, mode)
  {
    hide GoodName, AuthPairs, Values, AuthReturns;
    if ps == [] {
      BlankHasNoValues();
      AuthFrom("", []);
      assert AuthItems(ps, mode) == [] && PrintAuth(ps, mode) == " ";
      assert AuthReturns(ps, mode) by { NothingToReturn(ps, mode); }
    } else {
      AuthListFacts(ps, mode);
      if SoundItems(',', AuthItems(ps, mode)) {
        AuthSound(ps, mode);
      } else {
        AuthUnsound(ps, mode);
      }
    }
  }

  // A single parameter comes back exactly when its value, printed in quotes, is
  // not wrapped in quotes, or, printed bare, does not begin with one.
  lemma AuthParameterRoundTrip(p: Pair, mode: Mode)
    requires GoodName(p.name)
    ensures AuthPairs(Values(",", PrintAuth([p], mode), 0)) == [p] <==>
            if AuthQuotes(p, mode) then !Wrapped(p.value) else p.value[0] != '\''
  {
    AuthListRoundTrip([p], mode);
    hide GoodName, AuthPairs, Values, PrintAuth;
    assert Comes([p][0], mode) <==> AuthReturns([p], mode);
  }

  lemma NothingToReturn(ps: seq<Pair>, mode: Mode)
    requires ps == []
    ensures AuthReturns(ps, mode)
  {
  }

  lemma AuthListFacts(ps: seq<Pair>, mode: Mode)
    requires forall p | p in ps :: GoodName(p.name)
    ensures var items := AuthItems(ps, mode);
            && |items| == |ps|
            && forall j | 0 <= j < |ps| :: items[j] == AuthItem(ps[j], mode)
                 && Shaped(',', items[j]) && !Cut(',', items[j]) && ParsePair(items[j]).Some?
                 && (LeftOpen(',', items[j]) <==> Odd(ps[j], mode))
  {
    AuthItemsAt(ps, mode);
    hide Shaped, Cut, LeftOpen, ParsePair, AuthQuotes, AuthItem, AuthItems, GoodName;
    forall j | 0 <= j < |ps|
      ensures var item := AuthItem(ps[j], mode);
              && Shaped(',', item) && !Cut(',', item) && ParsePair(item).Some?
              && (LeftOpen(',', item) <==> Odd(ps[j], mode))
    {
      assert ps[j] in ps;
      AuthItemFacts(ps[j], mode);
    }
  }

  lemma {:induction false} AuthPairsAt(texts: seq<string>, j: nat)
    requires j < |texts| && forall i | 0 <= i <= j :: ParsePair(texts[i]).Some?
    ensures j < |AuthPairs(texts)| <= |texts|
    ensures AuthPairs(texts)[j] == Pair(ParsePair(texts[j]).value.name, Unquote(ParsePair(texts[j]).value.value))
    decreases j
  {
    hide ParsePair, Unquote;
    AuthPairsShort(texts[1..]);
    if j > 0 {
      AuthPairsAt(texts[1..], j - 1);
    }
  }

  lemma {:induction false} AuthPairsShort(texts: seq<string>)
    ensures |AuthPairs(texts)| <= |texts|
  {
    hide ParsePair, Unquote;
    if texts != [] {
      AuthPairsShort(texts[1..]);
    }
  }

  // What comes back for the j-th parameter when it is a value of its own.
  lemma AuthOneReturns(ps: seq<Pair>, mode: Mode, j: nat)
    requires j < |ps| && forall p | p in ps :: GoodName(p.name)
    ensures var r := AuthPairs(AuthItems(ps, mode));
            |r| == |ps| && r[j].name == ps[j].name && (r[j] == ps[j] <==> Comes(ps[j], mode))
  {
    AuthListFacts(ps, mode);
    hide Shaped, Cut, LeftOpen, ParsePair, AuthPairs, AuthItem, AuthItems, GoodName, Unquote, Bared, Odd;
    var items := AuthItems(ps, mode);
    AuthPairsAt(items, j);
    AuthPairsAt(items, |items| - 1);
    AuthItemParses(ps[j], mode);
    AuthValueSurvives(ps[j], mode);
  }

  lemma AuthAllReturn(ps: seq<Pair>, mode: Mode)
    requires ps != [] && forall p | p in ps :: GoodName(p.name)
    ensures AuthPairs(AuthItems(ps, mode)) == ps <==> forall j | 0 <= j < |ps| :: Comes(ps[j], mode)
  {
    hide AuthPairs, AuthItems, GoodName, Comes;
    var r := AuthPairs(AuthItems(ps, mode));
    forall j | 0 <= j < |ps|
      ensures |r| == |ps| && (r[j] == ps[j] <==> Comes(ps[j], mode))
    {
      AuthOneReturns(ps, mode, j);
    }
    AuthOneReturns(ps, mode, 0);
  }

  // Sound items are those without an odd one before the last.
  lemma SoundIsEven(ps: seq<Pair>, mode: Mode)
    requires forall p | p in ps :: GoodName(p.name)
    ensures SoundItems(',', AuthItems(ps, mode)) <==> forall j | 0 <= j < |ps| - 1 :: !Odd(ps[j], mode)
  {
    AuthListFacts(ps, mode);
    hide Shaped, Cut, LeftOpen, ParsePair, AuthItem, AuthItems, GoodName, Odd;
  }

  lemma AuthSoundValues(ps: seq<Pair>, mode: Mode)
    requires ps != [] && (forall p | p in ps :: GoodName(p.name)) && SoundItems(',', AuthItems(ps, mode))
    ensures Values(",", PrintAuth(ps, mode), 0) == AuthItems(ps, mode)
  {
    AuthListFacts(ps, mode);
    hide Shaped, Cut, LeftOpen, ParsePair, AuthItem, AuthItems, GoodName, Values, Join;
    SoundList(',', PrintAuth(ps, mode), " ", AuthItems(ps, mode));
  }

  lemma AuthSound(ps: seq<Pair>, mode: Mode)
    requires ps != [] && (forall p | p in ps :: GoodName(p.name)) && SoundItems(',', AuthItems(ps, mode))
    ensures AuthPairs(Values(",", PrintAuth(ps, mode), 0)) == ps <==> AuthReturns(ps, mode)
  {
    hide SoundItems, GoodName, AuthPairs, AuthItems, Values, Comes, Odd, PrintAuth;
    AuthSoundValues(ps, mode);
    AuthAllReturn(ps, mode);
    SoundIsEven(ps, mode);
  }

  lemma AuthUnsound(ps: seq<Pair>, mode: Mode)
    requires ps != [] && (forall p | p in ps :: GoodName(p.name)) && !SoundItems(',', AuthItems(ps, mode))
    ensures AuthPairs(Values(",", PrintAuth(ps, mode), 0)) != ps && !AuthReturns(ps, mode)
  {
    hide SoundItems, GoodName, AuthPairs, AuthItems, Values, Comes, Odd, PrintAuth, ParsePair, Unquote, AuthQuotes;
    SoundIsEven(ps, mode);
    var k := AuthOffence(ps, mode);
    AuthPairsAt(Values(",", PrintAuth(ps, mode), 0), k);
  }

  // Up to the first offending item all values parse; there one value is wrong.
  lemma AuthOffence(ps: seq<Pair>, mode: Mode) returns (k: nat)
    requires ps != [] && (forall p | p in ps :: GoodName(p.name)) && !SoundItems(',', AuthItems(ps, mode))
    ensures var v := Values(",", PrintAuth(ps, mode), 0);
            && k < |v| && k < |ps| && (forall i | 0 <= i <= k :: ParsePair(v[i]).Some?)
            && ParsePair(v[k]).value.name == ps[k].name && Unquote(ParsePair(v[k]).value.value) != ps[k].value
  {
    var items := AuthItems(ps, mode);
    AuthListFacts(ps, mode);
    hide Shaped, Cut, LeftOpen, ParsePair, Unquote, AuthItem, AuthItems, AuthQuotes, GoodName, Values, Join, SoundItems;
    var u: string, c: nat;
    k, u, c := Offence(',', PrintAuth(ps, mode), " ", items);
    assert ps[k] in ps && Odd(ps[k], mode) && items[k] == AuthItem(ps[k], mode);
    hide Odd, PrintAuth;
    AuthSwallowed(ps[k], mode, u);
    PrefixParses(Values(",", PrintAuth(ps, mode), 0), items, k);
  }

  lemma PrefixParses(v: seq<string>, items: seq<string>, k: nat)
    requires k < |v| && k < |items| && v[..k] == items[..k] && ParsePair(v[k]).Some?
    requires forall i | 0 <= i < |items| :: ParsePair(items[i]).Some?
    ensures forall i | 0 <= i <= k :: ParsePair(v[i]).Some?
  {
    hide ParsePair;
    forall i | 0 <= i < k
      ensures v[i] == items[i]
    {
      assert v[..k][i] == items[..k][i];
    }
  }

  // The pair that a swallowed delimiter ends up in is not the printed one.
  lemma AuthSwallowed(p: Pair, mode: Mode, u: string)
    requires GoodName(p.name) && Odd(p, mode)
    ensures var t := (AuthItem(p, mode) + ",") + u;
            && ParsePair(t).Some? && ParsePair(t).value.name == p.name
            && Unquote(ParsePair(t).value.value) != p.value
  {
    LongerPair(p.name, p.value, ',', u);
  }

  /* ----- Generic parameters ----- */

  predicate LowerName(name: string) {
    GoodName(name) && Lower(name) == name
  }

  // A single parameter that comes back: without value; or quoted, with each
  // backslash before a quote and not cut by the tokenizer; or bare, not beginning
  // with a single quote.
  predicate GenericComes(p: Pair) {
    p.value == ""
    || (if GenericQuotes(p) then BackslashesGuardQuotes(p.value) && !Cut(';', GenericItem(p)) else p.value[0] != '\'')
  }

  lemma GenericShaped(p: Pair)
    requires GoodName(p.name)
    ensures Shaped(';', GenericItem(p)) && (p.value == "" || !GenericQuotes(p) ==> !Cut(';', GenericItem(p)))
    ensures p.value == "" ==> !LeftOpen(';', GenericItem(p))
  {
    var item := GenericItem(p);
    assert item[0] == p.name[0] && IsTokenChar(p.name[0]);
    if p.value == "" {
      NameIsItem(";", p.name);
      assert IsTokenChar(item[|item| - 1]);
    } else if GenericQuotes(p) {
      assert item[|item| - 1] == '"';
    } else {
      assert item[|item| - 1] == p.value[|p.value| - 1];
      WordItem(';', p.name, p.value);
    }
  }

  // What is left of one item that is a value of its own.
  lemma GenericOneReturns(p: Pair)
    requires LowerName(p.name) && !Cut(';', GenericItem(p))
    ensures var r := ParseParam(GenericItem(p));
            r.name == p.name && (Pair(Lower(r.name), r.value) == p <==> GenericComes(p))
  {
    if p.value == "" {
      hide Trim, Find, Cut, GenericQuotes;
      FindAfterName(p.name, "");
      TrimName(p.name);
    } else {
      var v := if GenericQuotes(p) then Doubled(p.value) else p.value;
      GenericEnds(p, v);
      GenericValue(p, v);
      hide Cut, Bared, GenericQuotes, Doubled, ParseParam;
      ParseItem(p.name, v);
    }
  }

  lemma GenericEnds(p: Pair, v: string)
    requires p.value != "" && v == if GenericQuotes(p) then Doubled(p.value) else p.value
    ensures v != "" && !IsLWS(v[0]) && !IsLWS(v[|v| - 1])
  {
    hide Replace;
    if !GenericQuotes(p) {
      BareEnds(p);
    }
  }

  lemma BareEnds(p: Pair)
    requires !GenericQuotes(p)
    ensures p.value != "" && !IsLWS(p.value[0]) && !IsLWS(p.value[|p.value| - 1])
  {
    var n := |p.value| - 1;
    assert IsWordChar(p.value[0]) || p.value[0] in ":[]";
    assert IsWordChar(p.value[n]) || p.value[n] in ":[]";
  }

  lemma GenericValue(p: Pair, v: string)
    requires p.value != "" && v == if GenericQuotes(p) then Doubled(p.value) else p.value
    ensures Bared(v) == p.value <==>
            if GenericQuotes(p) then BackslashesGuardQuotes(p.value) else p.value[0] != '\''
  {
    if GenericQuotes(p) {
      HalfEscaped(p.value);
      hide Replace, BackslashesGuardQuotes, Bared;
      BaredQuoted(Replace(p.value, '"', "\\\""));
    } else if p.value[0] == '\'' {
      BaredShrinks(p.value);
    }
  }

  lemma GenericCount(p: Pair)
    requires GoodName(p.name)
    ensures Count(';', GenericItem(p)) == Count(';', p.value)
  {
    CountNone(';', p.name);
    if p.value != "" {
      var v := if GenericQuotes(p) then Doubled(p.value) else p.value;
      CountConcat(';', p.name + "=", v);
      CountConcat(';', p.name, "=");
      CountOne(';', '=');
      DoubledCount(p.value);
    }
  }

  lemma DoubledCount(v: string)
    ensures Count(';', Doubled(v)) == Count(';', v)
  {
    var t := Replace(v, '"', "\\\"");
    CountReplace(';', v);
    CountConcat(';', "\"" + t, "\"");
    CountConcat(';', "\"", t);
    CountOne(';', '"');
  }

  // No parameter is parsed with more delimiters than its text has.
  lemma ParamCount(text: string)
    ensures Count(';', ParseParam(text).value) <= Count(';', text)
  {
    hide Trim, Bared;
    var e := Find('=', text);
    if 0 < e < |text| {
      var w := text[e + 1..];
      assert text == text[..e + 1] + w;
      CountConcat(';', text[..e + 1], w);
      CountTrim(';', w);
      CountBared(';', Trim(w));
    }
  }

  // The pair that an offending item ends up in is not the printed one.
  lemma GenericOffends(p: Pair, text: string, u: string, c: nat)
    requires GoodName(p.name)
    requires if Cut(';', GenericItem(p)) then
               && p.value != "" && GenericQuotes(p) && Count(';', text) < Count(';', GenericItem(p))
               && c < |GenericItem(p)| && GenericItem(p)[c] == ';' && text == TrimRight(GenericItem(p)[..c])
             else p.value != "" && text == (GenericItem(p) + ";") + u
    ensures ParseParam(text).name == p.name && ParseParam(text).value != p.value
  {
    hide Cut, ParseParam;
    GenericCount(p);
    if Cut(';', GenericItem(p)) {
      ParamCount(text);
      CutName(p, text, c);
    } else {
      var v := if GenericQuotes(p) then Doubled(p.value) else p.value;
      assert GenericItem(p) == p.name + "=" + v;
      DoubledCount(p.value);
      LongerPair(p.name, v, ';', u);
    }
  }

  // A cut comes behind the opening quote, so that the name is still there.
  lemma CutName(p: Pair, text: string, c: nat)
    requires GoodName(p.name) && p.value != "" && GenericQuotes(p)
    requires c < |GenericItem(p)| && GenericItem(p)[c] == ';' && text == TrimRight(GenericItem(p)[..c])
    ensures ParseParam(text).name == p.name
  {
    hide GenericQuotes, Trim, TrimRight, Find, Bared, Replace;
    var item := GenericItem(p);
    var n := |p.name|;
    assert item == p.name + "=" + Doubled(p.value);
    assert item[n] == '=' && item[n + 1] == '"';
    assert forall j | 0 <= j < n :: item[j] == p.name[j] && item[j] != ';';
    var x, rest := item[..n + 2], item[n + 2..c];
    assert item[..c] == x + rest;
    TrimRightBehind(x, rest);
    var w := "\"" + TrimRight(rest);
    assert x == p.name + "=" + "\"";
    assert text == p.name + "=" + w;
    FindAfterName(p.name, w);
    TrimName(p.name);
    assert text[..n] == p.name;
  }

  lemma {:induction false} GenericPairsAt(texts: seq<string>, j: nat)
    requires j < |texts|
    ensures |GenericPairs(texts)| == |texts|
    ensures var r := ParseParam(texts[j]); GenericPairs(texts)[j] == Pair(Lower(r.name), r.value)
    decreases |texts|
  {
    hide ParseParam, Lower;
    if |texts| > 1 {
      GenericPairsAt(texts[1..], if j > 0 then j - 1 else 0);
    }
  }

  lemma {:induction false} GenericItemsAt(qs: seq<Pair>)
    ensures |GenericItems(qs)| == |qs|
    ensures forall j | 0 <= j < |qs| :: GenericItems(qs)[j] == GenericItem(qs[j])
  {
    hide GenericItem;
    if qs != [] {
      GenericItemsAt(qs[1..]);
    }
  }

  // The parameters in the order in which they stand in the header.
  predicate GenericReturns(qs: seq<Pair>) {
    forall j | 0 <= j < |qs| :: GenericComes(qs[j]) && (j < |qs| - 1 ==> !LeftOpen(';', GenericItem(qs[j])))
  }

  lemma GenericListFacts(qs: seq<Pair>)
    requires forall q | q in qs :: LowerName(q.name)
    ensures var items := GenericItems(qs);
            && |items| == |qs|
            && forall j | 0 <= j < |qs| :: items[j] == GenericItem(qs[j]) && Shaped(';', items[j])
  {
    GenericItemsAt(qs);
    hide Shaped, GenericItem, GenericItems, Cut, LeftOpen;
    forall j | 0 <= j < |qs|
      ensures Shaped(';', GenericItem(qs[j]))
    {
      assert qs[j] in qs;
      GenericShaped(qs[j]);
    }
  }

  lemma GenericAllReturn(qs: seq<Pair>)
    requires qs != [] && (forall q | q in qs :: LowerName(q.name)) && SoundItems(';', GenericItems(qs))
    ensures GenericPairs(GenericItems(qs)) == qs <==> GenericReturns(qs)
  {
    var items := GenericItems(qs);
    GenericListFacts(qs);
    hide LowerName, Shaped, GenericItem, GenericItems, Cut, LeftOpen, GenericComes, GenericPairs, ParseParam, Lower;
    forall j | 0 <= j < |qs|
      ensures |GenericPairs(items)| == |qs| && (GenericPairs(items)[j] == qs[j] <==> GenericComes(qs[j]))
    {
      assert !Cut(';', items[j]) && qs[j] in qs;
      GenericOneReturns(qs[j]);
      GenericPairsAt(items, j);
    }
    GenericPairsAt(items, 0);
  }

  lemma GenericReturnsIsSound(qs: seq<Pair>)
    requires (forall q | q in qs :: LowerName(q.name)) && GenericReturns(qs)
    ensures SoundItems(';', GenericItems(qs))
  {
    GenericListFacts(qs);
    hide Shaped, GenericItem, GenericItems, Cut, LeftOpen, GenericQuotes;
    forall j | 0 <= j < |qs|
      ensures !Cut(';', GenericItem(qs[j]))
    {
      assert qs[j] in qs;
      GenericShaped(qs[j]);
    }
  }

  lemma GenericOffence(qs: seq<Pair>) returns (k: nat)
    requires qs != [] && (forall q | q in qs :: LowerName(q.name)) && !SoundItems(';', GenericItems(qs))
    ensures var r := GenericPairs(Values(";", Join(GenericItems(qs), ";"), 0));
            k < |r| && k < |qs| && r[k].name == qs[k].name && r[k].value != qs[k].value
  {
    var items := GenericItems(qs);
    var s := Join(items, ";");
    GenericListFacts(qs);
    hide Shaped, GenericItem, GenericItems, Cut, LeftOpen, SoundItems, Join, Values, GenericPairs, ParseParam, Lower;
    assert s == "" + s;
    var u, c;
    k, u, c := Offence(';', s, "", items);
    assert qs[k] in qs;
    GenericShaped(qs[k]);
    GenericOffends(qs[k], Values(";", s, 0)[k], u, c);
    GenericPairsAt(Values(";", s, 0), k);
  }

  lemma TailIsJoin(items: seq<string>)
    requires items != []
    ensures Parameters(Tail(items, ";")) == Values(";", Join(items, ";"), 0)
  {
    hide Values, Join;
    var s := Tail(items, ";");
    assert s[0] == ';' && s[1..] == Join(items, ";");
  }

  lemma JoinedGeneric(qs: seq<Pair>)
    requires qs != [] && (forall q | q in qs :: LowerName(q.name))
    ensures GenericPairs(Values(";", Join(GenericItems(qs), ";"), 0)) == qs <==> GenericReturns(qs)
  {
    var items := GenericItems(qs);
    var s := Join(items, ";");
    GenericListFacts(qs);
    if SoundItems(';', items) {
      hide Shaped, GenericItem, GenericItems, Cut, LeftOpen, Join, Values, GenericPairs, GenericReturns, LowerName;
      assert s == "" + s;
      SoundList(';', s, "", items);
      GenericAllReturn(qs);
    } else {
      hide SoundItems, GenericItems, Join, Values, GenericPairs, GenericReturns, LowerName;
      var k := GenericOffence(qs);
      if GenericReturns(qs) {
        GenericReturnsIsSound(qs);
      }
    }
  }

  // Lists of generic parameters come back, last one first, exactly then.
  lemma GenericListRoundTrip(ps: seq<Pair>)
    requires forall p | p in ps :: LowerName(p.name)
    ensures GenericPairs(Parameters(PrintGeneric(ps, ""))) == Backwards(ps) <==> GenericReturns(Backwards(ps))
  {
    var qs := Backwards(ps);
    BackwardsHolds(ps);
    PrintedBackwards(ps, []);
    assert qs + [] == qs;
    GenericItemsAt(qs);
    hide GenericItem, LowerName, PrintGeneric, Parameters, Backwards;
    if qs == [] {
      NoParameters();
    } else {
      hide GenericPairs, GenericReturns, Values;
      TailIsJoin(GenericItems(qs));
      JoinedGeneric(qs);
    }
  }

  lemma NoParameters()
    ensures Parameters("") == [] && GenericPairs([]) == [] && GenericReturns([])
  {
  }

  // A single parameter comes back exactly if `GenericComes`.
  lemma GenericParameterRoundTrip(p: Pair)
    requires LowerName(p.name)
    ensures GenericPairs(Parameters(PrintGeneric([p], ""))) == [p] <==> GenericComes(p)
  {
    assert Backwards([p]) == Backwards([p][1..]) + [p] == [p];
    GenericListRoundTrip([p]);
    hide LowerName, GenericComes, GenericPairs, Parameters, PrintGeneric, LeftOpen;
  }

  // A value that unescaping alone would restore, but that is cut on the way.
  lemma CutValue(p: Pair)
    requires p == Pair("n", "a\\\";b")
    ensures LowerName(p.name) && BackslashesGuardQuotes(p.value)
    ensures GenericPairs(Parameters(PrintGeneric([p], ""))) != [p]
  {
    assert LowerName(p.name) by {
      assert Lower("n") == "n" + Lower("n"[1..]);
    }
    CutValueIsCut(p);
    hide LowerName, GenericPairs, Parameters, PrintGeneric, Cut, GenericQuotes, GenericItem, BackslashesGuardQuotes;
    GenericParameterRoundTrip(p);
  }

  lemma CutValueIsCut(p: Pair)
    requires p == Pair("n", "a\\\";b")
    ensures p.value != "" && GenericQuotes(p) && Cut(';', GenericItem(p)) && BackslashesGuardQuotes(p.value)
  {
    hide GenericQuotes, BackslashesGuardQuotes, Doubled, Pass;
    var inner := "a\\\\";
    CutIsQuoted(p);
    CutPrinted(p.value, inner);
    EscapedInner(inner);
    CutBehind("n=", inner, ";b\"");
    assert GenericItem(p) == "n=" + (("\"" + inner + "\"") + ";b\"");
  }

  lemma CutIsQuoted(p: Pair)
    requires p == Pair("n", "a\\\";b")
    ensures GenericQuotes(p) && BackslashesGuardQuotes(p.value)
  {
    assert p.value[1] == '\\' && !IsWordChar(p.value[1]);
  }

  // Outside quotes again, the tokenizer stops at the semicolon.
  lemma CutBehind(head: string, inner: string, rest: string)
    requires head == "n=" && Pass(";", INSIDE, inner) == Some(INSIDE) && rest != "" && rest[0] == ';'
    ensures Pass(";", START, head + (("\"" + inner + "\"") + rest)).None?
  {
    PassPlain(";", START, head);
    var st := Pass(";", START, head).value;
    PassQuoted(";", st, inner);
    var q := "\"" + inner + "\"";
    PassConcat(";", st, q, rest);
    PassConcat(";", START, head, q + rest);
  }

  lemma EscapedInner(inner: string)
    requires inner == "a\\\\"
    ensures Pass(";", INSIDE, inner) == Some(INSIDE)
  {
    PassEscaped(";", "a\\");
    assert Escaped("a\\"[1..]) == "\\\\" + Escaped("a\\"[1..][1..]);
    assert Escaped("a\\") == inner;
    hide Pass;
  }

  lemma CutPrinted(v: string, inner: string)
    requires v == "a\\\";b" && inner == "a\\\\"
    ensures Doubled(v) == ("\"" + inner + "\"") + ";b\""
  {
    var a, b := "a\\", ";b";
    NoQuoteNoChange(a);
    NoQuoteNoChange(b);
    assert v == a + ("\"" + b);
    hide Replace;
    QuoteBetween(a, b);
  }

  lemma QuoteBetween(a: string, b: string)
    requires Replace(a, '"', "\\\"") == a && Replace(b, '"', "\\\"") == b
    ensures Replace(a + ("\"" + b), '"', "\\\"") == a + ("\\\"" + b)
  {
    ReplaceConcat(a, "\"" + b, '"', "\\\"");
    ReplaceConcat("\"", b, '"', "\\\"");
    ReplaceFew('"', '"', "\\\"");
  }

  lemma {:induction false} NoQuoteNoChange(v: string)
    requires forall i | 0 <= i < |v| :: v[i] != '"'
    ensures Replace(v, '"', "\\\"") == v
  {
    if v != "" {
      NoQuoteNoChange(v[1..]);
    }
  }
}
