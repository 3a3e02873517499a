/**
 Exactly which maps of parameters are printed by lib/sippet/message.ex and parsed
 back by c_src/parser.cc. A map could come back although its list does not, if a
 later value made up for a wrong one; counting delimiters shows that none can.
 */
module ParamMaps {
  import opened Wrappers
  import opened Tokenizer
  import opened Quoting
  import opened Params
  import opened ParamPrinting
  import opened ParamLists

  /* ----- Weights ----- */

  // Each text counts for its delimiters and one more.
  function TextWeight(delim: char, texts: seq<string>): nat {
    if texts == [] then 0 else Count(delim, texts[0]) + 1 + TextWeight(delim, texts[1..])
  }

  function Weight(delim: char, ps: seq<Pair>): nat {
    if ps == [] then 0 else Count(delim, ps[0].value) + 1 + Weight(delim, ps[1..])
  }

  // A token ends at a delimiter or at the end.
  lemma TokenStops(delim: char, s: string, i: nat)
    requires i <= |s| && NextToken([delim], QUOTES, s, i).Some?
    ensures var e := NextToken([delim], QUOTES, s, i).value.end; e == |s| || s[e] == delim
  {
    NextTokenIsWhole([delim], QUOTES, s, i);
  }

  lemma CountSplit(c: char, s: string, i: nat, j: nat)
    requires i <= j <= |s|
    ensures Count(c, s[i..]) == Count(c, s[i..j]) + Count(c, s[j..])
  {
    assert s[i..] == s[i..j] + s[j..];
    CountConcat(c, s[i..j], s[j..]);
  }

  // A value takes no delimiter from what is behind it.
  lemma {:induction false} ValueCount(delim: char, s: string, i: nat)
    requires Delimiter(delim) && i <= |s| && NextValue([delim], s, i).Some?
    ensures var v := NextValue([delim], s, i).value;
            && Count(delim, v.text) + Count(delim, s[v.after..]) <= Count(delim, s[i..])
            && (v.after == |s| || s[v.after] == delim)
    decreases |s| - i
  {
    hide NextToken, Trim, Count;
    TokenStops(delim, s, i);
    var t := NextToken([delim], QUOTES, s, i).value;
    CountSplit(delim, s, i, t.begin);
    CountSplit(delim, s, t.begin, t.end);
    if Trim(s[t.begin..t.end]) != "" {
      CountTrim(delim, s[t.begin..t.end]);
    } else {
      ValueCount(delim, s, t.end);
    }
  }

  // So the values weigh no more than the text.
  lemma {:induction false} ValuesWeight(delim: char, s: string, i: nat)
    requires Delimiter(delim) && i <= |s|
    ensures TextWeight(delim, Values([delim], s, i)) <= Count(delim, s[i..]) + 1
    decreases |s| - i
  {
    hide NextValue, Count, Values;
    ValuesFrom([delim], s, i);
    if NextValue([delim], s, i).Some? {
      var v := NextValue([delim], s, i).value;
      ValueCount(delim, s, i);
      assert ([v.text] + Values([delim], s, v.after))[1..] == Values([delim], s, v.after);
      if v.after == |s| {
        NothingLeft([delim], s);
      } else {
        OverDelimiter([delim], s, v.after);
        ValuesWeight(delim, s, v.after + 1);
        CountSplit(delim, s, v.after, v.after + 1);
        assert s[v.after..v.after + 1] == [delim];
        CountOne(delim, delim);
      }
    }
  }

  // Joined items weigh as much as the text.
  lemma {:induction false} JoinWeight(delim: char, items: seq<string>)
    requires items != []
    ensures Count(delim, Join(items, [delim])) + 1 == TextWeight(delim, items)
    decreases |items|
  {
    var rest := items[1..];
    var tail := Tail(rest, [delim]);
    CountConcat(delim, items[0], tail);
    if rest != [] {
      JoinWeight(delim, rest);
      CountConcat(delim, [delim], Join(rest, [delim]));
      CountOne(delim, delim);
    }
  }

  /* ----- Pairs that make up the map are the printed ones ----- */

  // Each entry of the map is printed once.
  ghost predicate Once(ps: seq<Pair>) {
    forall i, j | 0 <= i < j < |ps| :: ps[i].name != ps[j].name
  }

  // What is in the map was put there.
  lemma {:induction false} PutFrom(m: map<string, string>, ps: seq<Pair>)
    ensures forall name | name in Put(m, ps) ::
              Pair(name, Put(m, ps)[name]) in ps || (name in m && m[name] == Put(m, ps)[name])
    decreases |ps|
  {
    if ps != [] {
      var p := ps[0];
      PutFrom(m[p.name := p.value], ps[1..]);
      assert p == Pair(p.name, p.value);
    }
  }

  lemma {:induction false} WeightConcat(delim: char, ps: seq<Pair>, qs: seq<Pair>)
    ensures Weight(delim, ps + qs) == Weight(delim, ps) + Weight(delim, qs)
  {
    if ps == [] {
      assert ps + qs == qs;
    } else {
      assert (ps + qs)[0] == ps[0] && (ps + qs)[1..] == ps[1..] + qs;
      WeightConcat(delim, ps[1..], qs);
    }
  }

  // All of `qs` are among `ps`, which weigh no more: they are the same pairs.
  lemma {:induction false} Covered(delim: char, ps: seq<Pair>, qs: seq<Pair>)
    requires (forall q | q in qs :: q in ps) && Once(qs) && Weight(delim, ps) <= Weight(delim, qs)
    ensures multiset(ps) == multiset(qs)
    decreases |qs|
  {
    if qs == [] {
      assert ps == [];
    } else {
      var q, rest := qs[0], qs[1..];
      assert qs == [q] + rest && q in qs;
      var i :| 0 <= i < |ps| && ps[i] == q;
      var head, tail := ps[..i], ps[i + 1..];
      assert ps == head + ([q] + tail);
      WeightConcat(delim, head, [q] + tail);
      WeightConcat(delim, head, tail);
      assert ([q] + tail)[1..] == tail;
      RestOnce(qs);
      forall r | r in rest
        ensures r in head + tail
      {
        assert r in qs && r != q;
        assert r in head || r in [q] + tail;
      }
      Covered(delim, head + tail, rest);
    }
  }

  lemma RestOnce(qs: seq<Pair>)
    requires Once(qs) && qs != []
    ensures Once(qs[1..]) && forall q | q in qs[1..] :: q.name != qs[0].name
  {
    var rest := qs[1..];
    assert forall i | 0 <= i < |rest| :: rest[i] == qs[i + 1];
  }

  // A rearrangement of named pairs has under each name the same value.
  lemma SameUnderName(ps: seq<Pair>, qs: seq<Pair>, k: nat)
    requires multiset(ps) == multiset(qs) && Once(qs) && k < |ps| && k < |qs| && ps[k].name == qs[k].name
    ensures ps[k] == qs[k]
  {
    assert ps[k] in multiset(qs);
    var l :| 0 <= l < |qs| && qs[l] == ps[k];
    assert qs[l].name == qs[k].name;
  }

  lemma FromMap(delim: char, ps: seq<Pair>, qs: seq<Pair>, m: map<string, string>)
    requires Lists(qs, m) && Once(qs) && Put(map[], ps) == m && Weight(delim, ps) <= Weight(delim, qs)
    ensures multiset(ps) == multiset(qs)
  {
    hide Weight, Once, Put;
    PutFrom(map[], ps);
    forall q | q in qs
      ensures q in ps
    {
      assert q == Pair(q.name, m[q.name]);
    }
    Covered(delim, ps, qs);
  }

  /* ----- Authentication parameters ----- */

  // Neither round of unquoting adds a delimiter.
  lemma PairCount(text: string)
    requires ParsePair(text).Some?
    ensures Count(',', Unquote(ParsePair(text).value.value)) <= Count(',', text)
  {
    hide Trim, Bared, Unquote;
    var e := Find('=', text);
    var w := text[e + 1..];
    assert text == text[..e + 1] + w;
    CountConcat(',', text[..e + 1], w);
    CountTrim(',', w);
    CountBared(',', Trim(w));
    CountUnquote(',', Bared(Trim(w)));
  }

  lemma {:induction false} AuthWeight(texts: seq<string>)
    ensures Weight(',', AuthPairs(texts)) <= TextWeight(',', texts)
  {
    hide ParsePair, Unquote, Count;
    if texts != [] && ParsePair(texts[0]).Some? {
      PairCount(texts[0]);
      AuthWeight(texts[1..]);
      var p := ParsePair(texts[0]).value;
      assert ([Pair(p.name, Unquote(p.value))] + AuthPairs(texts[1..]))[1..] == AuthPairs(texts[1..]);
    }
  }

  lemma QuotedCount(v: string)
    ensures Count(',', QuotedString(v)) == Count(',', v)
  {
    hide Replace, Escaped, Unescape;
    TwoReplacements(v);
    UnescapeEscaped(v);
    CountUnescape(',', Escaped(v), false);
    CountConcat(',', "\"" + Escaped(v), "\"");
    CountConcat(',', "\"", Escaped(v));
    CountOne(',', '"');
  }

  lemma AuthItemCount(p: Pair, mode: Mode)
    requires GoodName(p.name)
    ensures Count(',', AuthItem(p, mode)) == Count(',', p.value)
  {
    hide QuotedString, AuthQuotes;
    var v := if AuthQuotes(p, mode) then QuotedString(p.value) else p.value;
    CountNone(',', p.name);
    CountConcat(',', p.name + "=", v);
    CountConcat(',', p.name, "=");
    CountOne(',', '=');
    QuotedCount(p.value);
  }

  lemma {:induction false} AuthItemsWeight(ps: seq<Pair>, mode: Mode)
    requires forall p | p in ps :: GoodName(p.name)
    ensures TextWeight(',', AuthItems(ps, mode)) == Weight(',', ps)
  {
    hide AuthItem, GoodName, Count;
    if ps != [] {
      var rest := ps[1..];
      assert ps[0] in ps && forall p | p in rest :: p in ps;
      AuthItemCount(ps[0], mode);
      AuthItemsWeight(rest, mode);
      assert ([AuthItem(ps[0], mode)] + AuthItems(rest, mode))[1..] == AuthItems(rest, mode);
    }
  }

  lemma AuthTextWeight(ps: seq<Pair>, mode: Mode)
    requires ps != [] && forall p | p in ps :: GoodName(p.name)
    ensures Weight(',', AuthPairs(Values(",", PrintAuth(ps, mode), 0))) <= Weight(',', ps)
  {
    hide GoodName, AuthPairs, Values, Join, Count, AuthItem;
    var items := AuthItems(ps, mode);
    var s := PrintAuth(ps, mode);
    AuthItemsAt(ps, mode);
    AuthWeight(Values(",", s, 0));
    ValuesWeight(',', s, 0);
    assert s[0..] == s == " " + Join(items, ",");
    CountConcat(',', " ", Join(items, ","));
    CountOne(',', ' ');
    JoinWeight(',', items);
    AuthItemsWeight(ps, mode);
  }

  // The same pairs in some order can only be the printed list.
  lemma AuthRearranged(ps: seq<Pair>, mode: Mode)
    requires ps != [] && (forall p | p in ps :: GoodName(p.name)) && Once(ps)
    requires multiset(AuthPairs(Values(",", PrintAuth(ps, mode), 0))) == multiset(ps)
    ensures AuthReturns(ps, mode)
  {
    hide GoodName, AuthPairs, Values, AuthReturns, Once, PrintAuth, AuthItems, SoundItems, Comes, ParsePair, Unquote;
    var texts := Values(",", PrintAuth(ps, mode), 0);
    var r := AuthPairs(texts);
    if SoundItems(',', AuthItems(ps, mode)) {
      AuthSoundValues(ps, mode);
      forall j | 0 <= j < |ps|
        ensures Comes(ps[j], mode)
      {
        AuthOneReturns(ps, mode, j);
        SameUnderName(r, ps, j);
      }
      AuthAllReturn(ps, mode);
      AuthListRoundTrip(ps, mode);
    } else {
      var k := AuthOffence(ps, mode);
      AuthPairsAt(texts, k);
      SameUnderName(r, ps, k);
      assert false;
    }
  }

  // A map of authentication parameters, printed in any order, is parsed as the
  // same map if and only if its list comes back.
  lemma AuthRoundTrip(ps: seq<Pair>, m: map<string, string>, mode: Mode)
    requires Lists(ps, m) && forall p | p in ps :: GoodName(p.name)
    ensures var back := Put(map[], AuthPairs(Values(",", PrintAuth(ps, mode), 0)));
            && (AuthReturns(ps, mode) ==> back == m)
            && (Once(ps) && back == m ==> AuthReturns(ps, mode))
  {
    hide GoodName, AuthReturns, AuthPairs, Values, PrintAuth, Put, Lists, Once, Weight;
    AuthListRoundTrip(ps, mode);
    ListedMap(ps, m);
    var r := AuthPairs(Values(",", PrintAuth(ps, mode), 0));
    if Once(ps) && Put(map[], r) == m {
      if ps == [] {
        NothingToReturn(ps, mode);
      } else {
        AuthTextWeight(ps, mode);
        FromMap(',', r, ps, m);
        AuthRearranged(ps, mode);
      }
    }
  }

  /* ----- Generic parameters ----- */

  lemma {:induction false} GenericWeight(texts: seq<string>)
    ensures Weight(';', GenericPairs(texts)) <= TextWeight(';', texts)
  {
    hide ParseParam, Count, Lower;
    if texts != [] {
      ParamCount(texts[0]);
      GenericWeight(texts[1..]);
      var p := ParseParam(texts[0]);
      assert ([Pair(Lower(p.name), p.value)] + GenericPairs(texts[1..]))[1..] == GenericPairs(texts[1..]);
    }
  }

  lemma {:induction false} GenericItemsWeight(qs: seq<Pair>)
    requires forall q | q in qs :: LowerName(q.name)
    ensures TextWeight(';', GenericItems(qs)) == Weight(';', qs)
  {
    hide GenericItem, Count, GoodName;
    if qs != [] {
      var rest := qs[1..];
      assert qs[0] in qs && forall q | q in rest :: q in qs;
      GenericCount(qs[0]);
      GenericItemsWeight(rest);
      assert ([GenericItem(qs[0])] + GenericItems(rest))[1..] == GenericItems(rest);
    }
  }

  lemma GenericTextWeight(qs: seq<Pair>)
    requires qs != [] && forall q | q in qs :: LowerName(q.name)
    ensures Weight(';', GenericPairs(Values(";", Join(GenericItems(qs), ";"), 0))) <= Weight(';', qs)
  {
    hide LowerName, GenericPairs, Values, Join, Count, GenericItem;
    var items := GenericItems(qs);
    var s := Join(items, ";");
    GenericItemsAt(qs);
    GenericWeight(Values(";", s, 0));
    ValuesWeight(';', s, 0);
    assert s[0..] == s;
    JoinWeight(';', items);
    GenericItemsWeight(qs);
  }

  lemma GenericRearranged(qs: seq<Pair>)
    requires qs != [] && (forall q | q in qs :: LowerName(q.name)) && Once(qs)
    requires multiset(GenericPairs(Values(";", Join(GenericItems(qs), ";"), 0))) == multiset(qs)
    ensures GenericReturns(qs)
  {
    hide LowerName, GenericPairs, Values, GenericReturns, Once, Join, GenericItems, SoundItems, GenericComes, GenericItem;
    hide ParseParam, Lower, Shaped, Cut;
    var items := GenericItems(qs);
    var texts := Values(";", Join(items, ";"), 0);
    var r := GenericPairs(texts);
    if SoundItems(';', items) {
      GenericListFacts(qs);
      GenericSoundValues(qs);
      forall j | 0 <= j < |qs|
        ensures |r| == |qs| && r[j] == qs[j]
      {
        GenericNames(qs, j);
        SameUnderName(r, qs, j);
      }
      GenericPairsAt(items, 0);
      assert r == qs;
      GenericAllReturn(qs);
    } else {
      var k := GenericOffence(qs);
      SameUnderName(r, qs, k);
      assert false;
    }
  }

  lemma GenericSoundValues(qs: seq<Pair>)
    requires qs != [] && (forall q | q in qs :: LowerName(q.name)) && SoundItems(';', GenericItems(qs))
    ensures Values(";", Join(GenericItems(qs), ";"), 0) == GenericItems(qs)
  {
    hide Shaped, GenericItem, GenericItems, Cut, LeftOpen, Join, Values, LowerName;
    GenericListFacts(qs);
    var s := Join(GenericItems(qs), ";");
    assert s == "" + s;
    SoundList(';', s, "", GenericItems(qs));
  }

  // An item that is a value of its own keeps its name.
  lemma GenericNames(qs: seq<Pair>, j: nat)
    requires (forall q | q in qs :: LowerName(q.name)) && SoundItems(';', GenericItems(qs)) && j < |qs|
    ensures var r := GenericPairs(GenericItems(qs)); |r| == |qs| && r[j].name == qs[j].name
  {
    hide Shaped, GenericItem, GenericItems, Cut, LeftOpen, ParseParam, GenericPairs, GenericComes, GoodName;
    GenericListFacts(qs);
    var items := GenericItems(qs);
    assert !Cut(';', items[j]) && qs[j] in qs;
    GenericOneReturns(qs[j]);
    GenericPairsAt(items, j);
  }

  lemma OnceBackwards(ps: seq<Pair>)
    requires Once(ps)
    ensures Once(Backwards(ps))
  {
    if ps != [] {
      RestOnce(ps);
      OnceBackwards(ps[1..]);
      BackwardsHolds(ps[1..]);
      LastOnce(Backwards(ps[1..]), ps[0]);
    }
  }

  lemma LastOnce(qs: seq<Pair>, p: Pair)
    requires Once(qs) && forall q | q in qs :: q.name != p.name
    ensures Once(qs + [p])
  {
  }

  lemma PrintedIsJoined(ps: seq<Pair>)
    requires ps != []
    ensures Backwards(ps) != []
    ensures Parameters(PrintGeneric(ps, "")) == Values(";", Join(GenericItems(Backwards(ps)), ";"), 0)
  {
    hide GenericItem, PrintGeneric, Parameters, Values;
    var qs := Backwards(ps);
    PrintedBackwards(ps, []);
    assert qs + [] == qs;
    GenericItemsAt(qs);
    TailIsJoin(GenericItems(qs));
    assert Tail(GenericItems([]), ";") == "";
  }

  // A map of generic parameters, printed in any order, is parsed as the same map
  // if and only if its list comes back.
  lemma GenericRoundTrip(ps: seq<Pair>, m: map<string, string>)
    requires Lists(ps, m) && forall p | p in ps :: LowerName(p.name)
    ensures var back := Put(map[], GenericPairs(Parameters(PrintGeneric(ps, ""))));
            && (GenericReturns(Backwards(ps)) ==> back == m)
            && (Once(ps) && back == m ==> GenericReturns(Backwards(ps)))
  {
    hide LowerName, GenericReturns, GenericPairs, Parameters, PrintGeneric, Put, Backwards, Once, Weight, Values, Join;
    var qs := Backwards(ps);
    BackwardsHolds(ps);
    GenericListRoundTrip(ps);
    ListedMap(qs, m);
    var r := GenericPairs(Parameters(PrintGeneric(ps, "")));
    if Once(ps) && Put(map[], r) == m {
      if ps == [] {
        NothingBackwards();
      } else {
        PrintedIsJoined(ps);
        OnceBackwards(ps);
        GenericTextWeight(qs);
        FromMap(';', r, qs, m);
        GenericRearranged(qs);
      }
    }
  }

  lemma NothingBackwards()
    ensures GenericReturns(Backwards([]))
  {
  }
}
