/**
 The parameter iterators of c_src/utils.cc and the two loops of c_src/parser.cc
 that fill maps from them. Iterator pairs are kept as the texts they delimit.
 */
module Params {
  import opened Wrappers
  import opened Tokenizer
  import opened Quoting

  const QUOTES: string := "'\""

  /* ----- Values between delimiters ----- */

  datatype Value = Value(text: string, after: nat)

  // The next trimmed token that is not empty.
  function NextValue(delims: string, s: string, i: nat): (v: Option<Value>)
    requires i <= |s|
    ensures v.Some? ==> i < v.value.after <= |s| && v.value.text != ""
    decreases |s| - i, 0
  {
    match NextToken(delims, QUOTES, s, i)
    case None => None
    case Some(t) => Taken(delims, s, t)
  }

  // A token that is empty once trimmed is passed over.
  function Taken(delims: string, s: string, t: Token): (v: Option<Value>)
    requires t.begin < t.end <= |s|
    ensures v.Some? ==> t.end <= v.value.after <= |s| && v.value.text != ""
    decreases |s| - t.end, 1
  {
    var text := Trim(s[t.begin..t.end]);
    if text != "" then Some(Value(text, t.end)) else NextValue(delims, s, t.end)
  }

  function Values(delims: string, s: string, i: nat): seq<string>
    requires i <= |s|
    decreases |s| - i
  {
    match NextValue(delims, s, i)
    case None => []
    case Some(v) => [v.text] + Values(delims, s, v.after)
  }

  class ValuesIterator {
    const values: StringTokenizer
    var value: string

    constructor (s: string, delimiter: char)
      ensures fresh(values) && values.input == s && values.delims == [delimiter] && Ready() && At() == 0
    {
      values := new StringTokenizer(s, [delimiter], false);
      value := "";
      new;
      values.quotes := QUOTES;
    }

    ghost predicate Ready()
      reads values
    {
      values.quotes == QUOTES && !values.returnDelims && values.tokenEnd <= |values.input|
    }

    function At(): nat
      reads values
    {
      values.tokenEnd
    }

    method GetNext() returns (more: bool)
      requires Ready()
      modifies this, values
      ensures Ready()
      ensures match NextValue(values.delims, values.input, old(At()))
              case None => !more && At() == |values.input|
              case Some(v) => more && value == v.text && At() == v.after
    {
      more := values.GetNext();
      while more
        invariant Ready() && values.tokenBegin <= values.tokenEnd && old(At()) <= At()
        invariant more ==> values.tokenBegin < values.tokenEnd
        invariant more ==> NextValue(values.delims, values.input, old(At()))
                           == Taken(values.delims, values.input, Token(values.tokenBegin, values.tokenEnd))
        invariant !more ==> NextValue(values.delims, values.input, old(At())) == None && At() == |values.input|
        decreases more, |values.input| - At()
      {
        var b, e := TrimLWS(values.input, values.tokenBegin, values.tokenEnd);
        if b != e {
          value := values.input[b..e];
          return true;
        }
        more := values.GetNext();
      }
    }
  }

  /* ----- One parameter ----- */

  // The position of the first `c`, or the end.
  function Find(c: char, s: string): (i: nat)
    ensures i <= |s| && (i < |s| ==> s[i] == c) && forall j | 0 <= j < i :: s[j] != c
  {
    if s == "" || s[0] == c then 0 else 1 + Find(c, s[1..])
  }

  // A value without its quotes; a missing closing quote is forgiven.
  function Bared(v: string): string {
    if v != "" && IsQuote(v[0]) then (if Wrapped(v) then Unquote(v) else v[1..]) else v
  }

  method StripQuotes(value: string) returns (bared: string)
    ensures bared == Bared(value)
  {
    bared := value;
    if value != "" && IsQuote(value[0]) {
      if value[0] != value[|value| - 1] || |value| == 1 {
        bared := value[1..];
      } else {
        var ok, unquoted := UnquoteImpl(value, false);
        bared := unquoted;
      }
    }
  }

  datatype Pair = Pair(name: string, value: string)

  // `NameValuePairsIterator`: a name, an equals sign, and a value are required.
  function ParsePair(text: string): Option<Pair> {
    var e := Find('=', text);
    if e == 0 || e == |text| || (exists j | 0 <= j < e :: IsQuote(text[j])) then None
    else
      var v := Trim(text[e + 1..]);
      if v == "" then None else Some(Pair(Trim(text[..e]), Bared(v)))
  }

  // `GenericParametersIterator`: the value may be missing.
  function ParseParam(text: string): Pair {
    var e := Find('=', text);
    if 0 < e < |text| then Pair(Trim(text[..e]), Bared(Trim(text[e + 1..])))
    else Pair(Trim(text), "")
  }

  class NameValuePairsIterator {
    const props: ValuesIterator
    var valid: bool
    var name: string
    var value: string

    constructor (s: string, delimiter: char)
      ensures fresh(props) && fresh(props.values) && props.Ready() && props.At() == 0
      ensures props.values.input == s && props.values.delims == [delimiter]
    {
      props := new ValuesIterator(s, delimiter);
      valid, name, value := true, "", "";
    }

    method GetNext() returns (more: bool)
      requires props.Ready()
      modifies this, props, props.values
      ensures props.Ready()
      ensures match NextValue(props.values.delims, props.values.input, old(props.At()))
              case None => !more && valid == old(valid)
              case Some(v) =>
                && props.At() == v.after
                && more == ParsePair(v.text).Some?
                && (more ==> ParsePair(v.text) == Some(Pair(name, value)))
                && valid == (old(valid) && more)
    {
      hide NextValue, Trim, Bared;
      more := props.GetNext();
      if !more {
        return;
      }
      var text := props.value;
      var equals := Find('=', text);
      if equals == 0 || equals == |text| {
        valid := false;
        return false;
      }
      var i := 0;
      while i < equals
        invariant 0 <= i <= equals
        invariant forall j | 0 <= j < i :: !IsQuote(text[j])
      {
        if IsQuote(text[i]) {
          valid := false;
          return false;
        }
        i := i + 1;
      }
      name := Trim(text[..equals]);
      value := Trim(text[equals + 1..]);
      if value == "" {
        valid := false;
        return false;
      }
      value := StripQuotes(value);
    }
  }

  class GenericParametersIterator {
    const props: ValuesIterator
    var name: string
    var value: string

    constructor (s: string)
      ensures fresh(props) && fresh(props.values) && props.Ready() && props.At() == 0
      ensures props.values.input == s && props.values.delims == ";"
    {
      props := new ValuesIterator(s, ';');
      name, value := "", "";
    }

    method GetNext() returns (more: bool)
      requires props.Ready()
      modifies this, props, props.values
      ensures props.Ready()
      ensures match NextValue(props.values.delims, props.values.input, old(props.At()))
              case None => !more
              case Some(v) => more && props.At() == v.after && ParseParam(v.text) == Pair(name, value)
    {
      hide NextValue, Trim;
      more := props.GetNext();
      if !more {
        return;
      }
      var text := props.value;
      var equals := Find('=', text);
      if equals != |text| && equals != 0 {
        name, value := Trim(text[..equals]), Trim(text[equals + 1..]);
      } else {
        name, value := Trim(text), "";
      }
      value := StripQuotes(value);
    }
  }

  /* ----- Maps of parameters ----- */

  // The pairs up to the first malformed one, unquoted once more.
  function AuthPairs(texts: seq<string>): seq<Pair> {
    if texts == [] || ParsePair(texts[0]).None? then []
    else
      var p := ParsePair(texts[0]).value;
      [Pair(p.name, Unquote(p.value))] + AuthPairs(texts[1..])
  }

  function Lower(s: string): string {
    if s == "" then "" else [ToLower(s[0])] + Lower(s[1..])
  }

  function GenericPairs(texts: seq<string>): seq<Pair> {
    if texts == [] then []
    else
      var p := ParseParam(texts[0]);
      [Pair(Lower(p.name), p.value)] + GenericPairs(texts[1..])
  }

  // Later pairs replace earlier ones.
  function Put(m: map<string, string>, pairs: seq<Pair>): map<string, string>
    decreases |pairs|
  {
    if pairs == [] then m else Put(m[pairs[0].name := pairs[0].value], pairs[1..])
  }

  lemma ValuesFrom(delims: string, s: string, i: nat)
    requires i <= |s|
    ensures Values(delims, s, i) ==
            match NextValue(delims, s, i) case None => [] case Some(v) => [v.text] + Values(delims, s, v.after)
  {
  }

  lemma AuthFrom(text: string, texts: seq<string>)
    ensures AuthPairs([]) == []
    ensures AuthPairs([text] + texts) ==
            match ParsePair(text) case None => [] case Some(p) => [Pair(p.name, Unquote(p.value))] + AuthPairs(texts)
  {
    assert ([text] + texts)[1..] == texts;
  }

  lemma GenericFrom(text: string, texts: seq<string>)
    ensures GenericPairs([]) == []
    ensures GenericPairs([text] + texts) ==
            (var p := ParseParam(text); [Pair(Lower(p.name), p.value)] + GenericPairs(texts))
  {
    assert ([text] + texts)[1..] == texts;
  }

  lemma PutFrom(m: map<string, string>, p: Pair, pairs: seq<Pair>)
    ensures Put(m, []) == m && Put(m, [p] + pairs) == Put(m[p.name := p.value], pairs)
  {
    assert ([p] + pairs)[1..] == pairs;
  }

  method ParseAuthParams(s: string) returns (result: map<string, string>)
    ensures result == Put(map[], AuthPairs(Values(",", s, 0)))
  {
    hide Values, NextValue, AuthPairs, ParsePair, Put, Unquote;
    result := map[];
    ghost var rest := Values(",", s, 0);
    var it := new NameValuePairsIterator(s, ',');
    ValuesFrom(",", s, it.props.At());
    var more := it.GetNext();
    while more
      invariant it.props.Ready() && fresh(it) && fresh(it.props) && fresh(it.props.values)
      invariant it.props.values.input == s && it.props.values.delims == ","
      invariant more ==> rest != [] && ParsePair(rest[0]) == Some(Pair(it.name, it.value))
                         && rest[1..] == Values(",", s, it.props.At())
      invariant !more ==> rest == [] || ParsePair(rest[0]).None?
      invariant Put(map[], AuthPairs(Values(",", s, 0))) == Put(result, AuthPairs(rest))
      decreases more, |s| - it.props.At()
    {
      var p := Pair(it.name, Unquote(it.value));
      assert rest == [rest[0]] + rest[1..];
      AuthFrom(rest[0], rest[1..]);
      PutFrom(result, p, AuthPairs(rest[1..]));
      rest := rest[1..];
      result := result[p.name := p.value];
      ValuesFrom(",", s, it.props.At());
      more := it.GetNext();
    }
    AuthEnd(rest);
    PutFrom(result, Pair("", ""), []);
  }

  lemma AuthEnd(texts: seq<string>)
    requires texts == [] || ParsePair(texts[0]).None?
    ensures AuthPairs(texts) == []
  {
  }

  // `s` is the text from the first semicolon on, as the cursor finds it.
  method ParseParameters(s: string) returns (result: map<string, string>)
    ensures result == Put(map[], GenericPairs(Parameters(s)))
  {
    hide Values, NextValue, GenericPairs, ParseParam, Put, Lower;
    result := map[];
    var semicolon := Find(';', s);
    if semicolon == |s| {
      GenericFrom("", []);
      PutFrom(result, Pair("", ""), []);
      return;
    }
    var text := s[semicolon + 1..];
    ghost var rest := Values(";", text, 0);
    var it := new GenericParametersIterator(text);
    ValuesFrom(";", text, it.props.At());
    var more := it.GetNext();
    while more
      invariant it.props.Ready() && fresh(it) && fresh(it.props) && fresh(it.props.values)
      invariant it.props.values.input == text && it.props.values.delims == ";"
      invariant more ==> rest != [] && ParseParam(rest[0]) == Pair(it.name, it.value)
                         && rest[1..] == Values(";", text, it.props.At())
      invariant !more ==> rest == []
      invariant Put(map[], GenericPairs(Values(";", text, 0))) == Put(result, GenericPairs(rest))
      decreases more, |text| - it.props.At()
    {
      var p := Pair(Lower(it.name), it.value);
      assert rest == [rest[0]] + rest[1..];
      GenericFrom(rest[0], rest[1..]);
      PutFrom(result, p, GenericPairs(rest[1..]));
      rest := rest[1..];
      result := result[p.name := p.value];
      ValuesFrom(";", text, it.props.At());
      more := it.GetNext();
    }
    GenericFrom("", []);
    PutFrom(result, Pair("", ""), []);
  }

  // The parameters behind the first semicolon.
  function Parameters(s: string): seq<string> {
    var semicolon := Find(';', s);
    if semicolon == |s| then [] else Values(";", s[semicolon + 1..], 0)
  }
}
