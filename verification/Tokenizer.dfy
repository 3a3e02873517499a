/** c_src/string_tokenizer.h: splitting at delimiters that are not inside quotes. */
module Tokenizer {
  import opened Wrappers

  // The state of one token, as the code keeps it.
  datatype AdvanceState = AdvanceState(inQuote: bool, inEscape: bool, quoteChar: char)

  const START := AdvanceState(false, false, '\0')

  predicate Hits(delims: string, st: AdvanceState, c: char) {
    !st.inQuote && c in delims
  }

  // `AdvanceOne` on a byte that is not a delimiter outside quotes.
  function Advance(quotes: string, st: AdvanceState, c: char): AdvanceState {
    if st.inQuote then
      if st.inEscape then st.(inEscape := false)
      else if c == '\\' then st.(inEscape := true)
      else if c == st.quoteChar then st.(inQuote := false)
      else st
    else st.(quoteChar := c, inQuote := c in quotes)
  }

  // Where the token that is in state `st` at `i` ends.
  function End(delims: string, quotes: string, st: AdvanceState, s: string, i: nat): (e: nat)
    requires i <= |s|
    ensures i <= e <= |s|
    decreases |s| - i
  {
    if i == |s| || Hits(delims, st, s[i]) then i
    else End(delims, quotes, Advance(quotes, st, s[i]), s, i + 1)
  }

  // The first byte from `i` on that is not a delimiter.
  function Begin(delims: string, s: string, i: nat): (b: nat)
    requires i <= |s|
    ensures i <= b <= |s| && (b < |s| ==> s[b] !in delims)
    ensures forall j | i <= j < b :: s[j] in delims
    decreases |s| - i
  {
    if i == |s| || s[i] !in delims then i else Begin(delims, s, i + 1)
  }

  datatype Token = Token(begin: nat, end: nat)

  // The next token from position `i` on.
  function NextToken(delims: string, quotes: string, s: string, i: nat): (t: Option<Token>)
    requires i <= |s|
    ensures t.Some? ==> i <= t.value.begin < t.value.end <= |s|
  {
    var b := Begin(delims, s, i);
    if b == |s| then None else Some(Token(b, End(delims, quotes, START, s, b)))
  }

  function Tokens(delims: string, quotes: string, s: string, i: nat): (ts: seq<Token>)
    requires i <= |s|
    ensures forall t | t in ts :: i <= t.begin < t.end <= |s|
    decreases |s| - i
  {
    match NextToken(delims, quotes, s, i)
    case None => []
    case Some(t) => [t] + Tokens(delims, quotes, s, t.end)
  }

  /* ----- What tokens are ----- */

  // The state in which the byte at `j` is met, in a token that begins at `b`.
  function StateAt(quotes: string, s: string, b: nat, j: nat): AdvanceState
    requires b <= j <= |s|
  {
    if j == b then START else Advance(quotes, StateAt(quotes, s, b, j - 1), s[j - 1])
  }

  // No delimiter outside quotes in the token, and one after it unless the text ends.
  ghost predicate Whole(delims: string, quotes: string, s: string, t: Token) {
    && t.begin < t.end <= |s|
    && (forall j | t.begin <= j < t.end :: !Hits(delims, StateAt(quotes, s, t.begin, j), s[j]))
    && (t.end < |s| ==> Hits(delims, StateAt(quotes, s, t.begin, t.end), s[t.end]))
  }

  lemma {:induction false} EndIsWhole(delims: string, quotes: string, s: string, b: nat, j: nat)
    requires b <= j <= |s|
    ensures var e := End(delims, quotes, StateAt(quotes, s, b, j), s, j);
            && (forall i | j <= i < e :: !Hits(delims, StateAt(quotes, s, b, i), s[i]))
            && (e < |s| ==> Hits(delims, StateAt(quotes, s, b, e), s[e]))
    decreases |s| - j
  {
    if j < |s| && !Hits(delims, StateAt(quotes, s, b, j), s[j]) {
      EndIsWhole(delims, quotes, s, b, j + 1);
    }
  }

  // A token is whole, and only delimiters are passed over to reach it.
  lemma NextTokenIsWhole(delims: string, quotes: string, s: string, i: nat)
    requires i <= |s|
    ensures match NextToken(delims, quotes, s, i)
            case None => forall j | i <= j < |s| :: s[j] in delims
            case Some(t) => Whole(delims, quotes, s, t) && forall j | i <= j < t.begin :: s[j] in delims
  {
    var b := Begin(delims, s, i);
    if b < |s| {
      EndIsWhole(delims, quotes, s, b, b);
    }
  }

  // The tokens of a text come in order without overlap, and each is whole.
  lemma {:induction false} TokensInOrder(delims: string, quotes: string, s: string, i: nat)
    requires i <= |s|
    ensures var ts := Tokens(delims, quotes, s, i);
            && (forall t | t in ts :: Whole(delims, quotes, s, t) && i <= t.begin)
            && InOrder(ts)
    decreases |s| - i
  {
    hide NextToken, Whole, InOrder;
    NextTokenIsWhole(delims, quotes, s, i);
    match NextToken(delims, quotes, s, i)
    case None =>
      assert InOrder([]) by { FewInOrder(); }
    case Some(t) =>
      TokensInOrder(delims, quotes, s, t.end);
      FirstInOrder(t, Tokens(delims, quotes, s, t.end));
  }

  // Each token ends before the next ones begin.
  ghost predicate InOrder(ts: seq<Token>) {
    forall k, l | 0 <= k < l < |ts| :: ts[k].end <= ts[l].begin
  }

  lemma FewInOrder()
    ensures InOrder([])
  {
  }

  lemma FirstInOrder(t: Token, ts: seq<Token>)
    requires InOrder(ts) && forall u | u in ts :: t.end <= u.begin
    ensures InOrder([t] + ts)
  {
  }

  // What lies before, between and after them is delimiters only.
  lemma {:induction false} GapsAreDelimiters(delims: string, quotes: string, s: string, i: nat, j: nat)
    requires i <= j < |s| && forall t | t in Tokens(delims, quotes, s, i) :: !(t.begin <= j < t.end)
    ensures s[j] in delims
    decreases |s| - i
  {
    hide NextToken, Whole;
    NextTokenIsWhole(delims, quotes, s, i);
    match NextToken(delims, quotes, s, i)
    case None =>
    case Some(t) =>
      var ts := Tokens(delims, quotes, s, i);
      assert ts == [t] + Tokens(delims, quotes, s, t.end);
      assert t in ts;
      if t.end <= j {
        assert forall u | u in Tokens(delims, quotes, s, t.end) :: u in ts;
        GapsAreDelimiters(delims, quotes, s, t.end, j);
      }
  }

  // Without quote characters, a token ends at the next delimiter.
  lemma {:induction false} PlainEnd(delims: string, st: AdvanceState, s: string, i: nat)
    requires !st.inQuote && i <= |s|
    ensures var e := End(delims, "", st, s, i);
            (forall j | i <= j < e :: s[j] !in delims) && (e < |s| ==> s[e] in delims)
    decreases |s| - i
  {
    if i < |s| && s[i] !in delims {
      PlainEnd(delims, Advance("", st, s[i]), s, i + 1);
    }
  }

  class StringTokenizer {
    const input: string
    const delims: string
    const returnDelims: bool
    var quotes: string
    var tokenBegin: nat
    var tokenEnd: nat
    var tokenIsDelim: bool

    constructor (input: string, delims: string, returnDelims: bool)
      ensures this.input == input && this.delims == delims && this.returnDelims == returnDelims
      ensures quotes == "" && tokenBegin == tokenEnd == 0 && !tokenIsDelim
    {
      this.input, this.delims, this.returnDelims := input, delims, returnDelims;
      quotes, tokenBegin, tokenEnd, tokenIsDelim := "", 0, 0, false;
    }

    // A call that found the token `t`, or none at the end of the text.
    ghost predicate Found(more: bool, t: Option<Token>)
      reads this
    {
      match t
      case None => !more && !tokenIsDelim && tokenBegin == tokenEnd == |input|
      case Some(t) => more && !tokenIsDelim && tokenBegin == t.begin && tokenEnd == t.end
    }

    method QuickGetNext() returns (more: bool)
      requires tokenEnd <= |input|
      modifies this
      ensures quotes == old(quotes) && tokenEnd <= |input|
      ensures Found(more, NextToken(delims, "", input, old(tokenEnd)))
    {
      ghost var from := tokenEnd;
      tokenIsDelim := false;
      while true
        invariant from <= tokenEnd <= |input| && quotes == old(quotes) && !tokenIsDelim
        invariant NextToken(delims, "", input, from) == NextToken(delims, "", input, tokenEnd)
        decreases |input| - tokenEnd
      {
        tokenBegin := tokenEnd;
        if tokenEnd == |input| {
          return false;
        }
        tokenEnd := tokenEnd + 1;
        SkipOne(delims, "", input, tokenBegin);
        if input[tokenBegin] !in delims {
          break;
        }
      }
      PlainEnd(delims, START, input, tokenBegin);
      ghost var start, e := tokenBegin, End(delims, "", START, input, tokenBegin);
      while tokenEnd < |input| && input[tokenEnd] !in delims
        invariant start == tokenBegin < tokenEnd <= e && quotes == old(quotes) && !tokenIsDelim
      {
        tokenEnd := tokenEnd + 1;
      }
      return true;
    }

    method FullGetNext() returns (more: bool)
      requires tokenEnd <= |input|
      modifies this
      ensures quotes == old(quotes) && tokenEnd <= |input|
      ensures if returnDelims && old(tokenEnd) < |input| && input[old(tokenEnd)] in delims then
                more && tokenIsDelim && tokenBegin == old(tokenEnd) && tokenEnd == old(tokenEnd) + 1
              else Found(more, NextToken(delims, quotes, input, old(tokenEnd)))
    {
      ghost var from := tokenEnd;
      var state := START;
      tokenIsDelim := false;
      while true
        invariant from <= tokenEnd <= |input| && quotes == old(quotes) && !tokenIsDelim && state == START
        invariant returnDelims ==> tokenEnd == from
        invariant NextToken(delims, quotes, input, from) == NextToken(delims, quotes, input, tokenEnd)
        decreases |input| - tokenEnd
      {
        tokenBegin := tokenEnd;
        if tokenEnd == |input| {
          return false;
        }
        tokenEnd := tokenEnd + 1;
        SkipOne(delims, quotes, input, tokenBegin);
        if !Hits(delims, state, input[tokenBegin]) {
          break;
        }
        if returnDelims {
          tokenIsDelim := true;
          return true;
        }
      }
      ghost var start, e := tokenBegin, End(delims, quotes, START, input, tokenBegin);
      state := Advance(quotes, state, input[tokenBegin]);
      while tokenEnd < |input| && !Hits(delims, state, input[tokenEnd])
        invariant start == tokenBegin < tokenEnd <= |input| && quotes == old(quotes) && !tokenIsDelim
        invariant e == End(delims, quotes, state, input, tokenEnd)
      {
        state := Advance(quotes, state, input[tokenEnd]);
        tokenEnd := tokenEnd + 1;
      }
      return true;
    }

    // Which of the two runs makes no difference to the token.
    method GetNext() returns (more: bool)
      requires tokenEnd <= |input|
      modifies this
      ensures quotes == old(quotes) && tokenEnd <= |input|
      ensures if returnDelims && old(tokenEnd) < |input| && input[old(tokenEnd)] in delims then
                more && tokenIsDelim && tokenBegin == old(tokenEnd) && tokenEnd == old(tokenEnd) + 1
              else Found(more, NextToken(delims, quotes, input, old(tokenEnd)))
    {
      if quotes == "" && !returnDelims {
        more := QuickGetNext();
      } else {
        more := FullGetNext();
      }
    }
  }

  // Passing over one delimiter, or standing at the beginning of the token.
  lemma SkipOne(delims: string, quotes: string, s: string, i: nat)
    requires i < |s|
    ensures s[i] in delims ==> NextToken(delims, quotes, s, i) == NextToken(delims, quotes, s, i + 1)
    ensures s[i] !in delims ==> NextToken(delims, quotes, s, i)
                                == Some(Token(i, End(delims, quotes, START, s, i)))
  {
  }

  // Without quotes, where QuickGetNext and FullGetNext yield the same tokens, those
  // are the longest runs without a delimiter.
  lemma {:induction false} TokensWithoutQuotes(delims: string, s: string, i: nat)
    requires i <= |s|
    ensures var ts := Tokens(delims, "", s, i);
            && (forall t | t in ts :: (forall j | t.begin <= j < t.end :: s[j] !in delims)
                                      && (t.end < |s| ==> s[t.end] in delims))
            && (forall j | i <= j < |s| :: s[j] !in delims <==> exists t :: t in ts && t.begin <= j < t.end)
    decreases |s| - i
  {
    match NextToken(delims, "", s, i)
    case None =>
    case Some(t) =>
      PlainEnd(delims, START, s, t.begin);
      TokensWithoutQuotes(delims, s, t.end);
      var rest := Tokens(delims, "", s, t.end);
      var ts := [t] + rest;
      assert Tokens(delims, "", s, i) == ts && t in ts;
      assert forall u | u in ts :: u == t || u in rest;
      assert forall u | u in rest :: u in ts;
  }
}
