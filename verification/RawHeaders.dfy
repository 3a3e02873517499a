/** c_src/parser.cc: joining folded header lines. Bytes are `char`s. */
module RawHeaders {
  import opened Quoting
  import opened Concatenation

  // Every CR is immediately followed by LF.
  predicate PairedCRs(s: string, i: nat) {
    forall j | i <= j < |s| && s[j] == '\r' :: j + 1 < |s| && s[j + 1] == '\n'
  }

  // What the byte at `i` leaves behind: itself, or for a line break one LF unless
  // the next line continues this one or there is none.
  function Kept(s: string, i: nat): string
    requires i < |s|
  {
    if s[i] == '\r' then ""
    else if s[i] == '\n' then (if i + 1 < |s| && !IsLWS(s[i + 1]) then "\n" else "")
    else [s[i]]
  }

  function Joined(s: string, i: nat): string
    requires i <= |s|
    decreases |s| - i
  {
    if i == |s| then ""
    else if Kept(s, i) == "" then Joined(s, i + 1)
    else Kept(s, i) + Joined(s, i + 1)
  }

  method AssembleRawHeaders(input: string) returns (ok: bool, output: string)
    ensures ok <==> PairedCRs(input, 0)
    ensures ok ==> output == Joined(input, 0)
  {
    hide Joined, Kept, PairedCRs;
    output := "";
    var i := 0;
    assert output + Joined(input, 0) == Joined(input, 0);
    while i < |input|
      invariant 0 <= i <= |input|
      invariant PairedCRs(input, 0) <==> PairedCRs(input, i)
      invariant output + Joined(input, i) == Joined(input, 0)
      decreases |input| - i
    {
      var start := i;
      i := LineEnd(input, i);
      JoinedLine(input, start, i);
      Associates(output, input[start..i], Joined(input, i));
      output := output + input[start..i];
      if i == |input| {
        break;
      }
      ghost var brk := i;
      if input[i] == '\n' {
        i := i + 1;
      } else {
        i := i + 1;
        if i < |input| && input[i] == '\n' {
          i := i + 1;
        } else {
          LoneCR(input, brk);
          return false, output;
        }
      }
      JoinedBreak(input, brk, i);
      if i == |input| {
        break;
      }
      if !IsLWS(input[i]) {
        Associates(output, "\n", Joined(input, i));
        output := output + "\n";
      }
    }
    AtTheEnd(input, output);
    return true, output;
  }

  // The do-while loop: up to the next CR or LF.
  method LineEnd(s: string, begin: nat) returns (i: nat)
    requires begin < |s|
    ensures begin <= i <= |s| && (i < |s| ==> s[i] == '\r' || s[i] == '\n')
    ensures forall j | begin <= j < i :: s[j] != '\r' && s[j] != '\n'
  {
    i := begin;
    while i < |s| && s[i] != '\r' && s[i] != '\n'
      invariant begin <= i <= |s|
      invariant forall j | begin <= j < i :: s[j] != '\r' && s[j] != '\n'
    {
      i := i + 1;
    }
  }

  // A stretch without line breaks is kept as it is.
  lemma {:induction false} JoinedLine(s: string, i: nat, j: nat)
    requires i <= j <= |s| && forall k | i <= k < j :: s[k] != '\r' && s[k] != '\n'
    ensures Joined(s, i) == s[i..j] + Joined(s, j)
    ensures PairedCRs(s, i) <==> PairedCRs(s, j)
    decreases j - i
  {
    hide PairedCRs;
    if i < j {
      JoinedLine(s, i + 1, j);
      PairedStep(s, i);
      assert s[i..j] == [s[i]] + s[i + 1..j];
      Associates([s[i]], s[i + 1..j], Joined(s, j));
    } else {
      assert s[i..j] == "";
    }
  }

  lemma PairedStep(s: string, i: nat)
    requires i < |s| && s[i] != '\r'
    ensures PairedCRs(s, i) <==> PairedCRs(s, i + 1)
  {
  }

  // A line break, LF or CR LF, from `b` up to `i`.
  lemma JoinedBreak(s: string, b: nat, i: nat)
    requires b < i <= |s|
    requires (s[b] == '\n' && i == b + 1) || (s[b] == '\r' && i == b + 2 && s[b + 1] == '\n')
    ensures Joined(s, b) == if i == |s| || IsLWS(s[i]) then Joined(s, i) else "\n" + Joined(s, i)
    ensures PairedCRs(s, b) <==> PairedCRs(s, i)
  {
    if s[b] == '\r' {
      assert Joined(s, b) == Joined(s, b + 1);
    }
  }

  lemma LoneCR(s: string, b: nat)
    requires b < |s| && s[b] == '\r' && !(b + 1 < |s| && s[b + 1] == '\n')
    ensures !PairedCRs(s, b)
  {
  }

  lemma AtTheEnd(s: string, output: string)
    ensures PairedCRs(s, |s|) && output + Joined(s, |s|) == output
  {
  }

  /* ----- What is kept ----- */

  function Visible(s: string): string {
    if s == "" then "" else (if s[0] == '\r' || s[0] == '\n' then "" else [s[0]]) + Visible(s[1..])
  }

  lemma {:induction false} VisibleConcat(s: string, t: string)
    ensures Visible(s + t) == Visible(s) + Visible(t)
  {
    if s == "" {
      assert s + t == t;
    } else {
      assert (s + t)[1..] == s[1..] + t;
      VisibleConcat(s[1..], t);
    }
  }

  // The result has no CR, and exactly the input's other bytes in their order.
  lemma {:induction false} JoinedKeeps(s: string, i: nat)
    requires i <= |s|
    ensures '\r' !in Joined(s, i) && Visible(Joined(s, i)) == Visible(s[i..])
    decreases |s| - i
  {
    if i < |s| {
      JoinedKeeps(s, i + 1);
      VisibleConcat(Kept(s, i), Joined(s, i + 1));
      assert s[i..][1..] == s[i + 1..];
      assert Visible([s[i]]) == (if s[i] == '\r' || s[i] == '\n' then "" else [s[i]]) + Visible([s[i]][1..]);
    }
  }

  // Nothing in the text is folded: after each LF comes a byte that is not LWS.
  predicate Unfolded(r: string) {
    forall j | 0 <= j < |r| && r[j] == '\n' :: j + 1 < |r| && !IsLWS(r[j + 1])
  }

  // A line break before an empty line that is itself followed by LWS or nothing.
  predicate BlankBeforeFold(s: string, i: nat)
    requires i < |s|
  {
    && s[i] == '\n' && i + 1 < |s| && !IsLWS(s[i + 1])
    && var n := if s[i + 1] == '\r' then i + 2 else i + 1;
       n < |s| && s[n] == '\n' && (n + 1 == |s| || IsLWS(s[n + 1]))
  }

  // What comes out first.
  lemma HeadJoined(s: string, i: nat)
    requires i < |s| && PairedCRs(s, i) && !IsLWS(s[i])
    ensures var n := if s[i] == '\r' then i + 1 else i;
            var dropped := s[n] == '\n' && (n + 1 == |s| || IsLWS(s[n + 1]));
            var r := Joined(s, i);
            (r != "" && !IsLWS(r[0])) <==> !dropped
  {
    var n := if s[i] == '\r' then i + 1 else i;
    assert Joined(s, i) == Joined(s, n);
    if n + 1 < |s| && IsLWS(s[n + 1]) {
      assert Kept(s, n + 1) == [s[n + 1]];
    }
  }

  // Joining leaves nothing folded unless an empty line stands before a folded
  // line or the end; exactly then its own line break is kept and leads into LWS
  // or to the end of the text.
  lemma {:induction false} UnfoldedExactly(s: string, i: nat)
    requires i <= |s| && PairedCRs(s, i)
    ensures Unfolded(Joined(s, i)) <==> forall j | i <= j < |s| :: !BlankBeforeFold(s, j)
    decreases |s| - i
  {
    hide PairedCRs, Unfolded;
    if i == |s| {
      UnfoldedEmpty();
    } else {
      PairedStepping(s, i);
      UnfoldedExactly(s, i + 1);
      var r, rest := Joined(s, i), Joined(s, i + 1);
      assert (forall j | i <= j < |s| :: !BlankBeforeFold(s, j)) <==>
             !BlankBeforeFold(s, i) && forall j | i + 1 <= j < |s| :: !BlankBeforeFold(s, j);
      if Kept(s, i) != "" {
        assert r == [s[i]] + rest;
        UnfoldedCons(s[i], rest);
        if s[i] == '\n' {
          HeadJoined(s, i + 1);
        }
      }
    }
  }

  lemma PairedStepping(s: string, i: nat)
    requires i < |s| && PairedCRs(s, i)
    ensures PairedCRs(s, i + 1) && (s[i] == '\r' ==> i + 1 < |s| && s[i + 1] == '\n')
  {
  }

  lemma UnfoldedEmpty()
    ensures Unfolded("")
  {
  }

  lemma UnfoldedCons(c: char, rest: string)
    ensures Unfolded([c] + rest) <==> Unfolded(rest) && (c == '\n' ==> rest != "" && !IsLWS(rest[0]))
  {
    var r := [c] + rest;
    assert r[0] == c && (rest != "" ==> r[1] == rest[0]);
    assert forall j | 0 <= j < |rest| :: rest[j] == r[j + 1];
    if Unfolded(r) {
      forall j | 0 <= j < |rest| && rest[j] == '\n'
        ensures j + 1 < |rest| && !IsLWS(rest[j + 1])
      {
        assert r[j + 1] == '\n';
        assert r[j + 2] == rest[j + 1];
      }
    }
  }
}
