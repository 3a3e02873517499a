/**
 Read boundaries. The connection process is compared with a machine that looks
 at the stripped stream only, and the streams whose framing does not depend on
 how they were cut into reads are found exactly.
 */
module Framing {
  import opened Wrappers
  import opened Search
  import opened Framer

  /* ----- Blocks of newlines ----- */

  lemma {:induction false} SkipInSuffix(s: string, j: nat, i: nat)
    requires j <= i <= |s|
    ensures Skip(s[j..], i - j) == Skip(s, i) - j
    decreases |s| - i
  {
    if NewlineAt(s, i) {
      SkipInSuffix(s, j, if s[i] == '\n' then i + 1 else i + 2);
    }
  }

  // A prefix that holds the whole run, with the same bytes.
  lemma {:induction false} SkipInPrefix(s: string, t: string, i: nat)
    requires i <= |s| && Skip(s, i) <= |t| <= |s| && s[..|t|] == t
    ensures Skip(t, i) == Skip(s, i)
    decreases |s| - i
  {
    assert forall d | 0 <= d < |t| :: s[d] == t[d];
    if NewlineAt(s, i) {
      SkipInPrefix(s, t, if s[i] == '\n' then i + 1 else i + 2);
    }
  }

  // A cut inside the run that does not split a CRLF.
  lemma {:induction false} SkipFromCut(s: string, i: nat, j: nat)
    requires i <= |s| && i <= j <= Skip(s, i) && (j == i || s[j - 1] == '\n')
    ensures Skip(s, j) == Skip(s, i) && Skip(s[..j], i) == j
    decreases |s| - i
  {
    if i < j {
      SkipFromCut(s, if s[i] == '\n' then i + 1 else i + 2, j);
    }
  }

  lemma StripIsStripped(s: string)
    ensures Newlines(Strip(s)) == 0 && Strip(Strip(s)) == Strip(s)
  {
    SkipInSuffix(s, Newlines(s), Newlines(s));
    assert Strip(s)[0..] == Strip(s);
  }

  lemma StripCutInBlock(s: string, j: nat)
    requires j <= Newlines(s) && (j == 0 || s[j - 1] == '\n')
    ensures Strip(s[j..]) == Strip(s) && Strip(s[..j]) == ""
  {
    SkipFromCut(s, 0, j);
    SkipInSuffix(s, j, j);
    assert s[j..][Newlines(s) - j..] == s[Newlines(s)..];
  }

  // A prefix that reaches past the leading newlines.
  lemma StripPrefix(s: string, e: nat)
    requires Newlines(s) <= e <= |s|
    ensures Strip(s[..e]) == Strip(s)[..e - Newlines(s)]
  {
    SkipInPrefix(s, s[..e], 0);
  }

  // Bytes after the leading newlines do not change what follows them.
  lemma StripExtends(s: string, t: string)
    ensures Strip(s + t) == Strip(Strip(s) + t)
    ensures |Strip(s)| >= 2 ==> Strip(s + t) == Strip(s) + t
  {
    var k := Newlines(s);
    assert k > 0 ==> (s + t)[k - 1] == s[k - 1];
    assert (s + t)[..k] == s[..k];
    SkipFromCut(s, 0, k);
    SkipOverPrefix(s + t, k);
    StripCutInBlock(s + t, k);
    assert (s + t)[k..] == Strip(s) + t;
    if |Strip(s)| >= 2 {
      assert Newlines(Strip(s) + t) == 0 by {
        StripIsStripped(s);
        assert !NewlineAt(Strip(s), 0);
        assert forall d | 0 <= d < |Strip(s)| :: (Strip(s) + t)[d] == Strip(s)[d];
      }
    }
  }

  // A prefix of newlines only is skipped.
  lemma {:induction false} SkipOverPrefix(s: string, k: nat)
    requires k <= |s| && Newlines(s[..k]) == k
    ensures k <= Newlines(s)
  {
    SkipOver(s, k, 0);
  }

  lemma {:induction false} SkipOver(s: string, k: nat, i: nat)
    requires i <= k <= |s| && Skip(s[..k], i) == k
    ensures k <= Skip(s, i)
    decreases |s| - i
  {
    if i < k {
      assert NewlineAt(s[..k], i);
      SkipOver(s, k, if s[i] == '\n' then i + 1 else i + 2);
    }
  }

  lemma TerminatorAt(s: string, i: int)
    ensures OccursAt(s, CRLF2, i) <==>
            (0 <= i && i + 4 <= |s| && s[i] == '\r' && s[i + 1] == '\n' && s[i + 2] == '\r' && s[i + 3] == '\n')
    ensures OccursAt(s, LF2, i) <==> (0 <= i && i + 2 <= |s| && s[i] == '\n' && s[i + 1] == '\n')
  {
    if 0 <= i && i + 4 <= |s| {
      var w := s[i..i + 4];
      assert w == CRLF2 <==> w[0] == '\r' && w[1] == '\n' && w[2] == '\r' && w[3] == '\n';
    }
    if 0 <= i && i + 2 <= |s| {
      var w := s[i..i + 2];
      assert w == LF2 <==> w[0] == '\n' && w[1] == '\n';
    }
  }

  // A terminator that starts among the leading newlines ends among them.
  lemma TerminatorInBlock(s: string, i: int)
    requires i < Newlines(s)
    ensures OccursAt(s, CRLF2, i) ==> i + 4 <= Newlines(s)
    ensures OccursAt(s, LF2, i) ==> i + 2 <= Newlines(s)
  {
    hide OccursAt;
    TerminatorAt(s, i);
  }

  // The end of a header block found in `s` lies in the leading newlines, or it
  // is the end found in the stripped bytes.
  lemma HeaderEndStripped(s: string)
    ensures HeaderEnd(s) < 0 ==> HeaderEnd(Strip(s)) < 0
    ensures HeaderEnd(s) > Newlines(s) ==> HeaderEnd(Strip(s)) == HeaderEnd(s) - Newlines(s)
  {
    hide OccursAt, Newlines;
    var k := Newlines(s);
    var i, j := Match(s, CRLF2), Match(s, LF2);
    if i < 0 || i >= k {
      MatchShift(s, CRLF2, k);
    } else {
      TerminatorInBlock(s, i);
    }
    if j < 0 || j >= k {
      MatchShift(s, LF2, k);
    } else {
      TerminatorInBlock(s, j);
    }
  }

  /* ----- The machine on the stripped stream ----- */

  // A header block as the router strips it, and its body.
  datatype Frame = Frame(header: string, body: string)

  // What is still to be framed: stripped bytes, or a body.
  datatype View = Heading(rest: string) | Body(header: string, length: nat, rest: string)

  datatype Outcome = Outcome(frames: seq<Frame>, view: View)

  function Behind(done: seq<Frame>, o: Outcome): Outcome {
    Outcome(done + o.frames, o.view)
  }

  function Resume(v: View, cl: ContentLength): Outcome
    decreases |v.rest|, v.Body?
  {
    match v
    case Heading(p) =>
      var q := Strip(p);
      var e := HeaderEnd(q);
      if e < 0 then Outcome([], Heading(q))
      else (
        match cl(q[..e])
        case Some(n) => Resume(Body(q[..e], n, q[e..]), cl)
        case None => Behind([Frame(q[..e], "")], Resume(Heading(q[e..]), cl))
      )
    case Body(h, n, p) =>
      if |p| < n then Outcome([], v)
      else Behind([Frame(h, p[..n])], Resume(Heading(p[n..]), cl))
  }

  function Sees(v: View, data: string): View {
    match v
    case Heading(p) => Heading(p + data)
    case Body(h, n, p) => Body(h, n, p + data)
  }

  /* ----- The process behaves as the machine does ----- */

  function ViewOf(c: Conn): View {
    match c.state
    case ReadBody(h, n) => Body(Strip(h), n, c.buffer)
    case _ => Heading(Strip(c.buffer))
  }

  // The frames the router sees: empty messages are dropped.
  function Frames(events: seq<Event>): seq<Frame> {
    if events == [] then []
    else if events[0].Stripped? || Strip(Text(events[0])) == "" then Frames(events[1..])
    else [Frame(Strip(events[0].header), events[0].body)] + Frames(events[1..])
  }

  function Observed(r: (Conn, seq<Event>)): Outcome {
    Outcome(Frames(r.1), ViewOf(r.0))
  }

  // A body is awaited only after a header block that asks for it.
  ghost predicate Awaits(c: Conn, cl: ContentLength) {
    c.state.ReadBody? ==>
      |c.state.header| >= 2 && c.state.header[|c.state.header| - 1] == '\n' && cl(c.state.header) == Some(c.state.length)
  }

  lemma {:induction false} FramesOfAll(xs: seq<Event>, ys: seq<Event>)
    ensures Frames(xs + ys) == Frames(xs) + Frames(ys)
  {
    if xs == [] {
      assert xs + ys == ys;
    } else {
      assert (xs + ys)[1..] == xs[1..] + ys;
      FramesOfAll(xs[1..], ys);
    }
  }

  lemma FramesOfFew(e: Event)
    ensures Frames([]) == [] && Frames([e]) ==
            if e.Stripped? || Strip(Text(e)) == "" then [] else [Frame(Strip(e.header), e.body)]
  {
    assert [e][1..] == [];
  }

  lemma ResumeStripped(p: string, cl: ContentLength)
    ensures Resume(Heading(Strip(p)), cl) == Resume(Heading(p), cl)
  {
    StripIsStripped(p);
  }

  // A header block that asks for a body is not made of newlines only.
  lemma AwaitedHeader(h: string, body: string, cl: ContentLength)
    requires Lengths(cl) && |h| >= 2 && h[|h| - 1] == '\n' && cl(h).Some?
    ensures |Strip(h)| >= 2 && Strip(h + body) == Strip(h) + body
  {
    assert cl(h) == cl(Strip(h));
    StripIsStripped(h);
    assert !NewlineAt(Strip(h), 0);
    assert Strip(h) != "" ==> Strip(h)[|Strip(h)| - 1] == '\n';
    StripExtends(h, body);
  }

  ghost predicate Refines(c: Conn, r: Next, cl: ContentLength) {
    match r
    case Return(d) => Awaits(d, cl) && Resume(ViewOf(c), cl) == Outcome([], ViewOf(d))
    case Again(done, d) => Awaits(d, cl) && Resume(ViewOf(c), cl) == Behind(Frames(done), Resume(ViewOf(d), cl))
  }

  lemma IdleRefines(c: Conn, cl: ContentLength)
    requires Lengths(cl) && c.state.Idle?
    ensures Refines(c, Clause(c, cl), cl)
  {
    hide HeaderEnd, Resume, Frames, Strip;
    var b := c.buffer;
    FramesOfFew(Stripped("\r\n"));
    FramesOfFew(Stripped("\n"));
    if b == "" {
      NothingToFrame(cl);
    } else if "\r\n" <= b {
      StripCutInBlock(b, 2);
    } else if "\n" <= b {
      StripCutInBlock(b, 1);
    }
  }

  lemma NothingToFrame(cl: ContentLength)
    ensures Strip("") == "" && Resume(Heading(""), cl) == Outcome([], Heading(""))
  {
  }

  lemma HeaderRefines(c: Conn, cl: ContentLength)
    requires Lengths(cl) && c.state.ReadHeader?
    ensures Refines(c, Clause(c, cl), cl)
  {
    hide HeaderEnd, Frames, Strip;
    var b := c.buffer;
    var k, e := Newlines(b), HeaderEnd(b);
    HeaderEndStripped(b);
    StripIsStripped(b);
    if 0 <= e <= k {
      StripCutInBlock(b, e);
      FramesOfFew(Delivered(b[..e], ""));
      assert b[..e] + "" == b[..e];
      assert cl(b[..e]) == cl(Strip(b[..e]));
    } else if e > k {
      StripPrefix(b, e);
      SuffixOfStripped(b, e);
      FramesOfFew(Delivered(b[..e], ""));
      assert b[..e] + "" == b[..e];
      assert cl(b[..e]) == cl(Strip(b[..e]));
      ResumeStripped(b[e..], cl);
    }
  }

  lemma SuffixOfStripped(s: string, e: nat)
    requires Newlines(s) <= e <= |s|
    ensures Strip(s)[e - Newlines(s)..] == s[e..]
  {
  }

  lemma BodyRefines(c: Conn, cl: ContentLength)
    requires Lengths(cl) && c.state.ReadBody? && Awaits(c, cl)
    ensures Refines(c, Clause(c, cl), cl)
  {
    hide HeaderEnd, Frames, Strip;
    var b, h, n := c.buffer, c.state.header, c.state.length;
    if |b| >= n {
      AwaitedHeader(h, b[..n], cl);
      FramesOfFew(Delivered(h, b[..n]));
      ResumeStripped(b[n..], cl);
    }
  }

  // One call of `parse`, from any state, does what the machine does.
  lemma {:induction false} ParseRefines(c: Conn, cl: ContentLength)
    requires Lengths(cl) && Awaits(c, cl)
    ensures Observed(Parse(c, cl)) == Resume(ViewOf(c), cl)
    ensures Awaits(Parse(c, cl).0, cl)
    decreases |c.buffer|, Rank(c.state)
  {
    hide Clause, Lengths, Awaits, ViewOf, Resume;
    assert Refines(c, Clause(c, cl), cl) by {
      if c.state.Idle? {
        IdleRefines(c, cl);
      } else if c.state.ReadHeader? {
        HeaderRefines(c, cl);
      } else {
        BodyRefines(c, cl);
      }
    }
    match Clause(c, cl)
    case Return(d) =>
    case Again(done, d) =>
      ParseRefines(d, cl);
      FramesOfAll(done, Parse(d, cl).1);
  }

  /* ----- Streams that read boundaries cannot change ----- */

  // No LF LF comes before the CR LF CR LF that ends the header block.
  predicate CleanHeader(q: string) {
    Match(q, CRLF2) < 0 || Match(q, LF2) < 0 || Match(q, CRLF2) < Match(q, LF2)
  }

  // Every header block met along the stream is clean.
  predicate Clean(v: View, cl: ContentLength)
    decreases |v.rest|, v.Body?
  {
    match v
    case Heading(p) =>
      var q := Strip(p);
      var e := HeaderEnd(q);
      CleanHeader(q) && (e < 0 || Clean(AfterHeader(q, e, cl), cl))
    case Body(h, n, p) => |p| < n || Clean(Heading(p[n..]), cl)
  }

  // What follows the header block q[..e].
  function AfterHeader(q: string, e: nat, cl: ContentLength): (v: View)
    requires e <= |q|
    ensures v.rest == q[e..]
  {
    match cl(q[..e])
    case Some(n) => Body(q[..e], n, q[e..])
    case None => Heading(q[e..])
  }

  // The header block as a frame, when it has no body.
  function Headed(h: string, cl: ContentLength): seq<Frame> {
    if cl(h).None? then [Frame(h, "")] else []
  }

  lemma ResumeHeading(p: string, cl: ContentLength)
    ensures var q := Strip(p); var e := HeaderEnd(q);
            Resume(Heading(p), cl) ==
            if e < 0 then Outcome([], Heading(q)) else Behind(Headed(q[..e], cl), Resume(AfterHeader(q, e, cl), cl))
  {
    hide HeaderEnd, Strip;
  }

  // More bytes leave the end of a clean header block where it was.
  lemma HeaderEndExtends(q: string, r: string)
    requires HeaderEnd(q) >= 0 && CleanHeader(q + r)
    ensures HeaderEnd(q + r) == HeaderEnd(q) && CleanHeader(q)
  {
    hide OccursAt;
    MatchExtends(q, r, CRLF2);
    MatchExtends(q, r, LF2);
    TerminatorAt(q + r, Match(q + r, CRLF2));
    TerminatorAt(q + r, Match(q + r, LF2));
  }

  lemma SameAfterHeader(q: string, r: string, e: nat, cl: ContentLength)
    requires e <= |q|
    ensures (q + r)[..e] == q[..e]
    ensures AfterHeader(q + r, e, cl) == Sees(AfterHeader(q, e, cl), r)
  {
    assert (q + r)[..e] == q[..e];
    assert (q + r)[e..] == q[e..] + r;
  }

  // Framing a clean stream in two goes is framing it in one.
  lemma {:induction false} ResumeSplits(v: View, r: string, cl: ContentLength)
    requires Clean(Sees(v, r), cl)
    ensures Clean(v, cl) && Clean(Sees(Resume(v, cl).view, r), cl)
    ensures Resume(Sees(v, r), cl) ==
            Behind(Resume(v, cl).frames, Resume(Sees(Resume(v, cl).view, r), cl))
    decreases |v.rest|, v.Body?
  {
    hide HeaderEnd, Strip, CleanHeader;
    match v
    case Heading(p) =>
      var q := Strip(p);
      var e := HeaderEnd(q);
      StripExtends(p, r);
      ResumeHeading(p, cl);
      ResumeHeading(p + r, cl);
      if e < 0 {
        ResumeHeading(q + r, cl);
        CleanHeaderless(q);
      } else {
        HeaderEndExtends(q, r);
        SameAfterHeader(q, r, e, cl);
        ResumeSplits(AfterHeader(q, e, cl), r, cl);
        var o := Resume(AfterHeader(q, e, cl), cl);
        BehindBehind(Headed(q[..e], cl), o, Resume(Sees(o.view, r), cl));
      }
    case Body(h, n, p) =>
      if |p| >= n {
        assert (p + r)[..n] == p[..n] && (p + r)[n..] == p[n..] + r;
        ResumeSplits(Heading(p[n..]), r, cl);
        var o := Resume(Heading(p[n..]), cl);
        BehindBehind([Frame(h, p[..n])], o, Resume(Sees(o.view, r), cl));
      }
  }

  lemma CleanHeaderless(q: string)
    requires HeaderEnd(q) < 0
    ensures CleanHeader(q)
  {
  }

  lemma BehindBehind(done: seq<Frame>, first: Outcome, second: Outcome)
    ensures Behind(done, Behind(first.frames, second)) == Behind(Behind(done, first).frames, second)
  {
    assert done + (first.frames + second.frames) == (done + first.frames) + second.frames;
  }

  /* ----- Whole connections ----- */

  lemma FedView(c: Conn, data: string, cl: ContentLength)
    requires Awaits(c, cl)
    ensures Resume(ViewOf(Fed(c, data)), cl) == Resume(Sees(ViewOf(c), data), cl)
    ensures Awaits(Fed(c, data), cl)
  {
    hide Strip;
    if !c.state.ReadBody? {
      StripExtends(c.buffer, data);
      ResumeStripped(c.buffer + data, cl);
      ResumeStripped(Strip(c.buffer) + data, cl);
    }
  }

  lemma StoppedView(c: Conn, cl: ContentLength)
    requires Stopped(c)
    ensures Resume(Sees(ViewOf(c), ""), cl) == Outcome([], ViewOf(c))
  {
    hide HeaderEnd, Strip;
    if c.state.ReadBody? {
      assert c.buffer + "" == c.buffer;
    } else {
      assert Strip(c.buffer) + "" == Strip(c.buffer);
      ResumeStripped(c.buffer, cl);
      HeaderEndStripped(c.buffer);
      NothingToFrame(cl);
    }
  }

  lemma SeesTwice(v: View, x: string, y: string)
    ensures Sees(v, x + y) == Sees(Sees(v, x), y)
  {
    assert v.rest + (x + y) == (v.rest + x) + y;
  }

  // Any number of reads of a clean stream does what one go of the machine does.
  lemma {:induction false} FeedRefines(c: Conn, chunks: seq<string>, cl: ContentLength)
    requires Lengths(cl) && Awaits(c, cl) && Stopped(c)
    requires Clean(Sees(ViewOf(c), Joined(chunks)), cl)
    ensures Observed(Feed(c, chunks, cl)) == Resume(Sees(ViewOf(c), Joined(chunks)), cl)
    decreases |chunks|
  {
    hide Parse, Lengths, Awaits, Stopped, ViewOf, Fed, Resume, Clean, Sees;
    if chunks == [] {
      StoppedView(c, cl);
    } else {
      var x, rest := chunks[0], Joined(chunks[1..]);
      FedView(c, x, cl);
      FedHolds(c, x);
      ParseRefines(Fed(c, x), cl);
      ParseConserves(Fed(c, x), cl);
      var first := Parse(Fed(c, x), cl);
      SeesTwice(ViewOf(c), x, rest);
      ResumeSplits(Sees(ViewOf(c), x), rest, cl);
      FeedRefines(first.0, chunks[1..], cl);
      FramesOfAll(first.1, Feed(first.0, chunks[1..], cl).1);
    }
  }

  lemma FreshView(s: string, cl: ContentLength)
    ensures Stopped(FRESH) && Awaits(FRESH, cl) && Sees(ViewOf(FRESH), s) == Heading(s)
  {
    assert "" + s == s;
  }

  lemma JoinedOne(s: string)
    ensures Joined([s]) == s
  {
    assert [s][1..] == [];
  }

  lemma {:induction false} JoinedPrefix(chunks: seq<string>, i: nat)
    requires i <= |chunks|
    ensures Joined(chunks) == Joined(chunks[..i]) + Joined(chunks[i..])
  {
    if i == 0 {
      assert chunks[0..] == chunks;
    } else {
      JoinedPrefix(chunks[1..], i - 1);
      assert chunks[..i][1..] == chunks[1..][..i - 1];
      assert chunks[1..][i - 1..] == chunks[i..];
    }
  }

  // After each read of a clean stream, however it is cut, the router has seen
  // the same frames as if all the bytes so far had come in one read.
  lemma ReadBoundariesDoNotMatter(chunks: seq<string>, i: nat, cl: ContentLength)
    requires Lengths(cl) && Clean(Heading(Joined(chunks)), cl) && i <= |chunks|
    ensures Observed(Feed(FRESH, chunks[..i], cl)) == Observed(Feed(FRESH, [Joined(chunks[..i])], cl))
    ensures Observed(Feed(FRESH, chunks[..i], cl)) == Resume(Heading(Joined(chunks[..i])), cl)
  {
    hide Feed, Lengths, Clean, Resume, ViewOf;
    var s := Joined(chunks[..i]);
    JoinedPrefix(chunks, i);
    ResumeSplits(Heading(s), Joined(chunks[i..]), cl);
    FreshView(s, cl);
    JoinedOne(s);
    FeedRefines(FRESH, chunks[..i], cl);
    FeedRefines(FRESH, [s], cl);
  }

  /* ----- The messages the router parses are the frames, glued ----- */

  function Glued(frames: seq<Frame>): seq<string> {
    if frames == [] then [] else [frames[0].header + frames[0].body] + Glued(frames[1..])
  }

  lemma {:induction false} GluedAll(xs: seq<Frame>, ys: seq<Frame>)
    ensures Glued(xs + ys) == Glued(xs) + Glued(ys)
  {
    if xs == [] {
      assert xs + ys == ys;
    } else {
      assert (xs + ys)[1..] == xs[1..] + ys;
      GluedAll(xs[1..], ys);
    }
  }

  lemma {:induction false} MessagesOfAll(xs: seq<Event>, ys: seq<Event>)
    ensures Messages(xs + ys) == Messages(xs) + Messages(ys)
  {
    if xs == [] {
      assert xs + ys == ys;
    } else {
      assert (xs + ys)[1..] == xs[1..] + ys;
      MessagesOfAll(xs[1..], ys);
    }
  }

  lemma OneMessage(e: Event)
    requires e.Delivered? ==> e.body == "" || Strip(e.header + e.body) == Strip(e.header) + e.body
    ensures Messages([e]) == Glued(Frames([e]))
  {
    hide Strip;
    FramesOfFew(e);
    if e.Delivered? && e.body == "" {
      assert e.header + e.body == e.header;
      assert Strip(e.header) + e.body == Strip(e.header);
    }
  }

  lemma ClauseMessages(c: Conn, cl: ContentLength)
    requires Lengths(cl) && Awaits(c, cl) && Clause(c, cl).Again?
    ensures Messages(Clause(c, cl).done) == Glued(Frames(Clause(c, cl).done))
    ensures Awaits(Clause(c, cl).conn, cl)
  {
    hide HeaderEnd, Strip, Messages, Glued, Frames;
    var done := Clause(c, cl).done;
    if c.state.ReadBody? {
      AwaitedHeader(c.state.header, c.buffer[..c.state.length], cl);
    }
    if done == [] {
      NoMessages();
    } else {
      OneMessage(done[0]);
    }
  }

  lemma NoMessages()
    ensures Messages([]) == [] && Glued(Frames([])) == []
  {
  }

  lemma {:induction false} ParseMessages(c: Conn, cl: ContentLength)
    requires Lengths(cl) && Awaits(c, cl)
    ensures Messages(Parse(c, cl).1) == Glued(Frames(Parse(c, cl).1))
    decreases |c.buffer|, Rank(c.state)
  {
    hide Clause, Lengths, Awaits;
    match Clause(c, cl)
    case Return(d) =>
      NoMessages();
    case Again(done, d) =>
      ClauseMessages(c, cl);
      ParseMessages(d, cl);
      var rest := Parse(d, cl).1;
      FramesOfAll(done, rest);
      MessagesOfAll(done, rest);
      GluedAll(Frames(done), Frames(rest));
  }

  lemma {:induction false} FeedMessages(c: Conn, chunks: seq<string>, cl: ContentLength)
    requires Lengths(cl) && Awaits(c, cl)
    ensures Messages(Feed(c, chunks, cl).1) == Glued(Frames(Feed(c, chunks, cl).1))
    decreases |chunks|
  {
    hide Parse, Lengths, Awaits, Fed;
    if chunks == [] {
      NoMessages();
    } else {
      FedView(c, chunks[0], cl);
      var first := Parse(Fed(c, chunks[0]), cl);
      ParseRefines(Fed(c, chunks[0]), cl);
      ParseMessages(Fed(c, chunks[0]), cl);
      FeedMessages(first.0, chunks[1..], cl);
      var rest := Feed(first.0, chunks[1..], cl).1;
      FramesOfAll(first.1, rest);
      MessagesOfAll(first.1, rest);
      GluedAll(Frames(first.1), Frames(rest));
    }
  }

  // The same independence for the very messages the router parses.
  lemma MessagesDoNotDependOnReads(chunks: seq<string>, cl: ContentLength)
    requires Lengths(cl) && Clean(Heading(Joined(chunks)), cl)
    ensures Messages(Feed(FRESH, chunks, cl).1) == Messages(Feed(FRESH, [Joined(chunks)], cl).1)
  {
    hide Feed, Lengths, Clean, Resume, ViewOf;
    assert chunks[..|chunks|] == chunks;
    ReadBoundariesDoNotMatter(chunks, |chunks|, cl);
    FreshView("", cl);
    FeedMessages(FRESH, chunks, cl);
    FeedMessages(FRESH, [Joined(chunks)], cl);
  }
}
