/**
 Exactly which streams are framed alike however they are cut into reads, and
 that streams of well-formed frames are among them.
 */
module Boundaries {
  import opened Wrappers
  import opened Search
  import opened Framer
  import opened Framing

  /* ----- A stream that is not clean has a cut that changes its framing ----- */

  function Upto(v: View, k: nat): View
    requires k <= |v.rest|
  {
    match v case Heading(p) => Heading(p[..k]) case Body(h, n, p) => Body(h, n, p[..k])
  }

  // The stream framed in two goes, cut after `k` bytes.
  function InTwo(v: View, k: nat, cl: ContentLength): Outcome
    requires k <= |v.rest|
  {
    var o := Resume(Upto(v, k), cl);
    Behind(o.frames, Resume(Sees(o.view, v.rest[k..]), cl))
  }

  function FirstHeader(o: Outcome): Option<string> {
    if o.frames != [] then Some(o.frames[0].header)
    else if o.view.Body? then Some(o.view.header)
    else None
  }

  lemma FirstOf(q: string, e: nat, cl: ContentLength)
    requires e <= |q|
    ensures FirstHeader(Behind(Headed(q[..e], cl), Resume(AfterHeader(q, e, cl), cl))) == Some(q[..e])
  {
  }

  // A first header block, once found, stays the first.
  lemma FirstStays(o: Outcome, r: string, cl: ContentLength)
    requires FirstHeader(o).Some?
    ensures FirstHeader(Behind(o.frames, Resume(Sees(o.view, r), cl))) == FirstHeader(o)
  {
    if o.frames == [] {
      assert Sees(o.view, r) == Body(o.view.header, o.view.length, o.view.rest + r);
    }
  }

  lemma HeaderEndOfPrefix(q: string, m: nat)
    requires CleanHeader(q) && 0 <= HeaderEnd(q) <= m <= |q|
    ensures HeaderEnd(q[..m]) == HeaderEnd(q)
  {
    assert q == q[..m] + q[m..];
    MatchExtends(q[..m], q[m..], CRLF2);
    MatchExtends(q[..m], q[m..], LF2);
  }

  // Right after an LF LF that comes first, it is taken for the terminator.
  lemma EarlyEnd(q: string)
    requires !CleanHeader(q)
    ensures var m := Match(q, LF2) + 2; 2 <= m <= |q| && HeaderEnd(q[..m]) == m && HeaderEnd(q) > m
  {
    hide OccursAt, Match;
    EarlyMatches(q);
  }

  lemma EarlyMatches(q: string)
    requires !CleanHeader(q)
    ensures var m := Match(q, LF2) + 2; 2 <= m <= |q| && Match(q[..m], LF2) == m - 2 && Match(q[..m], CRLF2) < 0
  {
    hide OccursAt, Match;
    var m := Match(q, LF2) + 2;
    TerminatorAt(q, m - 2);
    assert q == q[..m] + q[m..];
    MatchExtends(q[..m], q[m..], CRLF2);
    MatchExtends(q[..m], q[m..], LF2);
    TerminatorAt(q[..m], Match(q[..m], CRLF2));
    TerminatorAt(q[..m], m - 2);
  }

  lemma BehindInjective(done: seq<Frame>, a: Outcome, b: Outcome)
    requires a != b
    ensures Behind(done, a) != Behind(done, b)
  {
    assert (done + a.frames)[|done|..] == a.frames;
    assert (done + b.frames)[|done|..] == b.frames;
  }

  lemma UncleanHeader(p: string, cl: ContentLength) returns (k: nat)
    requires !CleanHeader(Strip(p))
    ensures k <= |p| && InTwo(Heading(p), k, cl) != Resume(Heading(p), cl)
  {
    hide Strip, HeaderEnd, CleanHeader;
    var q := Strip(p);
    var m := Match(q, LF2) + 2;
    EarlyEnd(q);
    StripLength(p);
    k := Newlines(p) + m;
    StripPrefix(p, k);
    ResumeHeading(p, cl);
    ResumeHeading(p[..k], cl);
    FirstOf(q, HeaderEnd(q), cl);
    FirstOf(q[..m], m, cl);
    FirstStays(Resume(Heading(p[..k]), cl), p[k..], cl);
    assert |q[..m][..m]| != |q[..HeaderEnd(q)]|;
  }

  lemma StripLength(p: string)
    ensures |Strip(p)| == |p| - Newlines(p)
  {
  }

  // Cutting after a clean header block moves the question to what follows it.
  lemma CutAfterHeader(p: string, k: nat, cl: ContentLength)
    requires CleanHeader(Strip(p)) && HeaderEnd(Strip(p)) >= 0
    requires HeaderEnd(Strip(p)) + k <= |Strip(p)|
    ensures Newlines(p) + HeaderEnd(Strip(p)) + k <= |p|
    ensures var q := Strip(p); var e := HeaderEnd(q);
            InTwo(Heading(p), Newlines(p) + e + k, cl) == Behind(Headed(q[..e], cl), InTwo(AfterHeader(q, e, cl), k, cl))
  {
    hide HeaderEnd, CleanHeader, Resume, AfterHeader, Headed, Newlines, Skip;
    var q := Strip(p);
    var e := HeaderEnd(q);
    var j := Newlines(p) + e + k;
    var m := e + k;
    StripPrefix(p, j);
    HeaderEndOfPrefix(q, m);
    ResumeHeading(p[..j], cl);
    assert q[..m][..e] == q[..e];
    assert p[j..] == q[e..][k..];
    UptoAfterHeader(q, e, k, cl);
    var o := Resume(AfterHeader(q[..m], e, cl), cl);
    BehindBehind(Headed(q[..e], cl), o, Resume(Sees(o.view, p[j..]), cl));
  }

  lemma UptoAfterHeader(q: string, e: nat, k: nat, cl: ContentLength)
    requires e + k <= |q|
    ensures AfterHeader(q[..e + k], e, cl) == Upto(AfterHeader(q, e, cl), k)
  {
    var m := e + k;
    assert q[..m][..e] == q[..e];
    assert q[..m][e..] == q[e..][..k];
  }

  lemma ResumeBody(h: string, n: nat, p: string, cl: ContentLength)
    requires n <= |p|
    ensures Resume(Body(h, n, p), cl) == Behind([Frame(h, p[..n])], Resume(Heading(p[n..]), cl))
  {
  }

  lemma CutAfterBody(h: string, n: nat, p: string, k: nat, cl: ContentLength)
    requires n + k <= |p|
    ensures InTwo(Body(h, n, p), n + k, cl) == Behind([Frame(h, p[..n])], InTwo(Heading(p[n..]), k, cl))
  {
    hide Resume;
    var m := n + k;
    ResumeBody(h, n, p[..m], cl);
    assert p[..m][..n] == p[..n];
    assert p[..m][n..] == p[n..][..k];
    assert p[m..] == p[n..][k..];
    var o := Resume(Heading(p[n..][..k]), cl);
    BehindBehind([Frame(h, p[..n])], o, Resume(Sees(o.view, p[m..]), cl));
  }

  lemma {:induction false} UncleanSplits(v: View, cl: ContentLength) returns (k: nat)
    requires !Clean(v, cl)
    ensures k <= |v.rest| && InTwo(v, k, cl) != Resume(v, cl)
    decreases |v.rest|, v.Body?
  {
    hide HeaderEnd, CleanHeader, Strip, InTwo;
    match v
    case Heading(p) =>
      var q := Strip(p);
      var e := HeaderEnd(q);
      if !CleanHeader(q) {
        k := UncleanHeader(p, cl);
      } else {
        var j := UncleanSplits(AfterHeader(q, e, cl), cl);
        CutAfterHeader(p, j, cl);
        ResumeHeading(p, cl);
        BehindInjective(Headed(q[..e], cl), InTwo(AfterHeader(q, e, cl), j, cl), Resume(AfterHeader(q, e, cl), cl));
        k := Newlines(p) + e + j;
      }
    case Body(h, n, p) =>
      var j := UncleanSplits(Heading(p[n..]), cl);
      CutAfterBody(h, n, p, j, cl);
      BehindInjective([Frame(h, p[..n])], InTwo(Heading(p[n..]), j, cl), Resume(Heading(p[n..]), cl));
      k := n + j;
  }

  // What two reads of a fresh connection do.
  lemma TwoReads(s: string, k: nat, cl: ContentLength)
    requires Lengths(cl) && k <= |s|
    ensures Observed(Feed(FRESH, [s[..k], s[k..]], cl)) == InTwo(Heading(s), k, cl)
    ensures Observed(Feed(FRESH, [s], cl)) == Resume(Heading(s), cl)
  {
    hide Parse, Lengths, Awaits, Resume, Stopped;
    var x, y := s[..k], s[k..];
    FreshView(s, cl);
    FreshView(x, cl);
    OneRead(FRESH, s, cl);
    OneRead(FRESH, x, cl);
    var first := Feed(FRESH, [x], cl);
    OneRead(first.0, y, cl);
    assert [x, y][1..] == [y];
    var second := Feed(first.0, [y], cl);
    assert Feed(FRESH, [x, y], cl) == (second.0, first.1 + second.1);
    FramesOfAll(first.1, second.1);
  }

  lemma OneRead(c: Conn, data: string, cl: ContentLength)
    requires Lengths(cl) && Awaits(c, cl)
    ensures Feed(c, [data], cl) == Parse(Fed(c, data), cl)
    ensures Observed(Feed(c, [data], cl)) == Resume(Sees(ViewOf(c), data), cl)
    ensures Awaits(Feed(c, [data], cl).0, cl)
  {
    hide Parse, Lengths, Awaits, Resume, Sees, ViewOf;
    FedView(c, data, cl);
    ParseRefines(Fed(c, data), cl);
    var first := Parse(Fed(c, data), cl);
    assert [data][1..] == [];
    assert first.1 + [] == first.1;
  }

  // No cut changes the frames or the state in which the connection waits if and
  // only if the stream is clean.
  lemma ExactlyTheCleanStreams(s: string, cl: ContentLength)
    requires Lengths(cl)
    ensures Clean(Heading(s), cl) <==>
            forall k | 0 <= k <= |s| ::
              Observed(Feed(FRESH, [s[..k], s[k..]], cl)) == Observed(Feed(FRESH, [s], cl))
  {
    hide Feed, Clean, Lengths, Resume, InTwo;
    if Clean(Heading(s), cl) {
      forall k | 0 <= k <= |s|
        ensures Observed(Feed(FRESH, [s[..k], s[k..]], cl)) == Observed(Feed(FRESH, [s], cl))
      {
        var chunks := [s[..k], s[k..]];
        assert chunks[1..] == [s[k..]];
        JoinedOne(s[k..]);
        assert Joined(chunks) == s[..k] + s[k..] == s;
        assert chunks[..2] == chunks;
        ReadBoundariesDoNotMatter(chunks, 2, cl);
      }
    } else {
      var k := UncleanSplits(Heading(s), cl);
      TwoReads(s, k, cl);
    }
  }

  // The smallest kind of offending stream: a blank line inside a header block.
  lemma InnerBlankLine()
    ensures !CleanHeader("a\n\nb\r\n\r\n")
  {
    var s := "a\n\nb\r\n\r\n";
    assert s[1..3] == LF2 && OccursAt(s, LF2, 1);
    assert s[4..8] == CRLF2 && OccursAt(s, CRLF2, 4);
    TerminatorAt(s, 0);
    TerminatorAt(s, 1);
    assert Match(s, CRLF2) > 1;
  }

  /* ----- An unclean stream goes on so that even the messages differ ----- */

  // A length found in complete lines is found there whatever follows, as it is by
  // the regular expression, whose match ends in a digit.
  ghost predicate Stable(cl: ContentLength) {
    forall h: string, t: string | h != "" && h[|h| - 1] == '\n' && cl(h).Some? :: cl(h + t) == cl(h)
  }

  predicate Inline(t: string) {
    forall i | 0 <= i < |t| :: t[i] != '\n' && t[i] != '\r'
  }

  function GluedText(f: Frame): string {
    f.header + f.body
  }

  function BodyLength(h: string, cl: ContentLength): nat {
    match cl(h) case Some(n) => n case None => 0
  }

  // Text without line breaks brings no terminator.
  lemma InlineKeepsMatches(q: string, t: string)
    requires Inline(t)
    ensures Match(q + t, CRLF2) == Match(q, CRLF2) && Match(q + t, LF2) == Match(q, LF2)
  {
    hide OccursAt;
    MatchExtends(q, t, CRLF2);
    MatchExtends(q, t, LF2);
    TerminatorAt(q + t, Match(q + t, CRLF2));
    TerminatorAt(q + t, Match(q + t, LF2));
  }

  lemma InlineKeepsHeader(q: string, t: string)
    requires Inline(t)
    ensures HeaderEnd(q + t) == HeaderEnd(q) && CleanHeader(q + t) == CleanHeader(q)
  {
    InlineKeepsMatches(q, t);
  }

  lemma LongHeader(p: string, t: string)
    requires HeaderEnd(Strip(p)) >= 0
    ensures Strip(p + t) == Strip(p) + t && Newlines(p + t) == Newlines(p)
  {
    hide HeaderEnd, Newlines, Skip;
    StripExtends(p, t);
    StripLength(p);
    StripLength(p + t);
  }

  // The first frame of a stream that holds a whole message.
  lemma FirstFrame(p: string, cl: ContentLength)
    requires var q := Strip(p); HeaderEnd(q) >= 0 && HeaderEnd(q) + BodyLength(q[..HeaderEnd(q)], cl) <= |q|
    ensures var e := HeaderEnd(Strip(p)); var frames := Resume(Heading(p), cl).frames;
            frames != [] && |GluedText(frames[0])| == e + BodyLength(Strip(p)[..e], cl)
  {
    hide HeaderEnd, Strip;
    ResumeHeading(p, cl);
  }

  // The first frame when the stream is cut where its header block ends.
  lemma FirstOfTwo(p: string, k: nat, cl: ContentLength)
    requires k <= |p| && HeaderEnd(Strip(p[..k])) == |Strip(p[..k])|
    requires BodyLength(Strip(p[..k]), cl) <= |p| - k
    ensures var h := Strip(p[..k]); var frames := InTwo(Heading(p), k, cl).frames;
            frames != [] && |GluedText(frames[0])| == |h| + BodyLength(h, cl)
  {
    hide HeaderEnd, Strip;
    var h := Strip(p[..k]);
    ResumeHeading(p[..k], cl);
    assert h[..|h|] == h && h[|h|..] == "";
    match cl(h)
    case None =>
    case Some(n) =>
      BodyOfTwo(h, n, p[k..], cl);
  }

  lemma BodyOfTwo(h: string, n: nat, r: string, cl: ContentLength)
    requires n <= |r|
    ensures var o := Resume(Body(h, n, ""), cl); var frames := o.frames + Resume(Sees(o.view, r), cl).frames;
            frames != [] && |GluedText(frames[0])| == |h| + n
  {
    hide HeaderEnd, Strip;
    assert "" + r == r;
    if n > 0 {
      ResumeBody(h, n, r, cl);
    }
  }

  function Filler(n: nat): (t: string)
    ensures |t| == n && Inline(t)
  {
    seq(n, _ => 'x')
  }

  // At the first unclean header block the two framings differ in the length of
  // the message that begins there.
  lemma UncleanFiller(p: string, cl: ContentLength) returns (t: string, k: nat)
    requires Stable(cl) && !CleanHeader(Strip(p))
    ensures Inline(t) && k <= |p|
    ensures Glued(InTwo(Heading(p + t), k, cl).frames) != Glued(Resume(Heading(p + t), cl).frames)
  {
    hide HeaderEnd, CleanHeader, Strip, Newlines, InTwo, Resume, Stable, Inline, BodyLength, Glued;
    var q := Strip(p);
    var m, e := Match(q, LF2) + 2, HeaderEnd(q);
    EarlyEnd(q);
    t := Filler(BodyLength(q[..e], cl));
    k := Newlines(p) + m;
    StripLength(p);
    LengthsDiffer(q, m, e, cl);
    UncleanFrames(p, m, t, cl);
    GluedLengths(InTwo(Heading(p + t), k, cl).frames, Resume(Heading(p + t), cl).frames);
  }

  lemma GluedLengths(xs: seq<Frame>, ys: seq<Frame>)
    requires xs != [] && ys != [] && |GluedText(xs[0])| != |GluedText(ys[0])|
    ensures Glued(xs) != Glued(ys)
  {
    assert Glued(xs)[0] == GluedText(xs[0]) && Glued(ys)[0] == GluedText(ys[0]);
  }

  lemma UncleanFrames(p: string, m: nat, t: string, cl: ContentLength)
    requires var q := Strip(p);
             && m < HeaderEnd(q) && HeaderEnd(q[..m]) == m
             && Inline(t) && |t| == BodyLength(q[..HeaderEnd(q)], cl)
             && m + BodyLength(q[..m], cl) < HeaderEnd(q) + |t|
    ensures Newlines(p) + m <= |p|
    ensures var xs, ys := InTwo(Heading(p + t), Newlines(p) + m, cl).frames, Resume(Heading(p + t), cl).frames;
            && xs != [] && |GluedText(xs[0])| == m + BodyLength(Strip(p)[..m], cl)
            && ys != [] && |GluedText(ys[0])| == HeaderEnd(Strip(p)) + |t|
  {
    hide HeaderEnd, CleanHeader, Strip, Newlines, InTwo, Resume, Inline, BodyLength, GluedText;
    var q := Strip(p);
    var e, k := HeaderEnd(q), Newlines(p) + m;
    StripLength(p);
    LongHeader(p, t);
    InlineKeepsHeader(q, t);
    StripPrefix(p, k);
    assert (p + t)[..k] == p[..k] && (q + t)[..e] == q[..e];
    FirstFrame(p + t, cl);
    FirstOfTwo(p + t, k, cl);
  }

  lemma LengthsDiffer(q: string, m: nat, e: nat, cl: ContentLength)
    requires Stable(cl) && 0 < m < e <= |q| && q[m - 1] == '\n'
    ensures m + BodyLength(q[..m], cl) < e + BodyLength(q[..e], cl)
  {
    if cl(q[..m]).Some? {
      assert q[..e] == q[..m] + q[m..e];
    }
  }

  lemma GluedBehind(done: seq<Frame>, a: Outcome, b: Outcome)
    requires Glued(a.frames) != Glued(b.frames)
    ensures Glued(Behind(done, a).frames) != Glued(Behind(done, b).frames)
  {
    GluedAll(done, a.frames);
    GluedAll(done, b.frames);
    assert (Glued(done) + Glued(a.frames))[|Glued(done)|..] == Glued(a.frames);
    assert (Glued(done) + Glued(b.frames))[|Glued(done)|..] == Glued(b.frames);
  }

  lemma {:induction false} UncleanTells(v: View, cl: ContentLength) returns (t: string, k: nat)
    requires Stable(cl) && !Clean(v, cl)
    ensures Inline(t) && k <= |v.rest|
    ensures Glued(InTwo(Sees(v, t), k, cl).frames) != Glued(Resume(Sees(v, t), cl).frames)
    decreases |v.rest|, v.Body?
  {
    hide HeaderEnd, CleanHeader, Strip, InTwo, Stable, Inline;
    match v
    case Heading(p) =>
      var q := Strip(p);
      var e := HeaderEnd(q);
      if !CleanHeader(q) {
        t, k := UncleanFiller(p, cl);
      } else {
        var j: nat;
        t, j := UncleanTells(AfterHeader(q, e, cl), cl);
        StripLength(p);
        LongHeader(p, t);
        InlineKeepsHeader(q, t);
        SameAfterHeader(q, t, e, cl);
        CutAfterHeader(p + t, j, cl);
        ResumeHeading(p + t, cl);
        var w := AfterHeader(q + t, e, cl);
        GluedBehind(Headed(q[..e], cl), InTwo(w, j, cl), Resume(w, cl));
        k := Newlines(p) + e + j;
      }
    case Body(h, n, p) =>
      var j: nat;
      t, j := UncleanTells(Heading(p[n..]), cl);
      k := n + j;
      assert (p + t)[n..] == p[n..] + t;
      ResumeBody(h, n, p + t, cl);
      CutAfterBody(h, n, p + t, j, cl);
      GluedBehind([Frame(h, (p + t)[..n])], InTwo(Heading(p[n..] + t), j, cl), Resume(Heading(p[n..] + t), cl));
  }

  // Text without line breaks leaves a stream clean.
  lemma {:induction false} InlineStaysClean(v: View, t: string, cl: ContentLength)
    requires Inline(t) && Clean(v, cl)
    ensures Clean(Sees(v, t), cl)
    decreases |v.rest|, v.Body?
  {
    hide HeaderEnd, CleanHeader, Strip, Inline;
    match v
    case Heading(p) =>
      var q := Strip(p);
      var e := HeaderEnd(q);
      if e < 0 {
        InlineHeaderless(p, t);
      } else {
        LongHeader(p, t);
        InlineKeepsHeader(q, t);
        SameAfterHeader(q, t, e, cl);
        InlineStaysClean(AfterHeader(q, e, cl), t, cl);
      }
    case Body(h, n, p) =>
      if |p| >= n {
        assert (p + t)[n..] == p[n..] + t;
        InlineStaysClean(Heading(p[n..]), t, cl);
      } else if |p + t| >= n {
        InlineRest(p, t, n, cl);
      }
  }

  lemma InlineHeaderless(p: string, t: string)
    requires Inline(t) && HeaderEnd(Strip(p)) < 0
    ensures HeaderEnd(Strip(p + t)) < 0 && CleanHeader(Strip(p + t))
  {
    StripExtends(p, t);
    InlineKeepsHeader(Strip(p), t);
    HeaderEndStripped(Strip(p) + t);
    CleanHeaderless(Strip(p + t));
  }

  // What is left behind a body that ends among the text.
  lemma InlineRest(p: string, t: string, n: nat, cl: ContentLength)
    requires Inline(t) && |p| < n <= |p + t|
    ensures Clean(Heading((p + t)[n..]), cl)
  {
    var r := t[n - |p|..];
    assert (p + t)[n..] == r && Inline(r);
    NothingHeaded();
    assert "" + r == r;
    InlineHeaderless("", r);
  }

  lemma NothingHeaded()
    ensures Strip("") == "" && HeaderEnd("") < 0
  {
  }

  // An unclean stream can go on so that a cut in it changes the messages that the
  // router parses.
  lemma UncleanMessages(s: string, cl: ContentLength) returns (t: string, k: nat)
    requires Lengths(cl) && Stable(cl) && !Clean(Heading(s), cl)
    ensures Inline(t) && k <= |s| && !SameMessages(s + t, k, cl)
  {
    hide Feed, Clean, Lengths, Stable, Resume, InTwo, Inline;
    t, k := UncleanTells(Heading(s), cl);
    TwoReads(s + t, k, cl);
    FreshView("", cl);
    FeedMessages(FRESH, [(s + t)[..k], (s + t)[k..]], cl);
    FeedMessages(FRESH, [s + t], cl);
  }

  // A cut after `k` bytes does not change the messages that the router parses.
  predicate SameMessages(s: string, k: nat, cl: ContentLength)
    requires k <= |s|
  {
    Messages(Feed(FRESH, [s[..k], s[k..]], cl).1) == Messages(Feed(FRESH, [s], cl).1)
  }

  lemma CleanMessages(s: string, k: nat, cl: ContentLength)
    requires Lengths(cl) && Clean(Heading(s), cl) && k <= |s|
    ensures SameMessages(s, k, cl)
  {
    hide Feed, Clean, Lengths;
    var chunks := [s[..k], s[k..]];
    assert chunks[1..] == [s[k..]];
    JoinedOne(s[k..]);
    assert Joined(chunks) == s[..k] + s[k..] == s;
    MessagesDoNotDependOnReads(chunks, cl);
  }

  // No cut of the stream, or of it with part of a line behind it, changes the
  // messages that the router parses if and only if the stream is clean.
  lemma ExactlyTheCleanMessages(s: string, cl: ContentLength)
    requires Lengths(cl) && Stable(cl)
    ensures Clean(Heading(s), cl) <==>
            forall t, k | Inline(t) && 0 <= k <= |s + t| :: SameMessages(s + t, k, cl)
  {
    hide Clean, Lengths, Stable, Inline, SameMessages;
    if Clean(Heading(s), cl) {
      forall t, k | Inline(t) && 0 <= k <= |s + t|
        ensures SameMessages(s + t, k, cl)
      {
        InlineStaysClean(Heading(s), t, cl);
        CleanMessages(s + t, k, cl);
      }
    } else {
      var t, k := UncleanMessages(s, cl);
    }
  }

  /* ----- Streams of frames ----- */

  datatype Piece = Padding | Message(header: string, body: string)

  function PieceBytes(p: Piece): string {
    match p case Padding => "\r\n" case Message(h, b) => h + b
  }

  function StreamBytes(pieces: seq<Piece>): string {
    if pieces == [] then "" else PieceBytes(pieces[0]) + StreamBytes(pieces[1..])
  }

  function FramesIn(pieces: seq<Piece>): seq<Frame> {
    if pieces == [] then []
    else if pieces[0].Padding? then FramesIn(pieces[1..])
    else [Frame(pieces[0].header, pieces[0].body)] + FramesIn(pieces[1..])
  }

  // A header block that starts with a line, ends with its only CR LF CR LF, has
  // no LF LF, and announces the length of the body that follows.
  ghost predicate WellFramed(p: Piece, cl: ContentLength) {
    p.Message? ==>
      && |p.header| >= 4 && Match(p.header, CRLF2) == |p.header| - 4
      && Match(p.header, LF2) < 0 && !NewlineAt(p.header, 0)
      && |p.body| == (match cl(p.header) case Some(n) => n case None => 0)
  }

  lemma MessageHead(h: string, t: string)
    requires |h| >= 4 && Match(h, CRLF2) == |h| - 4 && Match(h, LF2) < 0 && !NewlineAt(h, 0)
    ensures Strip(h + t) == h + t && CleanHeader(h + t) && HeaderEnd(h + t) == |h|
  {
    assert (h + t)[0] == h[0] && (h + t)[1] == h[1];
    assert (h + t)[0..] == h + t;
    MatchExtends(h, t, CRLF2);
    MatchExtends(h, t, LF2);
  }

  lemma {:induction false} FramedStream(pieces: seq<Piece>, cl: ContentLength)
    requires forall p | p in pieces :: WellFramed(p, cl)
    ensures Clean(Heading(StreamBytes(pieces)), cl)
    ensures Resume(Heading(StreamBytes(pieces)), cl) == Outcome(FramesIn(pieces), Heading(""))
  {
    hide HeaderEnd, CleanHeader, Strip;
    if pieces == [] {
      EmptyStream(cl);
    } else {
      var p, t := pieces[0], StreamBytes(pieces[1..]);
      FramedStream(pieces[1..], cl);
      match p
      case Padding =>
        PaddingIsStripped(t, cl);
      case Message(h, b) =>
        MessageFirst(h, b, t, cl);
    }
  }

  lemma EmptyStream(cl: ContentLength)
    ensures Clean(Heading(""), cl) && Resume(Heading(""), cl) == Outcome([], Heading(""))
  {
  }

  lemma PaddingIsStripped(t: string, cl: ContentLength)
    ensures Resume(Heading("\r\n" + t), cl) == Resume(Heading(t), cl)
    ensures Clean(Heading("\r\n" + t), cl) == Clean(Heading(t), cl)
  {
    hide HeaderEnd, CleanHeader, Strip;
    var s := "\r\n" + t;
    assert s[2..] == t;
    assert s[1] == '\n';
    StripCutInBlock(s, 2);
  }

  lemma MessageFirst(h: string, b: string, t: string, cl: ContentLength)
    requires WellFramed(Message(h, b), cl)
    ensures Resume(Heading(h + b + t), cl) == Behind([Frame(h, b)], Resume(Heading(t), cl))
    ensures Clean(Heading(h + b + t), cl) == Clean(Heading(t), cl)
  {
    hide HeaderEnd, CleanHeader, Strip, NewlineAt, Match;
    var s := h + (b + t);
    assert s == h + b + t;
    MessageHead(h, b + t);
    ResumeHeading(s, cl);
    assert s[..|h|] == h && s[|h|..] == b + t;
    assert (b + t)[..|b|] == b && (b + t)[|b|..] == t;
    if cl(h).None? {
      assert b + t == t;
    }
  }

  // However a stream of frames and padding is cut into reads, exactly its frames
  // are seen.
  lemma FramesArrive(pieces: seq<Piece>, chunks: seq<string>, cl: ContentLength)
    requires Lengths(cl) && forall p | p in pieces :: WellFramed(p, cl)
    requires Joined(chunks) == StreamBytes(pieces)
    ensures Observed(Feed(FRESH, chunks, cl)) == Outcome(FramesIn(pieces), Heading(""))
  {
    hide Feed, Clean, Lengths, WellFramed, ViewOf;
    FramedStream(pieces, cl);
    assert chunks[..|chunks|] == chunks;
    ReadBoundariesDoNotMatter(chunks, |chunks|, cl);
  }
}
