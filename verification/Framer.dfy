/**
 lib/sippet/transports/tcp/connection.ex: cutting the bytes of a TCP connection
 into SIP messages, read by read, and what the router makes of each delivery.
 Bytes are `char`s. Content-Length extraction is a parameter `cl`.
 */
module Framer {
  import opened Wrappers
  import opened Concatenation
  import opened Search

  /* ----- The connection process ----- */

  datatype ParseState = Idle | ReadHeader | ReadBody(header: string, length: nat)

  datatype Timer = NoTimer | IdleTimer | MessageTimer

  datatype Conn = Conn(buffer: string, state: ParseState, timer: Timer)

  datatype Event = Stripped(newline: string) | Delivered(header: string, body: string)

  type ContentLength = string -> Option<nat>

  const CRLF2: string := "\r\n\r\n"
  const LF2: string := "\n\n"

  function HeaderEnd(b: string): (e: int)
    ensures e == -1 || (2 <= e <= |b| && b[e - 1] == '\n')
  {
    var i := Match(b, CRLF2);
    if i >= 0 then
      assert b[i + 3] == b[i..i + 4][3];
      i + 4
    else
      var j := Match(b, LF2);
      if j >= 0 then
        assert b[j + 1] == b[j..j + 2][1];
        j + 2
      else -1
  }

  function Rank(s: ParseState): nat {
    match s case Idle => 1 case ReadHeader => 0 case ReadBody(_, _) => 2
  }

  // Where one clause of `parse` leads: it returns, or calls `parse` again.
  datatype Next = Return(conn: Conn) | Again(done: seq<Event>, conn: Conn)

  function Clause(c: Conn, cl: ContentLength): (r: Next)
    ensures r.Again? ==> |r.conn.buffer| < |c.buffer|
                         || (|r.conn.buffer| == |c.buffer| && Rank(r.conn.state) < Rank(c.state))
  {
    var b := c.buffer;
    match c.state
    case Idle =>
      if b == "" then Return(c.(timer := IdleTimer))
      else if "\r\n" <= b then Again([Stripped("\r\n")], c.(buffer := b[2..]))
      else if "\n" <= b then Again([Stripped("\n")], c.(buffer := b[1..]))
      else Again([], c.(state := ReadHeader, timer := MessageTimer))
    case ReadHeader =>
      var e := HeaderEnd(b);
      if e < 0 then Return(c)
      else (
        match cl(b[..e])
        case Some(n) => Again([], c.(buffer := b[e..], state := ReadBody(b[..e], n)))
        case None => Again([Delivered(b[..e], "")], c.(buffer := b[e..], state := Idle))
      )
    case ReadBody(h, n) =>
      if |b| < n then Return(c)
      else Again([Delivered(h, b[..n])], c.(buffer := b[n..], state := Idle))
  }

  function Parse(c: Conn, cl: ContentLength): (Conn, seq<Event>)
    decreases |c.buffer|, Rank(c.state)
  {
    match Clause(c, cl)
    case Return(d) => (d, [])
    case Again(done, d) => var r := Parse(d, cl); (r.0, done + r.1)
  }

  function Fed(c: Conn, data: string): Conn {
    c.(buffer := c.buffer + data)
  }

  // The connection after a list of reads, and everything it did.
  function Feed(c: Conn, chunks: seq<string>, cl: ContentLength): (Conn, seq<Event>)
    decreases |chunks|
  {
    if chunks == [] then (c, [])
    else
      var first := Parse(Fed(c, chunks[0]), cl);
      var rest := Feed(first.0, chunks[1..], cl);
      (rest.0, first.1 + rest.1)
  }

  function Joined(chunks: seq<string>): string {
    if chunks == [] then "" else chunks[0] + Joined(chunks[1..])
  }

  const FRESH := Conn("", Idle, IdleTimer)

  /* ----- Nothing is lost, and parsing goes as far as it can ----- */

  function Text(e: Event): string {
    match e case Stripped(n) => n case Delivered(h, b) => h + b
  }

  function Bytes(events: seq<Event>): string {
    if events == [] then "" else Text(events[0]) + Bytes(events[1..])
  }

  function Held(c: Conn): string {
    if c.state.ReadBody? then c.state.header + c.buffer else c.buffer
  }

  ghost predicate Stopped(c: Conn) {
    match c.state
    case Idle => c.buffer == "" && c.timer == IdleTimer
    case ReadHeader => HeaderEnd(c.buffer) < 0 && c.timer == MessageTimer
    case ReadBody(_, n) => |c.buffer| < n && c.timer == MessageTimer
  }

  predicate Timed(c: Conn) {
    !c.state.Idle? ==> c.timer == MessageTimer
  }

  lemma BytesOfFew(e: Event)
    ensures Bytes([]) == "" && Bytes([e]) == Text(e)
  {
    assert Bytes([e]) == Text(e) + Bytes([e][1..]);
  }

  lemma ClauseConserves(c: Conn, cl: ContentLength)
    requires Timed(c)
    ensures var r := Clause(c, cl);
            match r
            case Return(d) => Held(d) == Held(c) && Stopped(d)
            case Again(done, d) => Bytes(done) + Held(d) == Held(c) && Timed(d)
  {
    hide HeaderEnd, Bytes;
    var b := c.buffer;
    match c.state
    case Idle =>
      IdleConserves(c, cl);
    case ReadHeader =>
      if HeaderEnd(b) >= 0 {
        var h := b[..HeaderEnd(b)];
        BytesOfFew(Delivered(h, ""));
        assert h + "" == h && h + b[HeaderEnd(b)..] == b;
      }
    case ReadBody(h, n) =>
      if |b| >= n {
        BytesOfFew(Delivered(h, b[..n]));
        Associates(h, b[..n], b[n..]);
        assert b == b[..n] + b[n..];
      }
  }

  lemma IdleConserves(c: Conn, cl: ContentLength)
    requires c.state.Idle?
    ensures var r := Clause(c, cl);
            match r
            case Return(d) => Held(d) == Held(c) && Stopped(d)
            case Again(done, d) => Bytes(done) + Held(d) == Held(c) && Timed(d)
  {
    hide HeaderEnd, Bytes;
    var b := c.buffer;
    BytesOfFew(Stripped("\r\n"));
    BytesOfFew(Stripped("\n"));
    if "\r\n" <= b {
      assert "\r\n" + b[2..] == b;
    } else if "\n" <= b {
      assert "\n" + b[1..] == b;
    }
  }

  lemma {:induction false} BytesOfAll(xs: seq<Event>, ys: seq<Event>)
    ensures Bytes(xs + ys) == Bytes(xs) + Bytes(ys)
  {
    if xs == [] {
      assert xs + ys == ys;
    } else {
      assert (xs + ys)[1..] == xs[1..] + ys && (xs + ys)[0] == xs[0];
      BytesOfAll(xs[1..], ys);
      hide Text;
      Associates(Text(xs[0]), Bytes(xs[1..]), Bytes(ys));
    }
  }

  lemma {:induction false} ParseConserves(c: Conn, cl: ContentLength)
    requires Timed(c)
    ensures Bytes(Parse(c, cl).1) + Held(Parse(c, cl).0) == Held(c)
    ensures Stopped(Parse(c, cl).0)
    decreases |c.buffer|, Rank(c.state)
  {
    hide Clause, Held, Stopped, Timed;
    ClauseConserves(c, cl);
    match Clause(c, cl)
    case Return(d) =>
    case Again(done, d) =>
      ParseConserves(d, cl);
      BytesOfAll(done, Parse(d, cl).1);
      Associates(Bytes(done), Bytes(Parse(d, cl).1), Held(Parse(d, cl).0));
  }

  lemma FedHolds(c: Conn, data: string)
    requires Stopped(c)
    ensures Held(Fed(c, data)) == Held(c) + data && Timed(Fed(c, data))
  {
  }

  lemma {:induction false} FeedConserves(c: Conn, chunks: seq<string>, cl: ContentLength)
    requires Stopped(c)
    ensures Bytes(Feed(c, chunks, cl).1) + Held(Feed(c, chunks, cl).0) == Held(c) + Joined(chunks)
    ensures Stopped(Feed(c, chunks, cl).0)
    decreases |chunks|
  {
    hide Parse, Held, Stopped, Fed, Timed;
    if chunks != [] {
      var first := Parse(Fed(c, chunks[0]), cl);
      FedHolds(c, chunks[0]);
      ParseConserves(Fed(c, chunks[0]), cl);
      FeedConserves(first.0, chunks[1..], cl);
      var rest := Feed(first.0, chunks[1..], cl);
      BytesOfAll(first.1, rest.1);
      Associates(Bytes(first.1), Bytes(rest.1), Held(rest.0));
      Associates(Bytes(first.1), Held(first.0), Joined(chunks[1..]));
      Associates(Held(c), chunks[0], Joined(chunks[1..]));
    }
  }

  /* ----- Keep-alive pings ----- */

  predicate IsPing(s: string) {
    s == "\r\n" || s == "\n"
  }

  // Each ping as it is stripped, and a CR LF answered.
  function Pongs(pings: seq<string>): seq<Event> {
    if pings == [] then [] else [Stripped(pings[0])] + Pongs(pings[1..])
  }

  // Pings that come while no message is read are stripped one by one, each as it was
  // sent, and leave the connection idle.
  lemma {:induction false} PingsAreStripped(c: Conn, pings: seq<string>, cl: ContentLength)
    requires c.state.Idle? && c.buffer == Joined(pings) && forall p | p in pings :: IsPing(p)
    ensures Parse(c, cl) == (Conn("", Idle, IdleTimer), Pongs(pings))
    decreases |pings|
  {
    if pings != [] {
      var b, rest := c.buffer, Joined(pings[1..]);
      assert pings[0] in pings;
      assert b == pings[0] + rest;
      assert b[0] == pings[0][0] && b[|pings[0]|..] == rest;
      PingsAreStripped(c.(buffer := rest), pings[1..], cl);
    }
  }

  /* ----- What the router does with a delivery ----- */

  predicate NewlineAt(s: string, i: nat) {
    i < |s| && (s[i] == '\n' || (i + 1 < |s| && s[i] == '\r' && s[i + 1] == '\n'))
  }

  // The first position from `i` on after a run of newlines.
  function Skip(s: string, i: nat): (k: nat)
    requires i <= |s|
    ensures i <= k <= |s| && !NewlineAt(s, k)
    ensures k > i ==> s[k - 1] == '\n'
    decreases |s| - i
  {
    if i == |s| then i
    else if s[i] == '\n' then Skip(s, i + 1)
    else if NewlineAt(s, i) then Skip(s, i + 2)
    else i
  }

  // Leading newlines, which `handle_transport_message` drops one by one.
  function Newlines(s: string): (k: nat)
    ensures k <= |s|
  {
    Skip(s, 0)
  }

  function Strip(s: string): (r: string)
    ensures |r| <= |s|
  {
    s[Newlines(s)..]
  }

  // The messages that reach the parser: stripped, and not at all when empty.
  function Messages(events: seq<Event>): seq<string> {
    if events == [] then []
    else if events[0].Stripped? || Strip(Text(events[0])) == "" then Messages(events[1..])
    else [Strip(Text(events[0]))] + Messages(events[1..])
  }

  ghost predicate Lengths(cl: ContentLength) {
    (forall h :: cl(h) == cl(Strip(h))) && cl("") == None
  }
}
