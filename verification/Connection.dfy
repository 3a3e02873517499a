/**
 The connection process of lib/sippet/transports/tcp/connection.ex as an object:
 its buffer, parse state and timer change with each read.
 */
module Connection {
  import opened Concatenation
  import opened Framer
  import opened Framing

  class Process {
    const cl: ContentLength
    var buffer: string
    var state: ParseState
    var timer: Timer
    // Everything read so far, and everything done about it.
    ghost var received: string
    ghost var log: seq<Event>

    function Now(): Conn
      reads this
    {
      Conn(buffer, state, timer)
    }

    // Nothing is lost, no work is left undone, and a clean stream has been
    // framed as a whole, however it was cut.
    ghost predicate Valid()
      reads this
    {
      && Stopped(Now()) && Awaits(Now(), cl)
      && Bytes(log) + Held(Now()) == received
      && (Clean(Heading(received), cl) ==> Observed((Now(), log)) == Resume(Heading(received), cl))
    }

    constructor (cl: ContentLength)
      ensures Valid() && Now() == FRESH && received == "" && log == [] && this.cl == cl
    {
      this.cl := cl;
      buffer, state, timer := "", Idle, IdleTimer;
      received, log := "", [];
    }

    // The `:tcp` message: append, parse, and hand the messages to the router.
    method HandleTcp(data: string) returns (messages: seq<string>)
      requires Valid() && Lengths(cl)
      modifies this
      ensures Valid() && received == old(received) + data
      ensures Now() == Parse(Fed(old(Now()), data), cl).0
      ensures log == old(log) + Parse(Fed(old(Now()), data), cl).1
      ensures messages == Messages(Parse(Fed(old(Now()), data), cl).1)
    {
      hide Parse, Lengths, Stopped, Awaits, Clean, Resume, ViewOf, Fed, Held;
      ghost var before := Now();
      FedHolds(before, data);
      FedView(before, data, cl);
      ParseConserves(Fed(before, data), cl);
      ParseRefines(Fed(before, data), cl);
      var r := Parse(Conn(buffer + data, state, timer), cl);
      FedIs(before, data);
      Grows(received, log, before, data, r, cl);
      buffer, state, timer := r.0.buffer, r.0.state, r.0.timer;
      received, log := received + data, log + r.1;
      assert Now() == r.0;
      messages := Messages(r.1);
    }
  }

  lemma FedIs(c: Conn, data: string)
    ensures Fed(c, data) == Conn(c.buffer + data, c.state, c.timer)
  {
  }

  // One more read extends the framing of a clean stream, and the account of bytes.
  lemma Grows(received: string, log: seq<Event>, c: Conn, data: string, r: (Conn, seq<Event>), cl: ContentLength)
    requires Bytes(log) + Held(c) == received
    requires Clean(Heading(received), cl) ==> Observed((c, log)) == Resume(Heading(received), cl)
    requires Bytes(r.1) + Held(r.0) == Held(c) + data
    requires Observed(r) == Resume(Sees(ViewOf(c), data), cl)
    ensures Bytes(log + r.1) + Held(r.0) == received + data
    ensures Clean(Heading(received + data), cl) ==>
              Observed((r.0, log + r.1)) == Resume(Heading(received + data), cl)
  {
    hide Clean, Resume, ViewOf, Held;
    BytesOfAll(log, r.1);
    Associates(Bytes(log), Bytes(r.1), Held(r.0));
    Associates(Bytes(log), Held(c), data);
    if Clean(Heading(received + data), cl) {
      ResumeSplits(Heading(received), data, cl);
      FramesOfAll(log, r.1);
    }
  }
}
