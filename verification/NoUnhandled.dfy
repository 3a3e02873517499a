/**
 Which runs of the four machines reach `unhandled_event` or crash on a failed
 match. Events are those the router, the timers, the transport and the core can
 produce; `:terminate` is left to the other clause of `unhandled_event`.
 */
module NoUnhandled {
  import opened Wrappers
  import opened Messages
  import opened Transactions
  import CI = ClientInvite
  import SI = ServerInvite
  import CN = ClientNonInvite
  import SN = ServerNonInvite

  // What can happen to a client transaction.
  predicate ClientEvent(timer: Option<Wait>, e: Event) {
    Due(timer, e) && !e.IncomingRequest? && !e.OutgoingResponse? && !e.Terminate?
  }

  // What can happen to a server transaction.
  predicate ServerEvent(timer: Option<Wait>, e: Event) {
    Due(timer, e) && !e.IncomingResponse? && !e.Terminate? && !e.Deadline? && !e.Retry?
  }

  lemma CleanBoth(a: seq<Effect>, b: seq<Effect>)
    ensures Clean(a + b) <==> Clean(a) && Clean(b)
  {
  }

  /* ----- The INVITE client ----- */

  function CiRun(p: CI.Machine, events: seq<Event>): seq<Effect>
    decreases |events|
  {
    if events == [] then [] else var r := CI.Step(p, events[0]); r.1 + CiRun(r.0, events[1..])
  }

  predicate CiDriven(p: CI.Machine, events: seq<Event>)
    decreases |events|
  {
    events == [] ||
    (&& (p.Running? ==> ClientEvent(p.timer, events[0]) && !events[0].Deadline? && !events[0].Retry?)
     && CiDriven(CI.Step(p, events[0]).0, events[1..]))
  }

  predicate CiInv(p: CI.Machine) {
    p.Running? ==>
      match p.state
      case Calling => p.timer.Some? && p.timer.value.content.Backoff?
      case Proceeding => p.timer.None?
      case Completed => p.data.ack.Some?
  }

  lemma CiStep(p: CI.Machine, e: Event)
    requires CiInv(p) && (p.Running? ==> ClientEvent(p.timer, e) && !e.Deadline? && !e.Retry?)
    ensures CiInv(CI.Step(p, e).0) && Clean(CI.Step(p, e).1)
  {
    hide BuildAck;
  }

  lemma {:induction false} CiRuns(p: CI.Machine, events: seq<Event>)
    requires CiInv(p) && CiDriven(p, events)
    ensures Clean(CiRun(p, events))
    decreases |events|
  {
    hide CI.Step, Clean;
    if events == [] {
      CleanNothing();
    } else {
      CiStep(p, events[0]);
      var r := CI.Step(p, events[0]);
      CiRuns(r.0, events[1..]);
      CleanBoth(r.1, CiRun(r.0, events[1..]));
    }
  }

  lemma CleanNothing()
    ensures Clean([])
  {
  }

  lemma InviteClientHandlesAll(q: Request, reliable: bool, timers: Timers, events: seq<Event>)
    requires CiDriven(CI.Start(q, reliable, timers).0, events)
    ensures Clean(CI.Start(q, reliable, timers).1 + CiRun(CI.Start(q, reliable, timers).0, events))
  {
    hide Clean;
    var s := CI.Start(q, reliable, timers);
    assert CiInv(s.0);
    assert Clean(s.1) by { StartClean(Send(q)); assert [] + [Send(q)] == [Send(q)]; }
    CiRuns(s.0, events);
    CleanBoth(s.1, CiRun(s.0, events));
  }

  lemma StartClean(e: Effect)
    requires !e.Unhandled? && !e.Crash?
    ensures Clean([e])
  {
  }

  /* ----- The non-INVITE client ----- */

  function CnRun(p: CN.Machine, events: seq<Event>): seq<Effect>
    decreases |events|
  {
    if events == [] then [] else var r := CN.Step(p, events[0]); r.1 + CnRun(r.0, events[1..])
  }

  // Process timers may be stale, so they are allowed at any time.
  predicate CnDriven(p: CN.Machine, events: seq<Event>)
    decreases |events|
  {
    events == [] ||
    (&& (p.Running? ==> ClientEvent(p.timer, events[0]))
     && CnDriven(CN.Step(p, events[0]).0, events[1..]))
  }

  predicate CnInv(p: CN.Machine) {
    p.Running? && !p.state.Completed? ==> p.timer.None?
  }

  lemma CnStep(p: CN.Machine, e: Event)
    requires CnInv(p) && (p.Running? ==> ClientEvent(p.timer, e))
    ensures CnInv(CN.Step(p, e).0) && Clean(CN.Step(p, e).1)
  {
    hide CN.Cancels;
  }

  lemma {:induction false} CnRuns(p: CN.Machine, events: seq<Event>)
    requires CnInv(p) && CnDriven(p, events)
    ensures Clean(CnRun(p, events))
    decreases |events|
  {
    hide CN.Step, Clean;
    if events == [] {
      CleanNothing();
    } else {
      CnStep(p, events[0]);
      var r := CN.Step(p, events[0]);
      CnRuns(r.0, events[1..]);
      CleanBoth(r.1, CnRun(r.0, events[1..]));
    }
  }

  lemma NonInviteClientHandlesAll(q: Request, reliable: bool, timers: Timers, events: seq<Event>)
    requires CnDriven(CN.Start(q, reliable, timers).0, events)
    ensures Clean(CN.Start(q, reliable, timers).1 + CnRun(CN.Start(q, reliable, timers).0, events))
  {
    var s := CN.Start(q, reliable, timers);
    assert CnInv(s.0) && Clean(s.1);
    hide CnRun, Clean;
    CnRuns(s.0, events);
    CleanBoth(s.1, CnRun(s.0, events));
  }

  /* ----- The INVITE server ----- */

  function SiRun(p: SI.Machine, events: seq<Event>): seq<Effect>
    decreases |events|
  {
    if events == [] then [] else var r := SI.Step(p, events[0]); r.1 + SiRun(r.0, events[1..])
  }

  predicate SiDriven(p: SI.Machine, events: seq<Event>)
    decreases |events|
  {
    events == [] ||
    (&& (p.Running? ==> ServerEvent(p.timer, events[0]))
     && SiDriven(SI.Step(p, events[0]).0, events[1..]))
  }

  // A final response from the core.
  predicate Decides(e: Event) {
    e.OutgoingResponse? && e.answer.Class() >= 2
  }

  // While the transaction lives, the core sends nothing after its own final
  // response. `done` says whether it has sent one.
  predicate SiSilent(p: SI.Machine, events: seq<Event>, done: bool)
    decreases |events|
  {
    events == [] ||
    (&& (p.Running? && done ==> !events[0].OutgoingResponse?)
     && SiSilent(SI.Step(p, events[0]).0, events[1..], done || Decides(events[0])))
  }

  predicate SiInv(p: SI.Machine, done: bool) {
    p.Running? ==>
      match p.state
      case Proceeding => !done && (p.timer.Some? ==> p.timer.value.content.StillTrying?)
      case Completed => done && p.data.last.Some? && p.timer.Some? && p.timer.value.content.Backoff?
      case Confirmed => done && (p.timer.Some? ==> p.timer.value.content.Nothing?)
  }

  lemma SiStep(p: SI.Machine, e: Event, done: bool)
    requires SiInv(p, done) && (p.Running? ==> ServerEvent(p.timer, e))
    ensures SiInv(SI.Step(p, e).0, done || Decides(e))
    ensures Clean(SI.Step(p, e).1) <==> !(p.Running? && done && e.OutgoingResponse?)
  {
    hide EnsureTarget, ToResponse;
  }

  lemma {:induction false} SiRuns(p: SI.Machine, events: seq<Event>, done: bool)
    requires SiInv(p, done) && SiDriven(p, events)
    ensures Clean(SiRun(p, events)) <==> SiSilent(p, events, done)
    decreases |events|
  {
    hide SI.Step, Clean, SiInv, Decides;
    if events == [] {
      CleanNothing();
    } else {
      SiStep(p, events[0], done);
      var r := SI.Step(p, events[0]);
      SiRuns(r.0, events[1..], done || Decides(events[0]));
      CleanBoth(r.1, SiRun(r.0, events[1..]));
    }
  }

  // The INVITE server handles everything exactly when its core keeps silent
  // after its own final response.
  lemma InviteServerHandlesAll(q: Request, reliable: bool, timers: Timers, events: seq<Event>)
    requires SiDriven(SI.Start(q, reliable, timers).0, events)
    ensures Clean(SI.Start(q, reliable, timers).1 + SiRun(SI.Start(q, reliable, timers).0, events))
            <==> SiSilent(SI.Start(q, reliable, timers).0, events, false)
  {
    var s := SI.Start(q, reliable, timers);
    assert SiInv(s.0, false) && Clean(s.1);
    hide SiRun, Clean;
    SiRuns(s.0, events, false);
    CleanBoth(s.1, SiRun(s.0, events));
  }

  /* ----- The non-INVITE server ----- */

  function SnRun(p: SN.Machine, events: seq<Event>): seq<Effect>
    decreases |events|
  {
    if events == [] then [] else var r := SN.Step(p, events[0]); r.1 + SnRun(r.0, events[1..])
  }

  predicate SnDriven(p: SN.Machine, events: seq<Event>)
    decreases |events|
  {
    events == [] ||
    (&& (p.Running? ==> ServerEvent(p.timer, events[0]))
     && SnDriven(SN.Step(p, events[0]).0, events[1..]))
  }

  predicate SnSilent(p: SN.Machine, events: seq<Event>, done: bool)
    decreases |events|
  {
    events == [] ||
    (&& (p.Running? && done ==> !events[0].OutgoingResponse?)
     && SnSilent(SN.Step(p, events[0]).0, events[1..], done || Decides(events[0])))
  }

  predicate SnInv(p: SN.Machine, done: bool) {
    p.Running? ==>
      match p.state
      case Trying => !done && p.timer.None?
      case Proceeding => !done && p.timer.None? && p.data.last.Some?
      case Completed => done && p.data.last.Some?
  }

  lemma SnStep(p: SN.Machine, e: Event, done: bool)
    requires SnInv(p, done) && (p.Running? ==> ServerEvent(p.timer, e))
    ensures SnInv(SN.Step(p, e).0, done || Decides(e))
    ensures Clean(SN.Step(p, e).1) <==> !(p.Running? && done && e.OutgoingResponse?)
  {
    hide EnsureTarget;
  }

  lemma {:induction false} SnRuns(p: SN.Machine, events: seq<Event>, done: bool)
    requires SnInv(p, done) && SnDriven(p, events)
    ensures Clean(SnRun(p, events)) <==> SnSilent(p, events, done)
    decreases |events|
  {
    hide SN.Step, Clean, SnInv, Decides;
    if events == [] {
      CleanNothing();
    } else {
      SnStep(p, events[0], done);
      var r := SN.Step(p, events[0]);
      SnRuns(r.0, events[1..], done || Decides(events[0]));
      CleanBoth(r.1, SnRun(r.0, events[1..]));
    }
  }

  lemma NonInviteServerHandlesAll(q: Request, reliable: bool, timers: Timers, events: seq<Event>)
    requires SnDriven(SN.Start(q, reliable, timers).0, events)
    ensures Clean(SN.Start(q, reliable, timers).1 + SnRun(SN.Start(q, reliable, timers).0, events))
            <==> SnSilent(SN.Start(q, reliable, timers).0, events, false)
  {
    var s := SN.Start(q, reliable, timers);
    assert SnInv(s.0, false) && Clean(s.1);
    hide SnRun, Clean;
    SnRuns(s.0, events, false);
    CleanBoth(s.1, SnRun(s.0, events));
  }
}
