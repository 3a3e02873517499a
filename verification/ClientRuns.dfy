/**
 What any run of a client transaction amounts to: what it sends, what its core
 hears, and how it ends, as functions of the events it handled.
 lib/sippet/transactions/client/invite.ex and non_invite.ex.
 */
module ClientRuns {
  import opened Wrappers
  import opened Messages
  import opened Transactions
  import opened NoUnhandled
  import CI = ClientInvite
  import CN = ClientNonInvite

  /* ----- The INVITE client ----- */

  function CiEnd(p: CI.Machine, events: seq<Event>): CI.Machine
    decreases |events|
  {
    if events == [] then p else CiEnd(CI.Step(p, events[0]).0, events[1..])
  }

  // The events that the transaction lives to handle.
  function CiHandled(p: CI.Machine, events: seq<Event>): seq<Event>
    decreases |events|
  {
    if events == [] || p.Stopped? then [] else [events[0]] + CiHandled(CI.Step(p, events[0]).0, events[1..])
  }

  function Refusals(rs: seq<Message>): nat {
    if rs == [] then 0 else (if Refusal(rs[0]) then 1 else 0) + Refusals(rs[1..])
  }

  // One ACK for each refusal, all of them built for the first.
  function Acks(q: Request, rs: seq<Message>): seq<Message> {
    if rs == [] then []
    else if Refusal(rs[0]) then Copies(BuildAck(q, rs[0]), Refusals(rs))
    else Acks(q, rs[1..])
  }

  // A timeout comes last.
  predicate TimesOut(es: seq<Event>) {
    es != [] && es[|es| - 1].Timeout?
  }

  lemma TimesOutMore(e: Event, es: seq<Event>)
    ensures TimesOut(es) ==> TimesOut([e] + es)
    ensures e.Timeout? ==> TimesOut([e])
  {
  }

  // Timeouts before anything is heard.
  function Ticks(es: seq<Event>): nat {
    if es == [] || es[0].IncomingResponse? then 0 else (if es[0].Timeout? then 1 else 0) + Ticks(es[1..])
  }

  lemma {:induction false} CiOver(p: CI.Machine, events: seq<Event>)
    requires p.Stopped?
    ensures CiRun(p, events) == [] && CiEnd(p, events) == p && CiHandled(p, events) == []
    decreases |events|
  {
    if events != [] {
      CiOver(p, events[1..]);
    }
  }

  // One more event at the front.
  lemma CiMore(p: CI.Machine, events: seq<Event>)
    requires events != [] && p.Running?
    ensures var (r, rest) := (CI.Step(p, events[0]), events[1..]);
            && TallyOf(CiRun(p, events)) == Both(TallyOf(r.1), TallyOf(CiRun(r.0, rest)))
            && CiEnd(p, events) == CiEnd(r.0, rest)
            && CiHandled(p, events) == [events[0]] + CiHandled(r.0, rest)
            && (CiDriven(p, events) ==> CiDriven(r.0, rest) && ClientEvent(p.timer, events[0])
                                        && !events[0].Deadline? && !events[0].Retry?)
  {
    hide CI.Step, TallyOf, ClientEvent;
    var r := CI.Step(p, events[0]);
    TallyConcat(r.1, CiRun(r.0, events[1..]));
  }

  // What a run from `p` brings: the core hears the responses through the first
  // final one; `n` requests go out, then the ACKs; a failure or a final
  // response, not both, ends the wait.
  ghost predicate CiBrings(p: CI.Machine, events: seq<Event>, n: nat)
    requires p.Running?
  {
    var q, es, end := p.data.request, CiHandled(p, events), CiEnd(p, events);
    var t := TallyOf(CiRun(p, events));
    && t.told == ThroughFinal(Responses(es))
    && t.sends == Copies<Message>(q, n) + Acks(q, Responses(es))
    && n <= Ticks(es) <= n + t.errors
    && t.errors + Finals(t.told) == (if end.Running? && !end.state.Completed? then 0 else 1)
    && (end.Running? && end.state.Completed? ==>
          !p.data.reliable && end.timer == Some(Wait(p.data.timers.d, Nothing)))
    && (end.Stopped? && !p.data.reliable && Refusals(Responses(es)) > 0 ==> TimesOut(es))
  }

  lemma CompletedStep(p: CI.Machine, e: Event)
    requires p.Running? && p.state.Completed? && p.data.ack.Some?
    requires ClientEvent(p.timer, e) && !e.Deadline? && !e.Retry?
    ensures var (r, es) := CI.Step(p, e);
            && TallyOf(es) == Tally(if e.IncomingResponse? && Refusal(e.response) then [p.data.ack.value] else [], [], 0)
            && (r == p || (r.Stopped? && e.Timeout?))
  {
    TallyOne(Send(p.data.ack.value));
  }

  // Each copy of a refusal is acknowledged, and no more; the wait is not prolonged.
  ghost predicate CiRepeats(p: CI.Machine, ack: Message, events: seq<Event>) {
    && TallyOf(CiRun(p, events)) ==
       Tally(Copies<Message>(ack, Refusals(Responses(CiHandled(p, events)))), [], 0)
    && (CiEnd(p, events) == p || CiEnd(p, events).Stopped?)
    && (p.Running? && CiEnd(p, events).Stopped? ==> TimesOut(CiHandled(p, events)))
  }

  lemma {:induction false} CiCompleted(p: CI.Machine, events: seq<Event>)
    requires p.Running? && p.state.Completed? && p.data.ack.Some? && CiDriven(p, events)
    ensures CiRepeats(p, p.data.ack.value, events)
    decreases |events|
  {
    hide CI.Step, CiRepeats, ClientEvent, CiDriven;
    if events == [] {
      CiNothing(p, p.data.ack.value);
    } else {
      var r := CI.Step(p, events[0]).0;
      CiMore(p, events);
      CompletedStep(p, events[0]);
      if r.Stopped? {
        CiOverRepeats(r, p.data.ack.value, events[1..]);
      } else {
        CiCompleted(p, events[1..]);
      }
      CompletedMore(p, events);
    }
  }

  lemma CompletedMore(p: CI.Machine, events: seq<Event>)
    requires p.Running? && p.state.Completed? && p.data.ack.Some? && CiDriven(p, events) && events != []
    requires CiRepeats(CI.Step(p, events[0]).0, p.data.ack.value, events[1..])
    ensures CiRepeats(p, p.data.ack.value, events)
  {
    hide CI.Step, CiRun, CiEnd, CiHandled, CiDriven, TallyOf, Refusals, Responses, Copies;
    CiMore(p, events);
    CompletedStep(p, events[0]);
    var es := CiHandled(CI.Step(p, events[0]).0, events[1..]);
    HeardMore(events[0], es);
    OneCopyMore<Message>(p.data.ack.value, Refusals(Responses(es)));
    if CI.Step(p, events[0]).0.Stopped? {
      CiOver(CI.Step(p, events[0]).0, events[1..]);
    }
  }

  lemma CiOverRepeats(p: CI.Machine, ack: Message, events: seq<Event>)
    requires p.Stopped?
    ensures CiRepeats(p, ack, events)
  {
    CiOver(p, events);
  }

  lemma CiNothing(p: CI.Machine, ack: Message)
    ensures CiRepeats(p, ack, [])
  {
  }

  lemma HeardMore(e: Event, es: seq<Event>)
    ensures Responses([e] + es) == (if e.IncomingResponse? then [e.response] + Responses(es) else Responses(es))
    ensures Refusals(Responses([e] + es)) ==
            (if e.IncomingResponse? && Refusal(e.response) then 1 else 0) + Refusals(Responses(es))
    ensures Ticks([e] + es) == if e.IncomingResponse? then 0 else (if e.Timeout? then 1 else 0) + Ticks(es)
  {
    assert ([e] + es)[1..] == es;
    if e.IncomingResponse? {
      assert ([e.response] + Responses(es))[1..] == Responses(es);
    }
  }

  // What the INVITE client does while it waits for a final response.
  lemma WaitingStep(p: CI.Machine, e: Event)
    requires p.Running? && !p.state.Completed? && CiInv(p)
    requires ClientEvent(p.timer, e) && !e.Deadline? && !e.Retry?
    ensures var (r, es) := CI.Step(p, e);
            var t := TallyOf(es);
            && CiInv(r)
            && (r.Running? ==>
                  && r.data.request == p.data.request && r.data.timers == p.data.timers
                  && r.data.reliable == p.data.reliable)
            && match e
               case IncomingResponse(m) =>
                 && t == Tally(if Refusal(m) then [BuildAck(p.data.request, m)] else [], [m], 0)
                 && (if !Final(m) then r.Running? && r.state.Proceeding?
                     else if !Refusal(m) || p.data.reliable then r.Stopped?
                     else
                       && r.Running? && r.state.Completed? && r.data.ack == Some(BuildAck(p.data.request, m))
                       && r.timer == Some(Wait(p.data.timers.d, Nothing)))
               case _ =>
                 if r.Running? then e.Timeout? && p.state == r.state == CI.Calling && t == Tally([p.data.request], [], 0)
                 else (e.Timeout? || e.TransportError?) && t == FAILURE
  {
    hide BuildAck;
    TallyOne(CoreError);
    TallyOne(Send(p.data.request));
    if e.IncomingResponse? {
      var m := e.response;
      TallyOne(ToCore(m));
      TallyOne(Send(BuildAck(p.data.request, m)));
      TallyTwo(ToCore(m), Send(BuildAck(p.data.request, m)));
      assert [ToCore(m)] + [] == [ToCore(m)];
    }
  }

  lemma {:induction false} CiWaiting(p: CI.Machine, events: seq<Event>) returns (n: nat)
    requires p.Running? && !p.state.Completed? && CiInv(p) && CiDriven(p, events)
    ensures CiBrings(p, events, n) && (p.state.Proceeding? ==> n == 0)
    decreases |events|
  {
    hide CI.Step, CiBrings, CiRepeats, CiInv, ClientEvent, CiDriven, Refusal, Final;
    n := 0;
    if events == [] {
      CiUntouched(p);
    } else {
      var (e, rest) := (events[0], events[1..]);
      var r := CI.Step(p, e).0;
      CiMore(p, events);
      WaitingStep(p, e);
      if e.IncomingResponse? && Final(e.response) {
        if r.Stopped? {
          CiOverRepeats(r, BuildAck(p.data.request, e.response), rest);
        } else {
          CiCompleted(r, rest);
        }
        CiFinal(p, events);
      } else if e.IncomingResponse? {
        n := CiWaiting(r, rest);
        CiProvisional(p, events);
      } else if r.Stopped? {
        CiFails(p, events);
      } else {
        n := CiWaiting(r, rest);
        CiResends(p, events, n);
        n := n + 1;
      }
    }
  }

  lemma CiUntouched(p: CI.Machine)
    requires p.Running? && !p.state.Completed?
    ensures CiBrings(p, [], 0)
  {
  }

  lemma CiFinal(p: CI.Machine, events: seq<Event>)
    requires p.Running? && !p.state.Completed? && CiInv(p) && CiDriven(p, events)
    requires events != [] && events[0].IncomingResponse? && Final(events[0].response)
    requires CiRepeats(CI.Step(p, events[0]).0, BuildAck(p.data.request, events[0].response), events[1..])
    ensures CiBrings(p, events, 0)
  {
    hide CI.Step, CiRun, CiEnd, CiHandled, CiDriven, TallyOf, Responses, BuildAck, ThroughFinal, Ticks, CiInv, Acks;
    var m := events[0].response;
    var r := CI.Step(p, events[0]).0;
    CiMore(p, events);
    WaitingStep(p, events[0]);
    var es := CiHandled(r, events[1..]);
    HeardMore(events[0], es);
    ThroughFinalMore(m, Responses(es));
    AcksMore(p.data.request, m, Responses(es));
    if r.Stopped? {
      CiOver(r, events[1..]);
      NothingHeard(p.data.request);
    }
    OneCopyMore<Message>(BuildAck(p.data.request, m), Refusals(Responses(es)));
  }

  lemma NothingHeard(q: Request)
    ensures Responses([]) == [] && Acks(q, []) == [] && Refusals([]) == 0
  {
  }

  lemma ThroughFinalMore(m: Message, rs: seq<Message>)
    ensures ThroughFinal([m] + rs) == [m] + if Final(m) then [] else ThroughFinal(rs)
    ensures Finals([m] + rs) == (if Final(m) then 1 else 0) + Finals(rs)
    ensures Finals([]) == 0
  {
    assert ([m] + rs)[1..] == rs;
  }

  lemma AcksMore(q: Request, m: Response, rs: seq<Message>)
    ensures Acks(q, [m] + rs) ==
            if Refusal(m) then Copies(BuildAck(q, m), Refusals(rs) + 1) else Acks(q, rs)
  {
    hide BuildAck;
    assert ([m] + rs)[1..] == rs;
  }

  lemma CiProvisional(p: CI.Machine, events: seq<Event>)
    requires p.Running? && !p.state.Completed? && CiInv(p) && CiDriven(p, events)
    requires events != [] && events[0].IncomingResponse? && !Final(events[0].response)
    requires CI.Step(p, events[0]).0.Running? && CiBrings(CI.Step(p, events[0]).0, events[1..], 0)
    ensures CiBrings(p, events, 0)
  {
    hide CI.Step, CiRun, CiEnd, CiHandled, CiDriven, TallyOf, Responses, BuildAck, ThroughFinal, Ticks, CiInv, Acks, Finals;
    var m := events[0].response;
    var r := CI.Step(p, events[0]).0;
    CiMore(p, events);
    WaitingStep(p, events[0]);
    var es := CiHandled(r, events[1..]);
    HeardMore(events[0], es);
    ThroughFinalMore(m, Responses(es));
    ThroughFinalMore(m, ThroughFinal(Responses(es)));
    AcksMore(p.data.request, m, Responses(es));
  }

  lemma CiFails(p: CI.Machine, events: seq<Event>)
    requires p.Running? && !p.state.Completed? && CiInv(p) && CiDriven(p, events)
    requires events != [] && !events[0].IncomingResponse? && CI.Step(p, events[0]).0.Stopped?
    ensures CiBrings(p, events, 0)
  {
    hide CI.Step, CiRun, CiEnd, CiHandled, CiDriven, TallyOf, BuildAck, CiInv;
    var r := CI.Step(p, events[0]).0;
    CiMore(p, events);
    WaitingStep(p, events[0]);
    CiOver(r, events[1..]);
    HeardMore(events[0], []);
    assert TallyOf([]) == NO_EFFECT by { NoTally(); }
  }

  lemma CiResends(p: CI.Machine, events: seq<Event>, n: nat)
    requires p.Running? && !p.state.Completed? && CiInv(p) && CiDriven(p, events)
    requires events != [] && !events[0].IncomingResponse?
    requires CI.Step(p, events[0]).0.Running? && CiBrings(CI.Step(p, events[0]).0, events[1..], n)
    ensures CiBrings(p, events, n + 1)
  {
    hide CI.Step, CiRun, CiEnd, CiHandled, CiDriven, TallyOf, BuildAck, CiInv, Responses, ThroughFinal, Acks, Finals;
    hide Ticks, TimesOut, Refusals;
    var r := CI.Step(p, events[0]).0;
    CiMore(p, events);
    WaitingStep(p, events[0]);
    var es := CiHandled(r, events[1..]);
    HeardMore(events[0], es);
    TimesOutMore(events[0], es);
    assert CiHandled(p, events) == [events[0]] + es;
    assert Responses(CiHandled(p, events)) == Responses(es);
    OneCopyMore<Message>(p.data.request, n);
    var acks := Acks(p.data.request, Responses(es));
    assert [p.data.request] + (Copies<Message>(p.data.request, n) + acks) == Copies<Message>(p.data.request, n + 1) + acks;
    var rest := TallyOf(CiRun(r, events[1..]));
    assert TallyOf(CiRun(p, events)) == Tally([p.data.request] + rest.sends, [] + rest.told, 0 + rest.errors);
    assert [] + rest.told == rest.told;
  }

  // Every run of the INVITE client: requests until something is heard, then one
  // ACK for each refusal, all built for the first; the core hears every response
  // through the first final one, or an error instead of that one, never both;
  // copies of the refusal do not prolong the wait for timer D, which there is on an
  // unreliable transport only and which alone ends it.
  lemma InviteClientRun(q: Request, reliable: bool, timers: Timers, events: seq<Event>) returns (n: nat)
    requires CiDriven(CI.Start(q, reliable, timers).0, events)
    ensures var (p, first) := CI.Start(q, reliable, timers);
            var (es, end, t) := (CiHandled(p, events), CiEnd(p, events), TallyOf(first + CiRun(p, events)));
            && t.told == ThroughFinal(Responses(es))
            && t.sends == Copies<Message>(q, 1 + n) + Acks(q, Responses(es))
            && n <= Ticks(es) <= n + t.errors
            && t.errors + Finals(t.told) == (if end.Running? && !end.state.Completed? then 0 else 1)
            && (end.Running? && end.state.Completed? ==> !reliable && end.timer == Some(Wait(timers.d, Nothing)))
            && (end.Stopped? && !reliable && Refusals(Responses(es)) > 0 ==> TimesOut(es))
            && (end.Running? ==> CiErrors(end))
  {
    CiStart(q, reliable, timers);
    hide CI.Start, CI.Step, CiRun, CiEnd, CiHandled, CiDriven, CiInv, TallyOf, Responses, ThroughFinal, Acks, Finals;
    hide Ticks, Copies;
    var p := CI.Start(q, reliable, timers).0;
    n := CiWaiting(p, events);
    if CiEnd(p, events).Running? {
      CiFailing(CiEnd(p, events));
    }
    TallyConcat(CI.Start(q, reliable, timers).1, CiRun(p, events));
    OneCopyMore<Message>(q, n);
    assert [q] + (Copies<Message>(q, n) + Acks(q, Responses(CiHandled(p, events))))
        == Copies<Message>(q, 1 + n) + Acks(q, Responses(CiHandled(p, events)));
  }

  // An error of the transport is reported before the final response only, and being
  // told to stop never is.
  ghost predicate CiErrors(p: CI.Machine)
    requires p.Running?
  {
    && CI.Step(p, TransportError) == (if p.state.Completed? then (p, []) else (Stopped, [CoreError]))
    && CI.Step(p, Terminate) == (Stopped, [])
  }

  lemma CiFailing(p: CI.Machine)
    requires p.Running?
    ensures CiErrors(p)
  {
  }

  lemma CiStart(q: Request, reliable: bool, timers: Timers)
    ensures var (p, first) := CI.Start(q, reliable, timers);
            && p.Running? && p.state.Calling? && CiInv(p) && p.data.request == q && p.data.timers == timers
            && p.data.reliable == reliable && TallyOf(first) == Tally([q], [], 0)
  {
    assert [] + [Send(q)] == [Send(q)];
    TallyOne(Send(q));
  }

  /* ----- The non-INVITE client ----- */

  function CnEnd(p: CN.Machine, events: seq<Event>): CN.Machine
    decreases |events|
  {
    if events == [] then p else CnEnd(CN.Step(p, events[0]).0, events[1..])
  }

  function CnHandled(p: CN.Machine, events: seq<Event>): seq<Event>
    decreases |events|
  {
    if events == [] || p.Stopped? then [] else [events[0]] + CnHandled(CN.Step(p, events[0]).0, events[1..])
  }

  // Retries before the final response.
  function Retries(es: seq<Event>): nat {
    if es == [] || (es[0].IncomingResponse? && Final(es[0].response)) then 0
    else (if es[0].Retry? then 1 else 0) + Retries(es[1..])
  }

  lemma {:induction false} CnOver(p: CN.Machine, events: seq<Event>)
    requires p.Stopped?
    ensures CnRun(p, events) == [] && CnEnd(p, events) == p && CnHandled(p, events) == []
    decreases |events|
  {
    if events != [] {
      CnOver(p, events[1..]);
    }
  }

  lemma CnMore(p: CN.Machine, events: seq<Event>)
    requires events != [] && p.Running?
    ensures var (r, rest) := (CN.Step(p, events[0]), events[1..]);
            && TallyOf(CnRun(p, events)) == Both(TallyOf(r.1), TallyOf(CnRun(r.0, rest)))
            && CnEnd(p, events) == CnEnd(r.0, rest)
            && CnHandled(p, events) == [events[0]] + CnHandled(r.0, rest)
            && (CnDriven(p, events) ==> CnDriven(r.0, rest) && ClientEvent(p.timer, events[0]))
  {
    hide CN.Step, TallyOf, ClientEvent;
    var r := CN.Step(p, events[0]);
    TallyConcat(r.1, CnRun(r.0, events[1..]));
  }

  // What a run from `p` brings: one request for each retry, the responses through
  // the first final one, and a failure or a final response, not both.
  ghost predicate CnBrings(p: CN.Machine, events: seq<Event>)
    requires p.Running?
  {
    var es, end := CnHandled(p, events), CnEnd(p, events);
    var t := TallyOf(CnRun(p, events));
    && t.told == ThroughFinal(Responses(es))
    && t.sends == Copies<Message>(p.data.request, Retries(es))
    && t.errors + Finals(t.told) == (if end.Running? && !end.state.Completed? then 0 else 1)
    && (end.Running? && end.state.Completed? ==>
          !p.data.reliable && end.timer == Some(Wait(p.data.timers.k, Nothing)) && !end.data.deadline && !end.data.retry)
    && (end.Stopped? && !p.data.reliable && Finals(t.told) > 0 ==> TimesOut(es))
  }

  // Once it has its final response, the client only waits.
  ghost predicate CnRests(p: CN.Machine, events: seq<Event>) {
    && TallyOf(CnRun(p, events)) == NO_EFFECT && (CnEnd(p, events) == p || CnEnd(p, events).Stopped?)
    && (p.Running? && CnEnd(p, events).Stopped? ==> TimesOut(CnHandled(p, events)))
  }

  lemma {:induction false} CnCompleted(p: CN.Machine, events: seq<Event>)
    requires p.Running? && p.state.Completed? && CnDriven(p, events)
    ensures CnRests(p, events)
    decreases |events|
  {
    hide CN.Step, CnRests, ClientEvent, CnDriven;
    if events == [] {
      CnNothing(p);
    } else {
      var r := CN.Step(p, events[0]).0;
      CnMore(p, events);
      CnCompletedStep(p, events[0]);
      if r.Stopped? {
        CnOverRests(r, events[1..]);
      } else {
        CnCompleted(p, events[1..]);
      }
      CnRestsMore(p, events);
    }
  }

  lemma CnRestsMore(p: CN.Machine, events: seq<Event>)
    requires p.Running? && p.state.Completed? && CnDriven(p, events) && events != []
    requires CnRests(CN.Step(p, events[0]).0, events[1..])
    ensures CnRests(p, events)
  {
    hide CN.Step, CnRun, CnEnd, CnHandled, CnDriven, TallyOf, TimesOut;
    CnMore(p, events);
    CnCompletedStep(p, events[0]);
    var r := CN.Step(p, events[0]).0;
    if r.Stopped? {
      CnOver(r, events[1..]);
      assert [events[0]] + [] == [events[0]];
    }
    TimesOutMore(events[0], CnHandled(r, events[1..]));
  }

  lemma CnOverRests(p: CN.Machine, events: seq<Event>)
    requires p.Stopped?
    ensures CnRests(p, events)
  {
    CnOver(p, events);
  }

  lemma CnNothing(p: CN.Machine)
    ensures CnRests(p, [])
  {
  }

  lemma CnCompletedStep(p: CN.Machine, e: Event)
    requires p.Running? && p.state.Completed? && ClientEvent(p.timer, e)
    ensures var (r, es) := CN.Step(p, e); TallyOf(es) == NO_EFFECT && (r == p || (r.Stopped? && e.Timeout?))
  {
  }

  lemma {:induction false} QuietTally(es: seq<Effect>)
    requires forall e | e in es :: e.CancelDeadline? || e.CancelRetry?
    ensures TallyOf(es) == NO_EFFECT
  {
    if es != [] {
      assert es[0] in es;
      QuietTally(es[1..]);
    }
  }

  lemma CnWaitingStep(p: CN.Machine, e: Event)
    requires p.Running? && !p.state.Completed? && CnInv(p) && ClientEvent(p.timer, e)
    ensures var (r, es) := CN.Step(p, e);
            var t := TallyOf(es);
            && CnInv(r)
            && (r.Running? ==>
                  && r.data.request == p.data.request && r.data.timers == p.data.timers
                  && r.data.reliable == p.data.reliable)
            && (e.IncomingResponse? ==>
                  && t == Tally([], [e.response], 0)
                  && (if !Final(e.response) then r.Running? && !r.state.Completed?
                      else if p.data.reliable then r.Stopped?
                      else
                        && r.Running? && r.state.Completed? && r.timer == Some(Wait(p.data.timers.k, Nothing))
                        && !r.data.deadline && !r.data.retry))
            && (e.Retry? ==> t == Tally([p.data.request], [], 0) && r.Running? && !r.state.Completed?)
            && (!e.IncomingResponse? && !e.Retry? ==> t == FAILURE && r.Stopped?)
  {
    hide CN.Cancels;
    TallyOne(CoreError);
    match e
    case IncomingResponse(m) =>
      TallyOne(ToCore(m));
      QuietTally(CN.Cancels(p.data));
      TallyConcat([ToCore(m)], CN.Cancels(p.data));
      assert [ToCore(m)] + [] == [ToCore(m)];
    case Retry(last) =>
      var wait := if p.state.Trying? then Min(last * 2, p.data.timers.t2) else p.data.timers.t2;
      TallyOne(Send(p.data.request));
      TallyOne(ArmRetry(wait));
      TallyTwo(Send(p.data.request), ArmRetry(wait));
    case _ =>
  }

  lemma {:induction false} CnWaiting(p: CN.Machine, events: seq<Event>)
    requires p.Running? && !p.state.Completed? && CnInv(p) && CnDriven(p, events)
    ensures CnBrings(p, events)
    decreases |events|
  {
    hide CN.Step, CnBrings, CnInv, ClientEvent, CnDriven, Final;
    if events == [] {
      CnUntouched(p);
    } else {
      var r := CN.Step(p, events[0]).0;
      CnMore(p, events);
      CnWaitingStep(p, events[0]);
      if r.Running? && !r.state.Completed? {
        CnWaiting(r, events[1..]);
        CnGoesOn(p, events);
      } else {
        if r.Running? {
          CnCompleted(r, events[1..]);
        } else {
          CnOver(r, events[1..]);
          NoTally();
        }
        CnDone(p, events);
      }
    }
  }

  lemma CnUntouched(p: CN.Machine)
    requires p.Running? && !p.state.Completed?
    ensures CnBrings(p, [])
  {
  }

  lemma RetriesMore(e: Event, es: seq<Event>)
    ensures Retries([e] + es) ==
            if e.IncomingResponse? && Final(e.response) then 0 else (if e.Retry? then 1 else 0) + Retries(es)
  {
    assert ([e] + es)[1..] == es;
  }

  lemma CnGoesOn(p: CN.Machine, events: seq<Event>)
    requires p.Running? && !p.state.Completed? && CnInv(p) && CnDriven(p, events) && events != []
    requires var r := CN.Step(p, events[0]).0; r.Running? && !r.state.Completed? && CnBrings(r, events[1..])
    ensures CnBrings(p, events)
  {
    hide CN.Step, CnRun, CnEnd, CnHandled, CnDriven, TallyOf, Responses, ThroughFinal, Retries, CnInv, Finals, Copies;
    var e := events[0];
    var r := CN.Step(p, e).0;
    CnMore(p, events);
    CnWaitingStep(p, e);
    var es := CnHandled(r, events[1..]);
    HeardMore(e, es);
    RetriesMore(e, es);
    if e.IncomingResponse? {
      ThroughFinalMore(e.response, Responses(es));
      ThroughFinalMore(e.response, ThroughFinal(Responses(es)));
    } else {
      OneCopyMore<Message>(p.data.request, Retries(es));
    }
  }

  lemma CnDone(p: CN.Machine, events: seq<Event>)
    requires p.Running? && !p.state.Completed? && CnInv(p) && CnDriven(p, events) && events != []
    requires var r := CN.Step(p, events[0]).0;
             && (r.Running? ==> r.state.Completed?) && (r.Stopped? ==> CnHandled(r, events[1..]) == [])
             && TallyOf(CnRun(r, events[1..])) == NO_EFFECT
             && (CnEnd(r, events[1..]) == r || CnEnd(r, events[1..]).Stopped?)
             && (r.Running? && CnEnd(r, events[1..]).Stopped? ==> TimesOut(CnHandled(r, events[1..])))
    ensures CnBrings(p, events)
  {
    hide CN.Step, CnRun, CnEnd, CnHandled, CnDriven, TallyOf, Responses, ThroughFinal, Retries, CnInv, Finals;
    var e := events[0];
    var r := CN.Step(p, e).0;
    CnMore(p, events);
    CnWaitingStep(p, e);
    var es := CnHandled(r, events[1..]);
    HeardMore(e, es);
    RetriesMore(e, es);
    NothingRetried();
    if e.IncomingResponse? {
      ThroughFinalMore(e.response, Responses(es));
      ThroughFinalMore(e.response, []);
    }
  }

  lemma NothingRetried()
    ensures Responses([]) == [] && Retries([]) == 0 && ThroughFinal([]) == [] && Finals([]) == 0
  {
  }

  ghost predicate CnErrors(p: CN.Machine)
    requires p.Running?
  {
    && CN.Step(p, TransportError) == (if p.state.Completed? then (p, []) else (Stopped, [CoreError]))
    && CN.Step(p, Terminate) == (Stopped, [])
  }

  lemma CnFailing(p: CN.Machine)
    requires p.Running?
    ensures CnErrors(p)
  {
  }

  lemma CnStart(q: Request, reliable: bool, timers: Timers)
    ensures var (p, first) := CN.Start(q, reliable, timers);
            && p.Running? && p.state.Trying? && CnInv(p) && p.data.request == q && p.data.timers == timers
            && p.data.reliable == reliable && TallyOf(first) == Tally([q], [], 0)
  {
    TallyOne(Send(q));
    TallyOne(ArmDeadline(timers.f));
    TallyOne(ArmRetry(timers.e));
    TallyTwo(Send(q), ArmDeadline(timers.f));
    TallyConcat([Send(q), ArmDeadline(timers.f)], [ArmRetry(timers.e)]);
    var es := CN.Start(q, reliable, timers).1;
    assert es == [Send(q), ArmDeadline(timers.f)] + if reliable then [] else [ArmRetry(timers.e)];
    assert [Send(q), ArmDeadline(timers.f)] + [] == [Send(q), ArmDeadline(timers.f)];
  }

  // Every run of the non-INVITE client, stale alarms included: the request once
  // and once more for each retry before the final response; the core hears every
  // response through that one, or an error instead of it, never both; nothing
  // prolongs the wait for timer K, which there is on an unreliable transport only
  // and which alone ends it.
  lemma NonInviteClientRun(q: Request, reliable: bool, timers: Timers, events: seq<Event>)
    requires CnDriven(CN.Start(q, reliable, timers).0, events)
    ensures var (p, first) := CN.Start(q, reliable, timers);
            var (es, end, t) := (CnHandled(p, events), CnEnd(p, events), TallyOf(first + CnRun(p, events)));
            && t.told == ThroughFinal(Responses(es))
            && t.sends == Copies<Message>(q, 1 + Retries(es))
            && t.errors + Finals(t.told) == (if end.Running? && !end.state.Completed? then 0 else 1)
            && (end.Running? && end.state.Completed? ==>
                  !reliable && end.timer == Some(Wait(timers.k, Nothing)) && !end.data.deadline && !end.data.retry)
            && (end.Stopped? && !reliable && Finals(t.told) > 0 ==> TimesOut(es))
            && (end.Running? ==> CnErrors(end))
  {
    CnStart(q, reliable, timers);
    hide CN.Start, CN.Step, CnRun, CnEnd, CnHandled, CnDriven, CnInv, TallyOf, Responses, ThroughFinal, Finals, Retries;
    hide Copies;
    var p := CN.Start(q, reliable, timers).0;
    CnWaiting(p, events);
    if CnEnd(p, events).Running? {
      CnFailing(CnEnd(p, events));
    }
    TallyConcat(CN.Start(q, reliable, timers).1, CnRun(p, events));
    OneCopyMore<Message>(q, Retries(CnHandled(p, events)));
  }
}
