/**
 What arrives is handled: the same as for the INVITE transactions, for the
 non-INVITE pair. Dispatch is lib/sippet/router.ex.
 */
module NonInviteDelivery {
  import opened Wrappers
  import opened Messages
  import opened Transactions
  import opened Agreement
  import opened NonInviteAgreement
  import Client = ClientNonInvite
  import Server = ServerNonInvite

  /* ----- What the transactions were started with ----- */

  // Each side runs with its own transport and timers, the server on the request as
  // it arrived; what the server remembers is what was sent last.
  ghost predicate Configured(c: Config, w: World) {
    && (w.client.Running? ==>
          var d := w.client.data;
          d.request == c.request && d.reliable == c.clientReliable && d.timers == c.clientTimers)
    && (w.server.Some? && w.server.value.Running? ==>
          var d := w.server.value.data;
          && d.reliable == c.serverReliable && d.timers == c.serverTimers
          && OnWire(d.request) == OnWire(c.request).(via := d.request.via)
          && ServerKeyOf(d.request) == ServerKeyOf(c.request)
          && (d.last.None? <==> w.server.value.state.Trying?)
          && (d.last.Some? ==> w.responses != [] && Last(w.responses) == OnWire(d.last.value)))
  }

  // In every world of a run, late copies included.
  ghost predicate Reached(c: Config, w: World) {
    LongInv(c, w) && Configured(c, w)
  }

  lemma ClientKeepsData(p: Client.Machine, e: Event)
    requires p.Running?
    ensures var q := Client.Step(p, e).0;
            q.Running? ==> q.data.(deadline := p.data.deadline, retry := p.data.retry) == p.data
  {
    hide Client.Cancels;
  }

  // Nothing but the memory of the last response changes.
  lemma ServerKeepsData(p: Server.Machine, e: Event)
    requires p.Running?
    ensures var q := Server.Step(p, e).0; q.Running? ==> q.data.(last := p.data.last) == p.data
  {
    hide EnsureTarget;
  }

  lemma ServerKeeps(c: Config, w: World, e: Event)
    requires Configured(c, w)
    ensures Configured(c, ServerSees(w, e))
  {
    hide OnWire, Server.Step, Server.Sent, EnsureTarget, ServerKeyOf, Wires, Told;
    if w.server.Some? && w.server.value.Running? {
      var p := w.server.value;
      ServerKeepsData(p, e);
      ServerDoes(p, e);
      assert w.responses + [] == w.responses;
      match Speaks(p, e)
      case New(x) => SentSeen(p.data, x);
      case Repeat => SentSeen(p.data, p.data.last.value);
      case Silence => QuietEffects(Server.Step(p, e).1);
    } else if w.server.Some? {
      StoppedServer(w, e);
    }
  }

  lemma ClientKeeps(c: Config, w: World, e: Event)
    requires Configured(c, w)
    ensures Configured(c, ClientSees(w, e))
  {
    hide OnWire, Client.Step, ServerKeyOf, Wires, Told;
    if w.client.Running? {
      ClientKeepsData(w.client, e);
    } else {
      StoppedClient(w, e);
    }
  }

  lemma StartKeeps(c: Config, w: World, from: Source, transport: string)
    requires Configured(c, w) && (w.server.Some? ==> w.server.value.Stopped?)
    ensures var got := Received(OnWire(c.request), from, transport);
            Configured(c, ServerMoves(w, Server.Start(got, c.serverReliable, c.serverTimers)))
  {
    ReceivedBody(c.request, from, transport);
    KeysSurviveTheWire(c.request);
    KeysSurviveReceipt(OnWire(c.request), from, transport);
    assert var got := Received(OnWire(c.request), from, transport); OnWire(got).via == got.via;
    var v := Started(c, w, from, transport);
    assert v.server.value.state.Trying?;
    hide OnWire, Received, ServerKeyOf;
  }

  lemma ActKeeps(c: Config, w: World, a: Action)
    requires Reached(c, w) && CanHappen(c, w, a)
    ensures Configured(c, ActOrRestart(c, w, a))
  {
    hide LongInv, Configured, ClientSees, ServerSees, ServerMoves, Received, ServerKeyOf, ClientKeyOf, OnWire;
    match a
    case RequestArrives(q, from, transport) =>
      KeysSurviveReceipt(q, from, transport);
      if ServerKeyOf(q) == ServerKeyOf(c.request) && (w.server.None? || w.server == Some(Stopped)) {
        RequestIs(c, w, q);
        StartKeeps(c, w, from, transport);
      } else if w.server.Some? {
        ServerKeeps(c, w, IncomingRequest(Received(q, from, transport)));
      }
    case ResponseArrives(r, from, transport) =>
      KeysSurviveReceipt(r, from, transport);
      ClientKeeps(c, w, IncomingResponse(Received(r, from, transport)));
    case ClientEvent(e) => ClientKeeps(c, w, e);
    case ServerTimeout(content) => ServerKeeps(c, w, Timeout(content));
    case ServerFails => ServerKeeps(c, w, TransportError);
    case ServerTerminated => ServerKeeps(c, w, Terminate);
    case CoreAnswers(r) => ServerKeeps(c, w, OutgoingResponse(r));
  }

  lemma RequestIs(c: Config, w: World, q: Message)
    requires LongInv(c, w) && q in w.requests
    ensures q == OnWire(c.request)
  {
  }

  lemma {:induction false} RunReaches(c: Config, w: World, actions: seq<Action>, end: World)
    requires Reached(c, w) && LongRun(c, w, actions, end)
    ensures Reached(c, end)
    decreases |actions|
  {
    hide LongInv, Configured, ActOrRestart, CanHappen, Late;
    if actions != [] {
      StillReached(c, w, actions[0]);
      RunReaches(c, ActOrRestart(c, w, actions[0]), actions[1..], end);
    }
  }

  lemma StillReached(c: Config, w: World, a: Action)
    requires Reached(c, w) && CanHappen(c, w, a)
    ensures Reached(c, ActOrRestart(c, w, a))
  {
    hide LongInv, Configured, ActOrRestart, CanHappen, Late;
    LongAct(c, w, a);
    ActKeeps(c, w, a);
  }

  lemma BeginReaches(c: Config)
    ensures Reached(c, Begin(c)) && OnWire(c.request) in Begin(c).requests
  {
    LongBegin(c);
    RequestOnWire(c);
    hide LongInv, OnWire, ServerKeyOf, Wires, Told;
  }

  /* ----- What arrives does something ----- */

  ghost predicate Waiting(w: World) {
    w.client.Running? && !w.client.state.Completed?
  }

  ghost predicate Serving(w: World) {
    w.server.Some? && w.server.value.Running?
  }

  // What the running server sent last, if it sent anything.
  function Echo(w: World): seq<Message> {
    if w.server.Some? && w.server.value.Running? && !w.server.value.state.Trying? && w.responses != [] then
      [Last(w.responses)]
    else []
  }

  // A copy of the request that arrives at a running server is answered by what was
  // sent last, if anything was, and changes nothing else.
  lemma CopyArrives(c: Config, w: World, copy: Request, from: Source, transport: string) returns (v: World)
    requires Sendable(c) && Reached(c, w) && Serving(w) && copy in w.requests
    ensures CanHappen(c, w, RequestArrives(copy, from, transport))
    ensures v == ActOrRestart(c, w, RequestArrives(copy, from, transport))
    ensures v == w.(responses := w.responses + Echo(w))
  {
    RequestIs(c, w, copy);
    KeysSurviveTheWire(c.request);
    assert MatchingCSeq(OnWire(c.request));
    KeysSurviveReceipt(copy, from, transport);
    hide LongInv, OnWire, ServerKeyOf, Received, EnsureTarget, Server.Step, Server.Sent, Wires, Told;
    var p, got := w.server.value, Received(copy, from, transport);
    ServerDoes(p, IncomingRequest(got));
    if p.data.last.Some? {
      SentSeen(p.data, p.data.last.value);
    } else {
      Unanswered(p, got);
      QuietEffects([]);
    }
    v := ServerSees(w, IncomingRequest(got));
    assert w.responses + [] == w.responses && w.serverCore + [] == w.serverCore;
  }

  lemma Unanswered(p: Server.Machine, q: Request)
    requires p.Running? && p.state.Trying?
    ensures Server.Step(p, IncomingRequest(q)) == (p, [])
  {
  }

  // A response that arrives at a client that still waits is told to its core, and
  // only a final one ends the waiting.
  lemma ResponseIsTold(c: Config, w: World, r: Response, from: Source, transport: string) returns (v: World)
    requires Reached(c, w) && Waiting(w)
    requires r in w.responses && ServerKeyOf(r) == ServerKeyOf(c.request) && MatchingCSeq(c.request)
    ensures var a := ResponseArrives(r, from, transport); CanHappen(c, w, a) && v == ActOrRestart(c, w, a)
    ensures v.(client := w.client) == w.(clientCore := w.clientCore + [r])
    ensures Waiting(v) <==> !Final(r)
  {
    KeysSurviveReceipt(r, from, transport);
    assert OnWire(r) == r;
    var got := Received(r, from, transport);
    assert OnWire(got) == r && got.start == r.start;
    hide LongInv, OnWire, Received, Client.Step, Wires, Told;
    ClientHears(w.client, got);
    v := ClientSees(w, IncomingResponse(got));
    assert w.requests + [] == w.requests;
  }

  lemma ClientHears(p: Client.Machine, r: Response)
    requires p.Running? && !p.state.Completed?
    ensures var (q, es) := Client.Step(p, IncomingResponse(r));
            && Told(es) == [OnWire(r)] && Wires(es) == []
            && (q.Running? && !q.state.Completed? <==> !Final(r))
  {
    hide OnWire, Wires, Told, Client.Cancels;
    QuietEffects([]);
    FewEffects(ToCore(r), Unhandled);
    CancelsAreQuiet(Client.Cancels(p.data));
    Headed(ToCore(r), Client.Cancels(p.data));
    assert [ToCore(r)] + [] == [ToCore(r)];
  }

  // The core's answer is put on the wire; a final one is its decision.
  lemma AnswerIsSent(c: Config, w: World, r: Response) returns (v: World)
    requires Reached(c, w) && Undecided(w) && ServerKeyOf(r) == ServerKeyOf(c.request)
    ensures CanHappen(c, w, CoreAnswers(r)) && v == ActOrRestart(c, w, CoreAnswers(r))
    ensures v.(server := w.server) == w.(responses := w.responses + [OnWire(r)])
    ensures Undecided(v) <==> !Final(r)
  {
    hide LongInv, OnWire, ServerKeyOf, EnsureTarget, Server.Step, Server.Sent, Wires, Told;
    AnswerMoves(w.server.value, r);
    SentSeen(w.server.value.data, r);
    v := ServerSees(w, OutgoingResponse(r));
    assert w.serverCore + [] == w.serverCore;
  }

  lemma AnswerMoves(p: Server.Machine, r: Response)
    requires p.Running? && !p.state.Completed?
    ensures var (q, es) := Server.Step(p, OutgoingResponse(r));
            && es == [Server.Sent(p.data, r)]
            && (q.Running? && !q.state.Completed? <==> !Final(r))
  {
    hide EnsureTarget;
    assert [Server.Sent(p.data, r)] + [] == [Server.Sent(p.data, r)];
  }

  /* ----- The same in every run ----- */

  ghost predicate CopiesAreAnswered(c: Config, w: World) {
    forall copy: Request, from, transport | copy in w.requests && Serving(w) ::
      ActOrRestart(c, w, RequestArrives(copy, from, transport)) == w.(responses := w.responses + Echo(w))
  }

  ghost predicate ResponsesAreTold(c: Config, w: World) {
    forall r: Response, from, transport | r in w.responses && ServerKeyOf(r) == ServerKeyOf(c.request) && Waiting(w) ::
      var v := ActOrRestart(c, w, ResponseArrives(r, from, transport));
      v.(client := w.client) == w.(clientCore := w.clientCore + [r]) && (Waiting(v) <==> !Final(r))
  }

  ghost predicate AnswersAreSent(c: Config, w: World) {
    forall r: Response | Undecided(w) && ServerKeyOf(r) == ServerKeyOf(c.request) ::
      var v := ActOrRestart(c, w, CoreAnswers(r));
      v.(server := w.server) == w.(responses := w.responses + [OnWire(r)]) && (Undecided(v) <==> !Final(r))
  }

  // While the client waits a retry repeats the request and the deadline ends it; its
  // last timeout and the server's end what is completed.
  ghost predicate TimersFire(c: Config, w: World) {
    && (forall delay | Waiting(w) ::
          ActOrRestart(c, w, ClientEvent(Retry(delay))).(client := w.client) ==
          w.(requests := w.requests + [OnWire(c.request)]))
    && ActOrRestart(c, w, ClientEvent(Deadline)) == w.(client := if Waiting(w) then Stopped else w.client)
    && ActOrRestart(c, w, ClientEvent(Timeout(Nothing))) == w.(client := Stopped)
    && (w.server.Some? ==> ActOrRestart(c, w, ServerTimeout(Nothing)) == w.(server := Some(Stopped)))
  }

  // An error of the transport ends a side that has not done its part; being told to
  // stop ends either.
  ghost predicate FailuresEnd(c: Config, w: World) {
    && ActOrRestart(c, w, ClientEvent(TransportError)) == w.(client := if Waiting(w) then Stopped else w.client)
    && ActOrRestart(c, w, ClientEvent(Terminate)) == w.(client := Stopped)
    && (w.server.Some? ==>
          && ActOrRestart(c, w, ServerFails) == w.(server := if Undecided(w) then Some(Stopped) else w.server)
          && ActOrRestart(c, w, ServerTerminated) == w.(server := Some(Stopped)))
  }

  lemma FailuresDo(c: Config, w: World)
    ensures FailuresEnd(c, w)
  {
    hide Wires, Told;
    QuietEffects([]);
    QuietEffects([CoreError]);
    assert w.requests + [] == w.requests && w.clientCore + [] == w.clientCore;
    assert w.responses + [] == w.responses && w.serverCore + [] == w.serverCore;
  }

  lemma TimersDo(c: Config, w: World)
    requires Configured(c, w)
    ensures TimersFire(c, w)
  {
    hide Wires, Told, OnWire, Client.Cancels, ServerKeyOf;
    QuietEffects([]);
    QuietEffects([CoreError]);
    QuietEffects([Unhandled]);
    assert w.requests + [] == w.requests && w.clientCore + [] == w.clientCore;
    assert w.responses + [] == w.responses && w.serverCore + [] == w.serverCore;
    forall delay | Waiting(w)
      ensures ActOrRestart(c, w, ClientEvent(Retry(delay))).(client := w.client) ==
              w.(requests := w.requests + [OnWire(c.request)])
    {
      RetryRepeats(c, w, delay);
    }
  }

  lemma RetryRepeats(c: Config, w: World, delay: int)
    requires Configured(c, w) && Waiting(w)
    ensures ActOrRestart(c, w, ClientEvent(Retry(delay))).(client := w.client) ==
            w.(requests := w.requests + [OnWire(c.request)])
  {
    hide Wires, Told, OnWire, ServerKeyOf;
    var d := w.client.data;
    var wait := if w.client.state.Trying? then Min(delay * 2, d.timers.t2) else d.timers.t2;
    FewEffects(Send(c.request), ArmRetry(wait));
    FewEffects(ArmRetry(wait), Unhandled);
    assert w.clientCore + [] == w.clientCore && [OnWire(c.request)] + [] == [OnWire(c.request)];
  }

  // In every run of the two transactions, late copies included.
  lemma NonInviteDelivery(c: Config, past: seq<Action>, w: World)
    requires Sendable(c) && LongRun(c, Begin(c), past, w)
    ensures CopiesAreAnswered(c, w) && ResponsesAreTold(c, w) && AnswersAreSent(c, w)
    ensures TimersFire(c, w) && FailuresEnd(c, w)
  {
    hide LongRun, ActOrRestart, CanHappen, LongInv, Configured, Late, Begin, OnWire, ServerKeyOf;
    hide Final, Undecided, Waiting, Serving, Echo, TimersFire, FailuresEnd;
    BeginReaches(c);
    RunReaches(c, Begin(c), past, w);
    TimersDo(c, w);
    FailuresDo(c, w);
    forall copy: Request, from, transport | copy in w.requests && Serving(w)
      ensures ActOrRestart(c, w, RequestArrives(copy, from, transport)) == w.(responses := w.responses + Echo(w))
    {
      var v := CopyArrives(c, w, copy, from, transport);
    }
    forall r: Response, from, transport | r in w.responses && ServerKeyOf(r) == ServerKeyOf(c.request) && Waiting(w)
      ensures var v := ActOrRestart(c, w, ResponseArrives(r, from, transport));
              v.(client := w.client) == w.(clientCore := w.clientCore + [r]) && (Waiting(v) <==> !Final(r))
    {
      var v := ResponseIsTold(c, w, r, from, transport);
    }
    forall r: Response | Undecided(w) && ServerKeyOf(r) == ServerKeyOf(c.request)
      ensures var v := ActOrRestart(c, w, CoreAnswers(r));
              v.(server := w.server) == w.(responses := w.responses + [OnWire(r)]) && (Undecided(v) <==> !Final(r))
    {
      var v := AnswerIsSent(c, w, r);
    }
  }

  /* ----- No dead end ----- */

  // The response of the core to what it was told.
  lemma Answer(c: Config, w: World, code: StatusCode) returns (r: Response)
    requires Sendable(c) && Reached(c, w) && Undecided(w)
    ensures ServerKeyOf(r) == ServerKeyOf(c.request) && r.start == StatusLine(code)
    ensures ServerKeyOf(OnWire(r)) == ServerKeyOf(r) && OnWire(r).start == r.start
  {
    var q := w.server.value.data.request;
    r := ToResponse(q, code, "");
    BareOnWire(r);
    KeysSurviveTheWire(r);
    assert q.cseq == OnWire(q).cseq == c.request.cseq;
    assert q.start == OnWire(q).start;
  }

  // A core can answer with any final response and be heard.
  lemma UndecidedCanAnswer(c: Config, w: World, code: StatusCode, from: Source, transport: string)
    returns (actions: seq<Action>, end: World)
    requires Sendable(c) && Reached(c, w) && Waiting(w) && Undecided(w) && code >= 200
    ensures LongRun(c, w, actions, end) && !Waiting(end) && !Undecided(end)
    ensures end.clientCore != [] && Last(end.clientCore).start == StatusLine(code)
  {
    hide LongRun, LateCopies, ActOrRestart, CanHappen, Reached, Late, OnWire, ServerKeyOf, ServerSees;
    var r := Answer(c, w, code);
    var v := AnswerIsSent(c, w, r);
    StillReached(c, w, CoreAnswers(r));
    assert OnWire(r) in v.responses;
    end := ResponseIsTold(c, v, OnWire(r), from, transport);
    var told := ResponseArrives(OnWire(r), from, transport);
    NoSteps(c, end);
    OneStep(c, v, told, [], end);
    OneStep(c, w, CoreAnswers(r), [told] + [], end);
    actions := [CoreAnswers(r)] + ([told] + []);
  }

  // From every state of a run in which the client still waits, with no server
  // running or one that has not decided, the request can be answered with any
  // final response, and the answer heard.
  lemma NoDeadEnd(c: Config, past: seq<Action>, w: World, code: StatusCode, from: Source, transport: string)
    returns (actions: seq<Action>, end: World)
    requires Sendable(c) && LongRun(c, Begin(c), past, w) && Waiting(w) && code >= 200
    requires Serving(w) ==> Undecided(w)
    ensures LongRun(c, w, actions, end) && !Waiting(end) && !Undecided(end)
    ensures end.clientCore != [] && Last(end.clientCore).start == StatusLine(code)
  {
    BareOnWire(c.request);
    assert OnWire(c.request).IsRequest();
    hide LongRun, LateCopies, ActOrRestart, CanHappen, LongInv, Configured, Late, OnWire, Begin, Last, Undecided;
    BeginReaches(c);
    StaysOnWire(c, Begin(c), past, w);
    RunReaches(c, Begin(c), past, w);
    if Serving(w) {
      actions, end := UndecidedCanAnswer(c, w, code, from, transport);
    } else {
      var copy := RequestArrives(OnWire(c.request), from, transport);
      var v := StartsAgain(c, w, from, transport);
      StillReached(c, w, copy);
      var rest: seq<Action>;
      rest, end := UndecidedCanAnswer(c, v, code, from, transport);
      OneStep(c, w, copy, rest, end);
      actions := [copy] + rest;
    }
  }

  // What was sent stays deliverable.
  lemma {:induction false} StaysOnWire(c: Config, w: World, actions: seq<Action>, end: World)
    requires LongRun(c, w, actions, end)
    ensures w.requests <= end.requests
    decreases |actions|
  {
    hide ActOrRestart, CanHappen, Late;
    if actions != [] {
      MoreOnWire(c, w, actions[0]);
      StaysOnWire(c, ActOrRestart(c, w, actions[0]), actions[1..], end);
    }
  }

  lemma MoreOnWire(c: Config, w: World, a: Action)
    ensures w.requests <= ActOrRestart(c, w, a).requests
  {
    hide Client.Step, Server.Step, Wires, Told, Received, ServerKeyOf, ClientKeyOf;
  }
}
