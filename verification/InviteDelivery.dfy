/**
 What arrives is handled: in every run of the INVITE transactions each message on
 the wire that arrives reaches the transaction it is for, and no state of a run in
 which both sides still wait is a dead end. Dispatch is lib/sippet/router.ex.
 */
module InviteDelivery {
  import opened Wrappers
  import opened Messages
  import opened Transactions
  import opened Agreement
  import opened InviteAgreement
  import Client = ClientInvite
  import Server = ServerInvite

  /* ----- What the transactions were started with ----- */

  // Each side runs with its own transport and timers, the server on the INVITE as
  // it arrived; what the server remembers is what was sent last.
  ghost predicate Configured(c: Config, w: World) {
    && (w.client.Running? ==>
          var d := w.client.data;
          d.request == c.invite && d.reliable == c.clientReliable && d.timers == c.clientTimers)
    && (w.server.Some? && w.server.value.Running? ==>
          var d := w.server.value.data;
          && d.reliable == c.serverReliable && d.timers == c.serverTimers
          && OnWire(d.request) == OnWire(c.invite).(via := d.request.via)
          && ServerKeyOf(d.request) == ServerKeyOf(c.invite)
          && (d.last.Some? ==> w.responses != [] && Last(w.responses) == OnWire(d.last.value)))
  }

  // In every world of a run, late copies included.
  ghost predicate Reached(c: Config, w: World)
    requires Sendable(c)
  {
    LongInv(c, w) && Configured(c, w)
  }

  lemma ClientKeepsData(p: Client.Machine, e: Event)
    requires p.Running?
    ensures var q := Client.Step(p, e).0;
            q.Running? ==> q.data.(last := p.data.last, ack := p.data.ack) == p.data
  {
    hide BuildAck;
  }

  // A step that sends, sends what is remembered from then on.
  lemma ServerKeepsData(p: Server.Machine, e: Event)
    requires p.Running?
    ensures var (q, es) := Server.Step(p, e);
            && |es| <= 1
            && (q.Running? ==>
                  && q.data.(last := p.data.last) == p.data
                  && (es != [] && es[0].Send? ==> q.data.last.Some? && OnWire(q.data.last.value) == OnWire(es[0].message))
                  && (es == [] || !es[0].Send? ==> q.data.last == p.data.last))
  {
    hide OnWire, EnsureTarget, Server.Step, Final, Refusal;
    if p.state.Proceeding? {
      var spoken := UndecidedServer(p, e);
      if spoken.Some? {
        SpokenOnce(p, e);
      } else if p.data.last.Some? {
        TargetIsSettled(p.data.last.value, p.data.request);
      }
    } else {
      OldWords(p, e);
      if p.data.last.Some? {
        TargetIsSettled(p.data.last.value, p.data.request);
      }
    }
  }

  // Nothing but the memory of the last response changes.
  lemma SpokenOnce(p: Server.Machine, e: Event)
    requires p.Running?
    ensures var q := Server.Step(p, e).0; q.Running? ==> q.data.(last := p.data.last) == p.data
  {
    hide EnsureTarget, ToResponse;
  }

  lemma OldWords(p: Server.Machine, e: Event)
    requires p.Running? && !p.state.Proceeding?
    ensures var (q, es) := Server.Step(p, e);
            && |es| <= 1 && (q.Running? ==> q.data == p.data)
            && (es != [] && es[0].Send? ==> p.data.last.Some? && es[0] == Server.Sent(p.data, p.data.last.value))
  {
    hide EnsureTarget;
  }

  lemma ServerKeeps(c: Config, w: World, e: Event)
    requires Configured(c, w)
    ensures Configured(c, ServerSees(w, e))
  {
    hide OnWire, Server.Step, ServerKeyOf, Wires, Told;
    if w.server.Some? && w.server.value.Running? {
      var es := Server.Step(w.server.value, e).1;
      ServerKeepsData(w.server.value, e);
      FewEffects(CoreError, Unhandled);
      if es != [] {
        assert es == [es[0]];
        FewEffects(es[0], Unhandled);
      }
      assert w.responses + [] == w.responses;
    } else if w.server.Some? {
      StoppedServer(w, e);
    }
  }

  lemma ClientKeeps(c: Config, w: World, e: Event)
    requires Configured(c, w)
    ensures Configured(c, ClientSees(w, e))
  {
    hide OnWire, Client.Step, ServerKeyOf, Wires, Told;
    if w.client.Running? {
      ClientKeepsData(w.client, e);
    } else {
      StoppedClient(w, e);
    }
  }

  lemma StartKeeps(c: Config, w: World, from: Source, transport: string)
    requires Sendable(c) && Configured(c, w) && (w.server.Some? ==> w.server.value.Stopped?)
    ensures var got := Received(OnWire(c.invite), from, transport);
            Configured(c, ServerMoves(w, Server.Start(got, c.serverReliable, c.serverTimers)))
  {
    ReceivedBody(c.invite, from, transport);
    KeysSurviveTheWire(c.invite);
    KeysSurviveReceipt(OnWire(c.invite), from, transport);
    assert var got := Received(OnWire(c.invite), from, transport); OnWire(got).via == got.via;
    hide OnWire, Received, ServerKeyOf;
    var v := Started(c, w, from, transport);
  }

  lemma ActKeeps(c: Config, w: World, a: Action)
    requires Sendable(c) && Reached(c, w) && CanHappen(c, w, a)
    ensures Configured(c, ActOrRestart(c, w, a))
  {
    hide LongInv, Configured, ClientSees, ServerSees, ServerMoves, Received, ServerKeyOf, ClientKeyOf, OnWire;
    match a
    case RequestArrives(q, from, transport) =>
      KeysSurviveReceipt(q, from, transport);
      if ServerKeyOf(q) == Some(InviteKey(c)) && (w.server.None? || w.server == Some(Stopped)) {
        LongIsClient(c, w);
        InviteIsNotAck(c, q);
        KeyOfInvite(c, w, q);
        StartKeeps(c, w, from, transport);
      } else if w.server.Some? {
        ServerKeeps(c, w, IncomingRequest(Received(q, from, transport)));
      }
    case ResponseArrives(r, from, transport) =>
      KeysSurviveReceipt(r, from, transport);
      ClientKeeps(c, w, IncomingResponse(Received(r, from, transport)));
    case ClientTimeout(content) => ClientKeeps(c, w, Timeout(content));
    case ClientFails => ClientKeeps(c, w, TransportError);
    case ClientTerminated => ClientKeeps(c, w, Terminate);
    case ServerTimeout(content) => ServerKeeps(c, w, Timeout(content));
    case ServerFails => ServerKeeps(c, w, TransportError);
    case ServerTerminated => ServerKeeps(c, w, Terminate);
    case CoreAnswers(r) => ServerKeeps(c, w, OutgoingResponse(r));
  }

  lemma {:induction false} RunReaches(c: Config, w: World, actions: seq<Action>, end: World)
    requires Sendable(c) && Reached(c, w) && LongRun(c, w, actions, end)
    ensures Reached(c, end)
    decreases |actions|
  {
    hide LongInv, Configured, ActOrRestart, CanHappen, Late;
    if actions != [] {
      LongAct(c, w, actions[0]);
      ActKeeps(c, w, actions[0]);
      RunReaches(c, ActOrRestart(c, w, actions[0]), actions[1..], end);
    }
  }

  lemma BeginReaches(c: Config)
    requires Sendable(c)
    ensures Reached(c, Begin(c))
  {
    LongBegin(c);
    hide LongInv, OnWire, ServerKeyOf;
  }

  /* ----- Every message for a side reaches it ----- */

  // A message of the client that arrives where a server runs.
  lemma RequestReaches(c: Config, w: World, m: Message, from: Source, transport: string)
    requires Sendable(c) && LongInv(c, w) && m in w.requests && w.server.Some? && w.server.value.Running?
    ensures m.IsRequest() && CanHappen(c, w, RequestArrives(m, from, transport))
    ensures !Late(c, w, RequestArrives(m, from, transport))
    ensures ActOrRestart(c, w, RequestArrives(m, from, transport)) ==
            ServerSees(w, IncomingRequest(Received(m, from, transport)))
  {
    RequestHasKey(c, w, m);
    hide LongInv, OnWire, BuildAck, ServerSees, Received, ServerKeyOf;
    KeysSurviveReceipt(m, from, transport);
  }

  // All that the client sends carries the key of the server or its alias.
  lemma RequestHasKey(c: Config, w: World, m: Message)
    requires Sendable(c) && LongInv(c, w) && m in w.requests
    ensures m.IsRequest() && MatchingCSeq(m) && (m.start.verb == Invite || m.start.verb == Ack)
    ensures ServerKeyOf(m) == Some(if m.start.verb == Ack then AckKey(c) else InviteKey(c))
    ensures m.start.verb == Invite ==> m == OnWire(c.invite)
  {
    LongIsClient(c, w);
    KeysSurviveTheWire(c.invite);
    BareOnWire(c.invite);
    if m != OnWire(c.invite) {
      var last := Last(w.clientCore);
      AckFindsAlias(c.invite, last);
      KeysSurviveTheWire(BuildAck(c.invite, last));
      BareOnWire(BuildAck(c.invite, last));
    }
  }

  // A response of the server's that arrives at the client.
  lemma ResponseReaches(c: Config, w: World, r: Response, from: Source, transport: string)
    requires Sendable(c) && LongInv(c, w) && r in w.responses && ServerKeyOf(r) == ServerKeyOf(c.invite)
    ensures CanHappen(c, w, ResponseArrives(r, from, transport))
    ensures !Late(c, w, ResponseArrives(r, from, transport))
    ensures ActOrRestart(c, w, ResponseArrives(r, from, transport)) ==
            ClientSees(w, IncomingResponse(Received(r, from, transport)))
    ensures OnWire(Received(r, from, transport)) == r
  {
    KeysSurviveReceipt(r, from, transport);
    assert OnWire(r) == r;
    hide LongInv, ClientSees;
  }

  // A response of the core's, to the request it was told.
  lemma AnswerReaches(c: Config, w: World, r: Response)
    requires Sendable(c) && ServerKeyOf(r) == ServerKeyOf(c.invite)
    ensures CanHappen(c, w, CoreAnswers(r)) && !Late(c, w, CoreAnswers(r))
    ensures ActOrRestart(c, w, CoreAnswers(r)) == ServerSees(w, OutgoingResponse(r))
  {
    hide ServerSees;
  }

  /* ----- What it does there ----- */

  ghost predicate Waiting(w: World) {
    w.client.Running? && !w.client.state.Completed?
  }

  ghost predicate Refused(w: World) {
    w.server.Some? && w.server.value.Running? && w.server.value.state.Completed?
  }

  // The server's transaction has got its ACK: over, or waiting for timer I.
  ghost predicate Confirmed(c: Config, w: World) {
    if c.serverReliable then w.server == Some(Stopped)
    else
      && w.server.Some? && w.server.value.Running? && w.server.value.state.Confirmed?
      && w.server.value.timer == Some(Wait(c.serverTimers.i, Nothing))
  }

  // An ACK of the client's that arrives at a server that has refused confirms it,
  // and does nothing else.
  lemma AckArrives(c: Config, w: World, ack: Message, from: Source, transport: string) returns (v: World)
    requires Sendable(c) && Reached(c, w) && Refused(w) && ack in w.requests && ack.IsRequest() && ack.start.verb == Ack
    ensures CanHappen(c, w, RequestArrives(ack, from, transport))
    ensures !Late(c, w, RequestArrives(ack, from, transport))
    ensures v == ActOrRestart(c, w, RequestArrives(ack, from, transport))
    ensures Confirmed(c, v) && v.(server := w.server) == w
  {
    hide LongInv, OnWire, ServerKeyOf, Received, Server.Step, Wires, Told, CanHappen, ActOrRestart, Late;
    RequestReaches(c, w, ack, from, transport);
    KeysSurviveReceipt(ack, from, transport);
    LongLast(c, w);
    var got := Received(ack, from, transport);
    AckConfirms(w.server.value, got);
    v := ServerSees(w, IncomingRequest(got));
    FewEffects(CoreError, Unhandled);
    assert w.responses + [] == w.responses && w.serverCore + [] == w.serverCore;
  }

  lemma AckConfirms(p: Server.Machine, q: Request)
    requires p.Running? && p.state.Completed? && p.data.last.Some? && q.start.verb == Ack
    ensures var (r, es) := Server.Step(p, IncomingRequest(q));
            && es == []
            && if p.data.reliable then r == Stopped
               else r.Running? && r.state.Confirmed? && r.timer == Some(Wait(p.data.timers.i, Nothing))
  {
  }

  lemma CopyRepeats(p: Server.Machine, q: Request)
    requires p.Running? && !p.state.Confirmed? && q.start.verb == Invite && (p.state.Completed? ==> p.data.last.Some?)
    ensures Server.Step(p, IncomingRequest(q)) ==
            (p, if p.data.last.Some? then [Server.Sent(p.data, p.data.last.value)] else [])
  {
    hide EnsureTarget;
  }

  lemma AnswerMoves(p: Server.Machine, r: Response)
    requires p.Running? && p.state.Proceeding?
    ensures var (q, es) := Server.Step(p, OutgoingResponse(r));
            && es == [Server.Sent(p.data, r)]
            && (if !Final(r) then q.Running? && q.state.Proceeding?
                else if Refusal(r) then q.Running? && q.state.Completed?
                else q == Stopped)
  {
    hide EnsureTarget;
    assert [Server.Sent(p.data, r)] + [] == [Server.Sent(p.data, r)];
  }

  lemma LongLast(c: Config, w: World)
    requires Sendable(c) && LongInv(c, w) && w.server.Some? && w.server.value.Running?
    ensures !w.server.value.state.Proceeding? ==> w.server.value.data.last.Some?
  {
  }

  // What the running server sent last, if it sent anything.
  function Echo(w: World): seq<Message> {
    if w.server.Some? && w.server.value.Running? && w.server.value.data.last.Some? && w.responses != [] then
      [Last(w.responses)]
    else []
  }

  // One more ACK for the refusal the core was told.
  ghost predicate AckedAgain(c: Config, w: World, v: World) {
    && v.requests != [] && v == w.(requests := w.requests + [Last(v.requests)])
    && AckOf(c, w.clientCore, Last(v.requests))
  }

  // A copy of the INVITE that arrives before the ACK is answered by what was sent
  // last, if anything was, and changes nothing else.
  lemma CopyArrives(c: Config, w: World, from: Source, transport: string) returns (v: World)
    requires Sendable(c) && Reached(c, w) && OnWire(c.invite).IsRequest() && (Undecided(w) || Refused(w))
    ensures CanHappen(c, w, RequestArrives(OnWire(c.invite), from, transport))
    ensures v == ActOrRestart(c, w, RequestArrives(OnWire(c.invite), from, transport))
    ensures v.(responses := w.responses) == w
    ensures v.responses == w.responses + Echo(w)
  {
    hide LongInv, OnWire, ServerKeyOf, Received, CanHappen, ActOrRestart, Late, ServerSees;
    InviteOnWire(c, w);
    BareOnWire(c.invite);
    LongLast(c, w);
    var m := OnWire(c.invite);
    RequestReaches(c, w, m, from, transport);
    KeysSurviveReceipt(m, from, transport);
    v := ServerEchoes(c, w, Received(m, from, transport));
  }

  lemma ServerEchoes(c: Config, w: World, got: Request) returns (v: World)
    requires Configured(c, w) && (Undecided(w) || Refused(w)) && got.start.verb == Invite
    requires Refused(w) ==> w.server.value.data.last.Some?
    ensures v == ServerSees(w, IncomingRequest(got))
    ensures v.(responses := w.responses) == w && v.responses == w.responses + Echo(w)
  {
    hide OnWire, ServerKeyOf, EnsureTarget, Server.Step, Server.Sent, Wires, Told;
    var p := w.server.value;
    CopyRepeats(p, got);
    FewEffects(CoreError, Unhandled);
    if p.data.last.Some? {
      SentSeen(p.data, p.data.last.value);
    }
    v := ServerSees(w, IncomingRequest(got));
    assert w.responses + [] == w.responses && w.serverCore + [] == w.serverCore;
  }

  // A response that arrives at a client that still waits is told to its core; a
  // refusal is acknowledged as well, and only a final response ends the waiting.
  lemma ResponseIsTold(c: Config, w: World, r: Response, from: Source, transport: string) returns (v: World)
    requires Sendable(c) && Reached(c, w) && Waiting(w)
    requires r in w.responses && ServerKeyOf(r) == ServerKeyOf(c.invite)
    ensures CanHappen(c, w, ResponseArrives(r, from, transport))
    ensures v == ActOrRestart(c, w, ResponseArrives(r, from, transport))
    ensures v.clientCore == w.clientCore + [r]
    ensures v.requests == w.requests + if Refusal(r) then [OnWire(BuildAck(c.invite, r))] else []
    ensures v.(client := w.client, clientCore := w.clientCore, requests := w.requests) == w
    ensures Waiting(v) <==> !Final(r)
  {
    hide LongInv, OnWire, ServerKeyOf, Received, BuildAck, Client.Step, Final, Refusal, Wires, Told, CanHappen;
    hide ActOrRestart;
    ResponseReaches(c, w, r, from, transport);
    KeysSurviveReceipt(r, from, transport);
    v := ClientHears(c, w, r, Received(r, from, transport));
  }

  lemma ClientHears(c: Config, w: World, r: Response, got: Response) returns (v: World)
    requires Configured(c, w) && Waiting(w) && OnWire(got) == r && got.start == r.start
    ensures v == ClientSees(w, IncomingResponse(got))
    ensures v.clientCore == w.clientCore + [r]
    ensures v.requests == w.requests + if Refusal(r) then [OnWire(BuildAck(c.invite, r))] else []
    ensures v.(client := w.client, clientCore := w.clientCore, requests := w.requests) == w
    ensures Waiting(v) <==> !Final(r)
  {
    hide OnWire, ServerKeyOf, BuildAck, Client.Step, Wires, Told;
    AckIgnoresHints(c.invite, got);
    var ack := BuildAck(c.invite, got);
    WaitingClient(w.client, IncomingResponse(got));
    FinalEnds(w.client, got);
    FewEffects(ToCore(got), Send(ack));
    FewEffects(Send(ack), Unhandled);
    v := ClientSees(w, IncomingResponse(got));
    assert w.requests + [] == w.requests;
  }

  lemma FinalEnds(p: Client.Machine, r: Response)
    requires p.Running? && !p.state.Completed?
    ensures var q := Client.Step(p, IncomingResponse(r)).0;
            q.Running? && !q.state.Completed? <==> !Final(r)
  {
    hide BuildAck;
  }

  // At a client that waits for timer D a refusal puts the same ACK on the wire
  // again, and does nothing else.
  lemma RefusalIsAcknowledged(c: Config, w: World, r: Response, from: Source, transport: string) returns (v: World)
    requires Sendable(c) && Reached(c, w) && w.client.Running? && w.client.state.Completed?
    requires r in w.responses && ServerKeyOf(r) == ServerKeyOf(c.invite) && Refusal(r)
    ensures CanHappen(c, w, ResponseArrives(r, from, transport))
    ensures v == ActOrRestart(c, w, ResponseArrives(r, from, transport))
    ensures AckedAgain(c, w, v)
  {
    ResponseReaches(c, w, r, from, transport);
    LongIsClient(c, w);
    var got := Received(r, from, transport);
    assert got.start == r.start;
    hide LongInv, OnWire, ServerKeyOf, Received, BuildAck;
    FewEffects(Send(w.client.data.ack.value), Unhandled);
    v := ClientSees(w, IncomingResponse(got));
    assert w.clientCore + [] == w.clientCore;
  }

  // The core's answer is put on the wire; a refusal is then waited upon for the
  // ACK, and a success ends the transaction.
  lemma AnswerIsSent(c: Config, w: World, r: Response) returns (v: World)
    requires Sendable(c) && Reached(c, w) && Undecided(w) && ServerKeyOf(r) == ServerKeyOf(c.invite)
    ensures CanHappen(c, w, CoreAnswers(r)) && v == ActOrRestart(c, w, CoreAnswers(r))
    ensures v.responses == w.responses + [OnWire(r)]
    ensures v.(server := w.server, responses := w.responses) == w
    ensures if !Final(r) then Undecided(v) else if Refusal(r) then Refused(v) else v.server == Some(Stopped)
  {
    hide LongInv, OnWire, ServerKeyOf, EnsureTarget, Server.Step, Server.Sent, Wires, Told, Final, Refusal;
    AnswerReaches(c, w, r);
    AnswerMoves(w.server.value, r);
    SentSeen(w.server.value.data, r);
    v := ServerSees(w, OutgoingResponse(r));
    assert w.serverCore + [] == w.serverCore;
  }

  /* ----- The same in every run ----- */

  // An ACK confirms a server that has refused.
  ghost predicate AcksConfirm(c: Config, w: World)
    requires Sendable(c)
  {
    forall ack: Request, from, transport | ack in w.requests && ack.start.verb == Ack && Refused(w) ::
      var v := ActOrRestart(c, w, RequestArrives(ack, from, transport));
      Confirmed(c, v) && v.(server := w.server) == w
  }

  // A copy of the INVITE before the ACK is answered by what was sent last.
  ghost predicate CopiesAreAnswered(c: Config, w: World)
    requires Sendable(c)
  {
    forall copy: Request, from, transport |
        copy in w.requests && copy.start.verb == Invite && (Undecided(w) || Refused(w)) ::
      var v := ActOrRestart(c, w, RequestArrives(copy, from, transport));
      && v.(responses := w.responses) == w
      && v.responses == w.responses + Echo(w)
  }

  // A response to the INVITE is told to a core that waits, a refusal is
  // acknowledged, the first and every further one.
  ghost predicate ResponsesAreTold(c: Config, w: World)
    requires Sendable(c)
  {
    forall r: Response, from, transport | r in w.responses && ServerKeyOf(r) == ServerKeyOf(c.invite) ::
      var v := ActOrRestart(c, w, ResponseArrives(r, from, transport));
      && (Waiting(w) ==>
            && v.clientCore == w.clientCore + [r] && (Waiting(v) <==> !Final(r))
            && v.requests == w.requests + if Refusal(r) then [OnWire(BuildAck(c.invite, r))] else [])
      && (w.client.Running? && w.client.state.Completed? && Refusal(r) ==>
            AckedAgain(c, w, v))
  }

  // The core's answers are put on the wire until it has decided.
  ghost predicate AnswersAreSent(c: Config, w: World)
    requires Sendable(c)
  {
    forall r: Response | Undecided(w) && ServerKeyOf(r) == ServerKeyOf(c.invite) ::
      var v := ActOrRestart(c, w, CoreAnswers(r));
      && v.responses == w.responses + [OnWire(r)]
      && (if !Final(r) then Undecided(v) else if Refusal(r) then Refused(v) else v.server == Some(Stopped))
  }

  // A timeout that fires makes its side say something or stop.
  ghost predicate TimersFire(c: Config, w: World)
    requires Sendable(c)
  {
    && (forall content | CanHappen(c, w, ClientTimeout(content)) ::
          var v := ActOrRestart(c, w, ClientTimeout(content));
          v == w.(client := Stopped)
          || (Waiting(w) && v.(client := w.client) == w.(requests := w.requests + [OnWire(c.invite)])))
    && (forall content | CanHappen(c, w, ServerTimeout(content)) ::
          var v := ActOrRestart(c, w, ServerTimeout(content));
          v == w.(server := Some(Stopped))
          || (Undecided(w) && |v.responses| == |w.responses| + 1 && Last(v.responses).start == StatusLine(100))
          || (Refused(w) && v.(server := w.server) == w.(responses := w.responses + Echo(w))))
  }

  // An error of the transport ends a side that has not done its part; being told to
  // stop ends either.
  ghost predicate FailuresEnd(c: Config, w: World)
    requires Sendable(c)
  {
    && ActOrRestart(c, w, ClientFails) == w.(client := if Waiting(w) then Stopped else w.client)
    && ActOrRestart(c, w, ClientTerminated) == w.(client := Stopped)
    && (w.server.Some? ==>
          && ActOrRestart(c, w, ServerFails) == w.(server := if Undecided(w) || Refused(w) then Some(Stopped) else w.server)
          && ActOrRestart(c, w, ServerTerminated) == w.(server := Some(Stopped)))
  }

  lemma FailuresDo(c: Config, w: World)
    requires Sendable(c)
    ensures FailuresEnd(c, w)
  {
    hide Wires, Told;
    FewEffects(CoreError, Unhandled);
    assert w.requests + [] == w.requests && w.clientCore + [] == w.clientCore;
    assert w.responses + [] == w.responses && w.serverCore + [] == w.serverCore;
  }

  lemma ClientTimes(c: Config, w: World, content: Content)
    requires Sendable(c) && Reached(c, w) && CanHappen(c, w, ClientTimeout(content))
    ensures var v := ActOrRestart(c, w, ClientTimeout(content));
            v == w.(client := Stopped)
            || (Waiting(w) && v.(client := w.client) == w.(requests := w.requests + [OnWire(c.invite)]))
  {
    hide LongInv, OnWire, Wires, Told, BuildAck;
    FewEffects(CoreError, Unhandled);
    FewEffects(Unhandled, Unhandled);
    FewEffects(Send(c.invite), Unhandled);
    assert w.requests + [] == w.requests && w.clientCore + [] == w.clientCore;
  }

  lemma ServerTimes(c: Config, w: World, content: Content)
    requires Sendable(c) && Reached(c, w) && CanHappen(c, w, ServerTimeout(content))
    ensures var v := ActOrRestart(c, w, ServerTimeout(content));
            v == w.(server := Some(Stopped))
            || (Undecided(w) && |v.responses| == |w.responses| + 1 && Last(v.responses).start == StatusLine(100))
            || (Refused(w) && v.(server := w.server) == w.(responses := w.responses + Echo(w)))
  {
    hide LongInv, OnWire, Wires, Told, EnsureTarget, Server.Sent, Server.Step, ServerKeyOf, ToResponse;
    LongLast(c, w);
    var p := w.server.value;
    TimeoutStep(p, content);
    SentIsSend(p.data);
    var es := Server.Step(p, Timeout(content)).1;
    assert w.responses + [] == w.responses && w.serverCore + [] == w.serverCore;
    if es == [] || !es[0].Send? {
      FewEffects(CoreError, Unhandled);
      FewEffects(Unhandled, Unhandled);
      FewEffects(Crash, Unhandled);
    } else if p.state.Proceeding? {
      SentSeen(p.data, ToResponse(p.data.request, 100, ""));
      TryingIs(p.data.request);
    } else {
      SentSeen(p.data, p.data.last.value);
    }
  }

  lemma SentIsSend(d: Server.Data)
    ensures forall r: Response :: Server.Sent(d, r).Send?
  {
  }

  lemma TryingIs(q: Request)
    ensures ToResponse(q, 100, "").start == StatusLine(100)
  {
  }

  lemma TimeoutStep(p: Server.Machine, content: Content)
    requires p.Running? && (!p.state.Proceeding? ==> p.data.last.Some?)
    ensures var (q, es) := Server.Step(p, Timeout(content));
            || (q == Stopped && (es == [] || es == [CoreError] || es == [Unhandled] || es == [Crash]))
            || (p.state.Proceeding? && es == [Server.Sent(p.data, ToResponse(p.data.request, 100, ""))])
            || (p.state.Completed? && es == [Server.Sent(p.data, p.data.last.value)])
  {
    hide EnsureTarget, ToResponse;
  }

  // In every run of the two transactions, late copies included.
  lemma InviteDelivery(c: Config, past: seq<Action>, w: World)
    requires Sendable(c) && LongRun(c, Begin(c), past, w)
    ensures AcksConfirm(c, w) && CopiesAreAnswered(c, w) && ResponsesAreTold(c, w) && AnswersAreSent(c, w)
    ensures TimersFire(c, w) && FailuresEnd(c, w)
  {
    hide LongRun, ActOrRestart, CanHappen, LongInv, Configured, Late, Begin, Confirmed, OnWire, BuildAck, ServerKeyOf;
    hide Final, Refusal, Undecided, Refused, Waiting, Echo, AckedAgain, TimersFire, FailuresEnd;
    BeginReaches(c);
    RunReaches(c, Begin(c), past, w);
    forall ack: Request, from, transport | ack in w.requests && ack.start.verb == Ack && Refused(w)
      ensures var v := ActOrRestart(c, w, RequestArrives(ack, from, transport));
              Confirmed(c, v) && v.(server := w.server) == w
    {
      var v := AckArrives(c, w, ack, from, transport);
    }
    forall copy: Request, from, transport | copy in w.requests && copy.start.verb == Invite && (Undecided(w) || Refused(w))
      ensures var v := ActOrRestart(c, w, RequestArrives(copy, from, transport));
              && v.(responses := w.responses) == w
              && v.responses == w.responses + Echo(w)
    {
      RequestHasKey(c, w, copy);
      var v := CopyArrives(c, w, from, transport);
    }
    ResponsesTold(c, w);
    TimersDo(c, w);
    FailuresDo(c, w);
    forall r: Response | Undecided(w) && ServerKeyOf(r) == ServerKeyOf(c.invite)
      ensures var v := ActOrRestart(c, w, CoreAnswers(r));
              && v.responses == w.responses + [OnWire(r)]
              && (if !Final(r) then Undecided(v) else if Refusal(r) then Refused(v) else v.server == Some(Stopped))
    {
      var v := AnswerIsSent(c, w, r);
    }
  }

  lemma TimersDo(c: Config, w: World)
    requires Sendable(c) && Reached(c, w)
    ensures TimersFire(c, w)
  {
    hide ActOrRestart, CanHappen, LongInv, Configured, OnWire;
    forall content | CanHappen(c, w, ClientTimeout(content))
      ensures var v := ActOrRestart(c, w, ClientTimeout(content));
              v == w.(client := Stopped)
              || (Waiting(w) && v.(client := w.client) == w.(requests := w.requests + [OnWire(c.invite)]))
    {
      ClientTimes(c, w, content);
    }
    forall content | CanHappen(c, w, ServerTimeout(content))
      ensures var v := ActOrRestart(c, w, ServerTimeout(content));
              v == w.(server := Some(Stopped))
              || (Undecided(w) && |v.responses| == |w.responses| + 1 && Last(v.responses).start == StatusLine(100))
              || (Refused(w) && v.(server := w.server) == w.(responses := w.responses + Echo(w)))
    {
      ServerTimes(c, w, content);
    }
  }

  lemma ResponsesTold(c: Config, w: World)
    requires Sendable(c) && Reached(c, w)
    ensures ResponsesAreTold(c, w)
  {
    hide ActOrRestart, CanHappen, LongInv, Configured, OnWire, BuildAck, ServerKeyOf, Final, Refusal, AckedAgain;
    forall r: Response, from, transport | r in w.responses && ServerKeyOf(r) == ServerKeyOf(c.invite)
      ensures var v := ActOrRestart(c, w, ResponseArrives(r, from, transport));
              && (Waiting(w) ==>
                    && v.clientCore == w.clientCore + [r] && (Waiting(v) <==> !Final(r))
                    && v.requests == w.requests + if Refusal(r) then [OnWire(BuildAck(c.invite, r))] else [])
              && (w.client.Running? && w.client.state.Completed? && Refusal(r) ==>
                    AckedAgain(c, w, v))
    {
      if Waiting(w) {
        var v := ResponseIsTold(c, w, r, from, transport);
      } else if w.client.Running? && Refusal(r) {
        var v := RefusalIsAcknowledged(c, w, r, from, transport);
      }
    }
  }

  /* ----- No dead end ----- */

  // From every state of a run in which the client still waits and the server has
  // refused, two deliveries confirm the server.
  lemma RefusalCanBeConfirmed(c: Config, w: World, r: Response, from: Source, transport: string)
    returns (actions: seq<Action>, end: World)
    requires Sendable(c) && Reached(c, w) && Waiting(w) && Refused(w)
    requires r in w.responses && ServerKeyOf(r) == ServerKeyOf(c.invite) && Refusal(r)
    ensures LongRun(c, w, actions, end) && Confirmed(c, end) && !Waiting(end) && end.clientCore == w.clientCore + [r]
  {
    BareOnWire(BuildAck(c.invite, r));
    assert BuildAck(c.invite, r).start == RequestLine(Ack, c.invite.start.uri);
    hide LongRun, LateCopies, ActOrRestart, CanHappen, Reached, Late, OnWire, ServerKeyOf, Confirmed, BuildAck;
    var told := ResponseArrives(r, from, transport);
    var v := ResponseIsTold(c, w, r, from, transport);
    StillReached(c, w, told);
    var ack := OnWire(BuildAck(c.invite, r));
    assert ack in v.requests;
    var acked := RequestArrives(ack, from, transport);
    end := AckArrives(c, v, ack, from, transport);
    NoSteps(c, end);
    OneStep(c, v, acked, [], end);
    OneStep(c, w, told, [acked] + [], end);
    actions := [told] + ([acked] + []);
  }

  lemma StillReached(c: Config, w: World, a: Action)
    requires Sendable(c) && Reached(c, w) && CanHappen(c, w, a)
    ensures Reached(c, ActOrRestart(c, w, a))
  {
    hide LongInv, Configured, ActOrRestart, CanHappen, Late;
    LongAct(c, w, a);
    ActKeeps(c, w, a);
  }

  // The response with which the core refuses what it was told.
  lemma Refuse(c: Config, w: World, code: StatusCode) returns (r: Response)
    requires Sendable(c) && Reached(c, w) && Undecided(w) && code >= 300
    ensures ServerKeyOf(r) == ServerKeyOf(c.invite) && r.start == StatusLine(code)
    ensures ServerKeyOf(OnWire(r)) == ServerKeyOf(r) && OnWire(r).start == r.start && Refusal(OnWire(r)) && Refusal(r)
  {
    var q := w.server.value.data.request;
    r := ToResponse(q, code, "");
    BareOnWire(r);
    KeysSurviveTheWire(r);
    assert q.cseq == OnWire(q).cseq == c.invite.cseq;
    assert ServerKeyOf(r) == ServerKeyOf(q).(value := ServerKeyOf(q).value.(verb := q.cseq.verb));
    assert q.start == OnWire(q).start;
  }

  // A core can refuse with any code, and be heard and acknowledged.
  lemma UndecidedCanBeConfirmed(c: Config, w: World, code: StatusCode, from: Source, transport: string)
    returns (actions: seq<Action>, end: World)
    requires Sendable(c) && Reached(c, w) && Waiting(w) && Undecided(w) && code >= 300
    ensures LongRun(c, w, actions, end) && Confirmed(c, end) && !Waiting(end)
    ensures end.clientCore != [] && Last(end.clientCore).start == StatusLine(code)
  {
    hide LongRun, LateCopies, ActOrRestart, CanHappen, Reached, Late, OnWire, ServerKeyOf, Confirmed, ServerSees;
    var r := Refuse(c, w, code);
    var v := AnswerIsSent(c, w, r);
    StillReached(c, w, CoreAnswers(r));
    assert OnWire(r) in v.responses;
    var rest: seq<Action>;
    rest, end := RefusalCanBeConfirmed(c, v, OnWire(r), from, transport);
    OneStep(c, w, CoreAnswers(r), rest, end);
    actions := [CoreAnswers(r)] + rest;
  }

  // From every state of a run in which the client still waits, with no server
  // running or one that has not decided, the INVITE can be refused with any code,
  // and the refusal heard and acknowledged.
  lemma NoDeadEnd(c: Config, past: seq<Action>, w: World, code: StatusCode, from: Source, transport: string)
    returns (actions: seq<Action>, end: World)
    requires Sendable(c) && LongRun(c, Begin(c), past, w) && Waiting(w) && code >= 300
    requires w.server.Some? && w.server.value.Running? ==> Undecided(w)
    ensures LongRun(c, w, actions, end) && Confirmed(c, end) && !Waiting(end)
    ensures end.clientCore != [] && Last(end.clientCore).start == StatusLine(code)
  {
    BareOnWire(c.invite);
    assert OnWire(c.invite).IsRequest();
    hide LongRun, LateCopies, ActOrRestart, CanHappen, LongInv, Configured, Late, OnWire, Confirmed, Begin, Last;
    BeginReaches(c);
    RunReaches(c, Begin(c), past, w);
    if w.server.Some? && w.server.value.Running? {
      actions, end := UndecidedCanBeConfirmed(c, w, code, from, transport);
    } else {
      var copy := RequestArrives(OnWire(c.invite), from, transport);
      InviteOnWire(c, w);
      var v := StartsAgain(c, w, from, transport);
      StillReached(c, w, copy);
      var rest: seq<Action>;
      rest, end := UndecidedCanBeConfirmed(c, v, code, from, transport);
      OneStep(c, w, copy, rest, end);
      actions := [copy] + rest;
    }
  }
}
