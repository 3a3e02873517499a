/**
 A non-INVITE client transaction and the server transaction it creates, over the
 same kind of network as in the INVITE case. What the server sends is kept in
 order, so that "the last response sent" can be spoken of.
 */
module NonInviteAgreement {
  import opened Wrappers
  import opened Messages
  import opened Transactions
  import opened Agreement
  import Client = ClientNonInvite
  import Server = ServerNonInvite

  datatype Config = Config(
    request: Request, clientReliable: bool, serverReliable: bool, clientTimers: Timers, serverTimers: Timers)

  predicate Sendable(c: Config) {
    !c.request.start.verb.Invite? && !c.request.start.verb.Ack? && MatchingCSeq(c.request) && Branch(c.request).Some?
  }

  datatype World = World(
    client: Client.Machine,
    server: Option<Server.Machine>,
    requests: seq<Message>,
    responses: seq<Message>,
    clientCore: seq<Message>,
    serverCore: seq<Message>)

  datatype Action =
    | ClientEvent(event: Event)
    | ServerTimeout(content: Content)
    | ServerFails
    | ServerTerminated
    | CoreAnswers(answer: Response)
    | RequestArrives(request: Request, from: Source, transport: string)
    | ResponseArrives(response: Response, from: Source, transport: string)

  function ClientMoves(w: World, r: (Client.Machine, seq<Effect>)): World {
    w.(client := r.0, requests := w.requests + Wires(r.1), clientCore := w.clientCore + Told(r.1))
  }

  function ServerMoves(w: World, r: (Server.Machine, seq<Effect>)): World {
    w.(server := Some(r.0), responses := w.responses + Wires(r.1), serverCore := w.serverCore + Told(r.1))
  }

  function ServerSees(w: World, e: Event): World {
    if w.server.Some? then ServerMoves(w, Server.Step(w.server.value, e)) else w
  }

  function ClientSees(w: World, e: Event): World {
    ClientMoves(w, Client.Step(w.client, e))
  }

  function Dispatch(c: Config, w: World, q: Request): World {
    if ServerKeyOf(q) != ServerKeyOf(c.request) then w
    else if w.server.Some? then ServerSees(w, IncomingRequest(q))
    else ServerMoves(w, Server.Start(q, c.serverReliable, c.serverTimers))
  }

  function Act(c: Config, w: World, a: Action): World {
    match a
    case ClientEvent(e) => ClientSees(w, e)
    case ServerTimeout(content) => ServerSees(w, Timeout(content))
    case ServerFails => ServerSees(w, TransportError)
    case ServerTerminated => ServerSees(w, Terminate)
    case CoreAnswers(r) => if ServerKeyOf(r) == ServerKeyOf(c.request) then ServerSees(w, OutgoingResponse(r)) else w
    case RequestArrives(q, from, transport) => Dispatch(c, w, Received(q, from, transport))
    case ResponseArrives(r, from, transport) =>
      var got := Received(r, from, transport);
      if ClientKeyOf(got) == ClientKeyOf(c.request) then ClientSees(w, IncomingResponse(got)) else w
  }

  // The client's timers may fire at any time here, even stale ones.
  predicate CanHappen(c: Config, w: World, a: Action) {
    match a
    case ClientEvent(e) => !e.IncomingRequest? && !e.IncomingResponse? && !e.OutgoingResponse?
    case ServerTimeout(content) =>
      w.server.Some? && w.server.value.Running?
      && w.server.value.timer.Some? && w.server.value.timer.value.content == content
    case RequestArrives(q, _, _) =>
      && MatchingCSeq(q)
      && (q in w.requests || ServerKeyOf(q) != ServerKeyOf(c.request))
    case ResponseArrives(r, _, _) => r in w.responses || ClientKeyOf(r) != ClientKeyOf(c.request)
    case _ => true
  }

  // A copy of the request that arrives when its transaction has ended.
  predicate Late(c: Config, w: World, a: Action) {
    a.RequestArrives? && w.server == Some(Stopped) && ServerKeyOf(a.request) == ServerKeyOf(c.request)
  }

  predicate Possible(c: Config, w: World, a: Action) {
    CanHappen(c, w, a) && !Late(c, w, a)
  }

  function Begin(c: Config): World {
    ClientMoves(World(Stopped, None, [], [], [], []), Client.Start(c.request, c.clientReliable, c.clientTimers))
  }

  predicate Run(c: Config, w: World, actions: seq<Action>, end: World)
    decreases |actions|
  {
    if actions == [] then end == w
    else Possible(c, w, actions[0]) && Run(c, Act(c, w, actions[0]), actions[1..], end)
  }

  /* ----- The joint invariant ----- */

  ghost predicate ServerInv(c: Config, w: World) {
    && (forall m | m in w.responses :: m.start.StatusLine? && OnWire(m) == m)
    && (forall m, n | m in w.responses && n in w.responses && Final(m) && Final(n) :: m == n)
    && (w.server.None? ==> w.responses == [] && w.serverCore == [])
    && (w.server.Some? ==> |w.serverCore| == 1 && w.serverCore[0] == OnWire(c.request).(via := w.serverCore[0].via))
    && (w.server.Some? && w.server.value.Running? ==>
          var p := w.server.value;
          && (p.state.Trying? <==> w.responses == [])
          && (!p.state.Trying? ==> p.data.last.Some? && Last(w.responses) == OnWire(p.data.last.value))
          && (p.state.Completed? ==> Final(Last(w.responses)))
          && (!p.state.Completed? ==> forall m | m in w.responses :: !Final(m)))
  }

  ghost predicate ClientInv(c: Config, w: World) {
    && (forall m | m in w.requests :: m == OnWire(c.request))
    && (forall m | m in w.clientCore :: m.start.StatusLine? && m in w.responses)
    && (forall i | 0 <= i < |w.clientCore| - 1 :: !Final(w.clientCore[i]))
    && (w.client.Running? ==>
          && w.client.data.request == c.request
          && (!w.client.state.Completed? ==> forall m | m in w.clientCore :: !Final(m)))
  }

  ghost predicate Inv(c: Config, w: World) {
    ServerInv(c, w) && ClientInv(c, w)
  }

  /* ----- Machine steps ----- */

  // What the server says: something new, its last response, or nothing.
  datatype Speech = New(response: Response) | Repeat | Silence

  function Speaks(p: Server.Machine, e: Event): Speech
    requires p.Running?
  {
    if e.OutgoingResponse? && !p.state.Completed? then New(e.answer)
    else if e.IncomingRequest? && !p.state.Trying? && p.data.last.Some? then Repeat
    else Silence
  }

  lemma ServerDoes(p: Server.Machine, e: Event)
    requires p.Running?
    ensures var r := Server.Step(p, e);
            match Speaks(p, e)
            case New(x) =>
              && r.1 == [Server.Sent(p.data, x)]
              && (r.0.Running? ==> r.0.data.last == Some(EnsureTarget(x, p.data.request))
                                   && r.0.state == if Final(x) then Server.Completed else Server.Proceeding)
            case Repeat => r.0 == p && r.1 == [Server.Sent(p.data, p.data.last.value)]
            case Silence =>
              && (r.1 == [] || (|r.1| == 1 && !r.1[0].Send? && !r.1[0].ToCore?))
              && (r.0.Running? ==> r.0.data == p.data && r.0.state == p.state)
  {
    hide EnsureTarget;
    if e.OutgoingResponse? {
      assert [Server.Sent(p.data, e.answer)] + [] == [Server.Sent(p.data, e.answer)];
    }
  }

  lemma SentSeen(d: Server.Data, r: Response)
    ensures Wires([Server.Sent(d, r)]) == [OnWire(r)] && Told([Server.Sent(d, r)]) == []
    ensures OnWire(EnsureTarget(r, d.request)) == OnWire(r)
    ensures EnsureTarget(r, d.request).start == r.start == OnWire(r).start && OnWire(OnWire(r)) == OnWire(r)
  {
    hide EnsureTarget, OnWire;
    FewEffects(Server.Sent(d, r), CoreError);
    TargetIsSettled(r, d.request);
    StartsStay(r, d.request);
  }

  lemma QuietEffects(es: seq<Effect>)
    requires es == [] || (|es| == 1 && !es[0].Send? && !es[0].ToCore?)
    ensures Wires(es) == [] && Told(es) == []
  {
    FewEffects(CoreError, Unhandled);
    if es != [] {
      assert es == [es[0]];
      FewEffects(es[0], Unhandled);
    }
  }

  lemma ServerSpeaks(c: Config, w: World, e: Event)
    requires ServerInv(c, w) && w.server.Some? && w.server.value.Running? && Speaks(w.server.value, e).New?
    ensures ServerInv(c, ServerSees(w, e)) && w.responses <= ServerSees(w, e).responses
    ensures ServerSees(w, e).(server := w.server, responses := w.responses) == w
  {
    hide OnWire, EnsureTarget, Server.Step, Server.Sent;
    var p := w.server.value;
    ServerDoes(p, e);
    SentSeen(p.data, e.answer);
    assert w.serverCore + [] == w.serverCore;
  }

  lemma ServerRepeats(c: Config, w: World, e: Event)
    requires ServerInv(c, w) && w.server.Some? && w.server.value.Running? && !Speaks(w.server.value, e).New?
    ensures ServerInv(c, ServerSees(w, e)) && w.responses <= ServerSees(w, e).responses
    ensures ServerSees(w, e).(server := w.server, responses := w.responses) == w
  {
    hide OnWire, EnsureTarget, Server.Step, Server.Sent, Final;
    var p := w.server.value;
    ServerDoes(p, e);
    assert w.serverCore + [] == w.serverCore;
    if Speaks(p, e).Repeat? {
      SentSeen(p.data, p.data.last.value);
      assert Last(w.responses) in w.responses;
    } else {
      QuietEffects(Server.Step(p, e).1);
      assert w.responses + [] == w.responses;
    }
  }

  lemma ServerKeeps(c: Config, w: World, e: Event)
    requires ServerInv(c, w) && w.server.Some? && w.server.value.Running?
    ensures ServerInv(c, ServerSees(w, e)) && w.responses <= ServerSees(w, e).responses
    ensures ServerSees(w, e).(server := w.server, responses := w.responses) == w
  {
    hide ServerInv, ServerSees, Speaks;
    if Speaks(w.server.value, e).New? {
      ServerSpeaks(c, w, e);
    } else {
      ServerRepeats(c, w, e);
    }
  }

  // What a client event makes of the two histories.
  ghost predicate ClientEffect(p: Client.Machine, e: Event, r: (Client.Machine, seq<Effect>))
    requires p.Running?
  {
    && Told(r.1) == (if e.IncomingResponse? && !p.state.Completed? then [OnWire(e.response)] else [])
    && (Wires(r.1) == [] || Wires(r.1) == [OnWire(p.data.request)])
    && (p.state.Completed? ==> Wires(r.1) == [])
    && (r.0.Running? ==>
          && r.0.data.request == p.data.request
          && (p.state.Completed? ==> r.0.state.Completed?)
          && (e.IncomingResponse? && Final(e.response) ==> r.0.state.Completed?))
  }

  lemma ClientDoes(p: Client.Machine, e: Event)
    requires p.Running?
    ensures ClientEffect(p, e, Client.Step(p, e))
  {
    hide OnWire, Client.Step, Wires, Told;
    if e.IncomingResponse? {
      ClientAnswered(p, e.response);
    } else if e.Retry? && !p.state.Completed? {
      ClientRetries(p, e.lastDelay);
    } else {
      ClientQuiet(p, e);
    }
  }

  lemma ClientQuiet(p: Client.Machine, e: Event)
    requires p.Running? && !e.IncomingResponse? && (e.Retry? ==> p.state.Completed?)
    ensures ClientEffect(p, e, Client.Step(p, e))
  {
    hide OnWire, Wires, Told;
    QuietEffects([]);
    QuietEffects([CoreError]);
    QuietEffects([Unhandled]);
  }

  lemma ClientRetries(p: Client.Machine, last: int)
    requires p.Running? && !p.state.Completed?
    ensures ClientEffect(p, Retry(last), Client.Step(p, Retry(last)))
  {
    hide OnWire, Wires, Told;
    var wait := if p.state.Trying? then Min(last * 2, p.data.timers.t2) else p.data.timers.t2;
    FewEffects(Send(p.data.request), ArmRetry(wait));
    FewEffects(ArmRetry(wait), Unhandled);
  }

  lemma ClientAnswered(p: Client.Machine, r: Response)
    requires p.Running?
    ensures ClientEffect(p, IncomingResponse(r), Client.Step(p, IncomingResponse(r)))
  {
    hide OnWire, Wires, Told, Client.Cancels;
    QuietEffects([]);
    FewEffects(ToCore(r), Unhandled);
    CancelsAreQuiet(Client.Cancels(p.data));
    Headed(ToCore(r), Client.Cancels(p.data));
    assert [ToCore(r)] + [] == [ToCore(r)];
  }

  lemma Headed(e: Effect, es: seq<Effect>)
    ensures Wires([e] + es) == Wires([e]) + Wires(es) && Told([e] + es) == Told([e]) + Told(es)
  {
    hide OnWire;
    assert ([e] + es)[1..] == es;
    FewEffects(e, e);
  }

  lemma {:induction false} CancelsAreQuiet(es: seq<Effect>)
    requires forall e | e in es :: !e.Send? && !e.ToCore?
    ensures Wires(es) == [] && Told(es) == []
  {
    if es != [] {
      CancelsAreQuiet(es[1..]);
    }
  }

  lemma ClientKeeps(c: Config, w: World, e: Event)
    requires ClientInv(c, w) && w.client.Running?
    requires e.IncomingResponse? ==> OnWire(e.response) in w.responses
    ensures ClientInv(c, ClientSees(w, e))
  {
    hide OnWire, Client.Step;
    ClientDoes(w.client, e);
    assert w.clientCore + [] == w.clientCore;
    if e.IncomingResponse? {
      BareOnWire(e.response);
    }
  }

  lemma ServerHalf(c: Config, w: World, v: World)
    requires ServerInv(c, w)
    requires v.server == w.server && v.responses == w.responses && v.serverCore == w.serverCore
    ensures ServerInv(c, v)
  {
    hide OnWire, Final;
  }

  lemma ClientHalf(c: Config, w: World, v: World)
    requires ClientInv(c, w)
    requires v.client == w.client && v.requests == w.requests && v.clientCore == w.clientCore
    requires w.responses <= v.responses
    ensures ClientInv(c, v)
  {
    hide OnWire, Final;
    assert forall m | m in w.responses :: m in v.responses;
  }

  /* ----- Every action keeps it ----- */

  lemma ClientActs(c: Config, w: World, e: Event)
    requires Inv(c, w) && (e.IncomingResponse? ==> OnWire(e.response) in w.responses)
    ensures Inv(c, ClientSees(w, e))
  {
    hide ServerInv, ClientInv, ClientSees;
    if w.client.Running? {
      ClientKeeps(c, w, e);
      ClientFrame(w, e);
      ServerHalf(c, w, ClientSees(w, e));
    } else {
      StoppedClient(w, e);
    }
  }

  lemma ServerActs(c: Config, w: World, e: Event)
    requires Inv(c, w)
    ensures Inv(c, ServerSees(w, e))
  {
    hide OnWire, Final, Server.Step, ServerInv, ClientInv;
    if w.server.Some? && w.server.value.Running? {
      ServerKeeps(c, w, e);
      ClientHalf(c, w, ServerSees(w, e));
    } else if w.server.Some? {
      StoppedServer(w, e);
    }
  }

  lemma ClientFrame(w: World, e: Event)
    ensures var v := ClientSees(w, e);
            v.(client := w.client, requests := w.requests, clientCore := w.clientCore) == w
  {
    hide Client.Step, Wires, Told;
  }

  lemma StoppedClient(w: World, e: Event)
    requires w.client.Stopped?
    ensures ClientSees(w, e) == w
  {
    QuietEffects([]);
    assert w.clientCore + [] == w.clientCore;
    assert w.requests + [] == w.requests;
  }

  lemma StoppedServer(w: World, e: Event)
    requires w.server == Some(Stopped)
    ensures ServerSees(w, e) == w
  {
    QuietEffects([]);
    assert w.serverCore + [] == w.serverCore;
    assert w.responses + [] == w.responses;
  }

  lemma FirstArrival(c: Config, w: World, from: Source, transport: string)
    requires Inv(c, w) && w.server.None?
    ensures var got := Received(OnWire(c.request), from, transport);
            Inv(c, ServerMoves(w, Server.Start(got, c.serverReliable, c.serverTimers)))
  {
    var got: Request := Received(OnWire(c.request), from, transport);
    ReceivedBody(c.request, from, transport);
    hide OnWire, Received, Final;
    FewEffects(ToCore(got), CoreError);
    assert [] + [ToCore(got)] == [ToCore(got)];
    var v := ServerMoves(w, Server.Start(got, c.serverReliable, c.serverTimers));
    assert v.responses == [] && v.serverCore == [OnWire(got)];
    ClientHalf(c, w, v);
  }

  lemma RequestArrival(c: Config, w: World, q: Request, from: Source, transport: string)
    requires Inv(c, w) && Possible(c, w, RequestArrives(q, from, transport))
    ensures Inv(c, Act(c, w, RequestArrives(q, from, transport)))
  {
    hide OnWire, ServerSees, ServerMoves, Received, ServerKeyOf, ServerInv;
    KeysSurviveReceipt(q, from, transport);
    if ServerKeyOf(q) == ServerKeyOf(c.request) {
      if w.server.Some? {
        ServerActs(c, w, IncomingRequest(Received(q, from, transport)));
      } else {
        FirstArrival(c, w, from, transport);
      }
    }
  }

  lemma ActKeepsInv(c: Config, w: World, a: Action)
    requires Inv(c, w) && Possible(c, w, a)
    ensures Inv(c, Act(c, w, a))
  {
    hide Inv, ClientSees, ServerSees, Dispatch, Received, ServerKeyOf, ClientKeyOf;
    match a
    case RequestArrives(q, from, transport) => RequestArrival(c, w, q, from, transport);
    case ResponseArrives(r, from, transport) =>
      KeysSurviveReceipt(r, from, transport);
      if r in w.responses && ClientKeyOf(r) == ClientKeyOf(c.request) {
        ReceivedResponse(c, w, r, from, transport);
        ClientActs(c, w, IncomingResponse(Received(r, from, transport)));
      }
    case ClientEvent(e) => ClientActs(c, w, e);
    case ServerTimeout(content) => ServerActs(c, w, Timeout(content));
    case ServerFails => ServerActs(c, w, TransportError);
    case ServerTerminated => ServerActs(c, w, Terminate);
    case CoreAnswers(r) => ServerActs(c, w, OutgoingResponse(r));
  }

  lemma ReceivedResponse(c: Config, w: World, r: Response, from: Source, transport: string)
    requires Inv(c, w) && r in w.responses
    ensures OnWire(Received(r, from, transport)) == r
  {
    assert OnWire(r) == r;
  }

  lemma BeginInv(c: Config)
    ensures Inv(c, Begin(c))
  {
    hide OnWire, Final;
    var es := Client.Start(c.request, c.clientReliable, c.clientTimers).1;
    assert es[0] == Send(c.request);
    CancelsAreQuiet(es[1..]);
  }

  lemma {:induction false} RunKeepsInv(c: Config, w: World, actions: seq<Action>, end: World)
    requires Inv(c, w) && Run(c, w, actions, end)
    ensures Inv(c, end)
    decreases |actions|
  {
    hide Inv, Act, Possible;
    if actions != [] {
      ActKeepsInv(c, w, actions[0]);
      RunKeepsInv(c, Act(c, w, actions[0]), actions[1..], end);
    }
  }

  /* ----- The theorem ----- */

  // A duplicate that reaches a server which has answered is answered by the last
  // response it sent, and changes nothing else.
  ghost predicate DuplicatesRepeat(c: Config, w: World) {
    forall q: Request, from, transport |
        Possible(c, w, RequestArrives(q, from, transport)) && ServerKeyOf(q) == ServerKeyOf(c.request)
        && w.server.Some? && w.responses != [] ::
      Act(c, w, RequestArrives(q, from, transport)) == w.(responses := w.responses + [Last(w.responses)])
  }

  lemma DuplicatesHold(c: Config, w: World)
    requires Inv(c, w)
    ensures DuplicatesRepeat(c, w)
  {
    hide OnWire, Received, ServerKeyOf, Final, Server.Step, Server.Sent;
    forall q: Request, from, transport |
        Possible(c, w, RequestArrives(q, from, transport)) && ServerKeyOf(q) == ServerKeyOf(c.request)
        && w.server.Some? && w.responses != []
      ensures Act(c, w, RequestArrives(q, from, transport)) == w.(responses := w.responses + [Last(w.responses)])
    {
      var p := w.server.value;
      var got := Received(q, from, transport);
      KeysSurviveReceipt(q, from, transport);
      ServerDoes(p, IncomingRequest(got));
      SentSeen(p.data, p.data.last.value);
      assert w.serverCore + [] == w.serverCore;
    }
  }

  lemma DecisionHolds(c: Config, w: World)
    requires Inv(c, w)
    ensures HeardOnce(c.request, w.serverCore) && OneDecision(Range(w.responses))
    ensures ToldOnce(w.clientCore, Range(w.responses))
  {
    hide OnWire, Final;
  }

  // In every run, as long as no copy of the request arrives late.
  lemma PunctualAgreement(c: Config, actions: seq<Action>, end: World)
    requires Sendable(c) && Run(c, Begin(c), actions, end)
    ensures HeardOnce(c.request, end.serverCore) && OneDecision(Range(end.responses))
    ensures ToldOnce(end.clientCore, Range(end.responses)) && DuplicatesRepeat(c, end)
  {
    hide Inv, Run, Begin;
    BeginInv(c);
    RunKeepsInv(c, Begin(c), actions, end);
    DecisionHolds(c, end);
    DuplicatesHold(c, end);
  }

  /* ----- Copies of the request that arrive late ----- */

  // To the router a late copy is a new request.
  function ActOrRestart(c: Config, w: World, a: Action): World {
    if Late(c, w, a) then
      ServerMoves(w, Server.Start(Received(a.request, a.from, a.transport), c.serverReliable, c.serverTimers))
    else Act(c, w, a)
  }

  predicate LongRun(c: Config, w: World, actions: seq<Action>, end: World)
    decreases |actions|
  {
    if actions == [] then end == w
    else CanHappen(c, w, actions[0]) && LongRun(c, ActOrRestart(c, w, actions[0]), actions[1..], end)
  }

  function LateCopies(c: Config, w: World, actions: seq<Action>): nat
    decreases |actions|
  {
    if actions == [] then 0
    else (if Late(c, w, actions[0]) then 1 else 0) + LateCopies(c, ActOrRestart(c, w, actions[0]), actions[1..])
  }

  predicate Undecided(w: World) {
    w.server.Some? && w.server.value.Running? && !w.server.value.state.Completed?
  }

  // Each server that was started has made one decision at most; one that runs
  // repeats its own.
  ghost predicate Decided(w: World) {
    && |FinalsOf(Range(w.responses))| + (if Undecided(w) then 1 else 0) <= |w.serverCore|
    && (w.server.Some? && w.server.value.Running? ==>
          var last := w.server.value.data.last;
          if Undecided(w) then last.Some? ==> !Final(last.value)
          else last.Some? && OnWire(last.value) in w.responses)
  }

  // What even restarts leave intact.
  ghost predicate LongInv(c: Config, w: World) {
    && ClientInv(c, w)
    && (w.server.None? ==> w.serverCore == [])
    && (forall m | m in w.responses :: m.start.StatusLine? && OnWire(m) == m)
    && (forall m | m in w.serverCore :: m == OnWire(c.request).(via := m.via))
    && Decided(w)
  }

  // How often the core has heard, whether or not it has heard at all.
  function Expected(w: World): nat {
    if w.server.None? then 0 else 1
  }

  // What a running server says, on the wire.
  lemma ServerSays(w: World, e: Event) returns (said: seq<Message>)
    requires w.server.Some? && w.server.value.Running? && Decided(w)
    ensures var v := ServerSees(w, e);
            && v.responses == w.responses + said && v.(server := w.server, responses := w.responses) == w && v.server.Some?
            && |said| <= 1 && (forall m | m in said :: m.start.StatusLine? && OnWire(m) == m)
            && (said == [] || said[0] in w.responses || !Final(said[0]) || (Undecided(w) && !Undecided(v)))
            && (v.server.value.Running? ==>
                  var last := v.server.value.data.last;
                  if Undecided(v) then Undecided(w) && (last.Some? ==> !Final(last.value))
                  else last.Some? && OnWire(last.value) in v.responses)
  {
    hide OnWire, EnsureTarget, Server.Step, Server.Sent, Wires, Told, FinalsOf;
    var p := w.server.value;
    ServerDoes(p, e);
    said := Wires(Server.Step(p, e).1);
    assert w.serverCore + [] == w.serverCore;
    match Speaks(p, e)
    case New(x) => SentSeen(p.data, x);
    case Repeat => SentSeen(p.data, p.data.last.value);
    case Silence => QuietEffects(Server.Step(p, e).1);
  }

  lemma SayingDecides(w: World, v: World, said: seq<Message>)
    requires |FinalsOf(Range(w.responses))| + (if Undecided(w) then 1 else 0) <= |w.serverCore|
    requires v.responses == w.responses + said && v.serverCore == w.serverCore && |said| <= 1
    requires said == [] || said[0] in w.responses || !Final(said[0]) || (Undecided(w) && !Undecided(v))
    requires Undecided(v) ==> Undecided(w)
    ensures |FinalsOf(Range(v.responses))| + (if Undecided(v) then 1 else 0) <= |v.serverCore|
  {
    hide FinalsOf, Final, Undecided;
    RangeOfBoth(w.responses, said);
    if said == [] {
      assert v.responses == w.responses;
    } else {
      OneMoreFinal(Range(w.responses), Range(said), said[0]);
    }
  }

  lemma LongServer(c: Config, w: World, e: Event)
    requires LongInv(c, w)
    ensures var v := ServerSees(w, e);
            LongInv(c, v) && v.serverCore == w.serverCore && (v.server.Some? <==> w.server.Some?)
  {
    hide OnWire, Final, ClientInv, ServerSees, FinalsOf, Range;
    if w.server.Some? && w.server.value.Running? {
      var said := ServerSays(w, e);
      SayingDecides(w, ServerSees(w, e), said);
      ClientHalf(c, w, ServerSees(w, e));
    } else if w.server.Some? {
      StoppedServer(w, e);
    } else {
      NoServer(w, e);
    }
  }

  lemma NoServer(w: World, e: Event)
    requires w.server.None?
    ensures ServerSees(w, e) == w
  {
  }

  lemma LongClient(c: Config, w: World, e: Event)
    requires LongInv(c, w) && (e.IncomingResponse? ==> OnWire(e.response) in w.responses)
    ensures var v := ClientSees(w, e);
            LongInv(c, v) && v.serverCore == w.serverCore && v.server == w.server
  {
    hide OnWire, ClientInv, ClientSees, Decided;
    if w.client.Running? {
      ClientKeeps(c, w, e);
      ClientFrame(w, e);
    } else {
      StoppedClient(w, e);
    }
    SameDecisions(w, ClientSees(w, e));
  }

  lemma SameDecisions(w: World, v: World)
    requires Decided(w) && v.server == w.server && v.responses == w.responses && v.serverCore == w.serverCore
    ensures Decided(v)
  {
  }

  // What a request that starts a server does.
  lemma Started(c: Config, w: World, from: Source, transport: string) returns (v: World)
    ensures var got := Received(OnWire(c.request), from, transport);
            && got.IsRequest()
            && v == ServerMoves(w, Server.Start(got, c.serverReliable, c.serverTimers))
            && v.server.Some? && Undecided(v) && v.server.value.data.last.None? && v.server.value.data.request == got
            && v.server.value.data.reliable == c.serverReliable && v.server.value.data.timers == c.serverTimers
            && v.serverCore == w.serverCore + [OnWire(got)]
            && v.(server := w.server, serverCore := w.serverCore) == w
  {
    var got := Received(OnWire(c.request), from, transport);
    assert got.IsRequest();
    hide OnWire, Received;
    FewEffects(ToCore(got), CoreError);
    assert [] + [ToCore(got)] == [ToCore(got)];
    v := ServerMoves(w, Server.Start(got, c.serverReliable, c.serverTimers));
    assert w.responses + [] == w.responses;
  }

  // The first arrival, or a late one.
  lemma LongStart(c: Config, w: World, from: Source, transport: string)
    requires LongInv(c, w) && (w.server.Some? ==> w.server.value.Stopped?)
    ensures var got := Received(OnWire(c.request), from, transport);
            var v := ServerMoves(w, Server.Start(got, c.serverReliable, c.serverTimers));
            LongInv(c, v) && v.serverCore == w.serverCore + [OnWire(got)] && v.server.Some?
  {
    hide OnWire, Received, ClientInv, Decided, Server.Start, ServerMoves;
    var v := Started(c, w, from, transport);
    ReceivedBody(c.request, from, transport);
    ClientHalf(c, w, v);
    assert Decided(v) by { StartDecides(w, v); }
  }

  lemma StartDecides(w: World, v: World)
    requires Decided(w) && (w.server.Some? ==> w.server.value.Stopped?)
    requires v.responses == w.responses && |v.serverCore| == |w.serverCore| + 1
    requires Undecided(v) && v.server.value.data.last.None?
    ensures Decided(v)
  {
  }

  // Only the request itself carries its key.
  lemma OnlyRequest(c: Config, w: World, q: Message)
    requires ClientInv(c, w) && q in w.requests
    ensures q == OnWire(c.request)
  {
  }

  lemma LongRequest(c: Config, w: World, q: Request, from: Source, transport: string)
    requires LongInv(c, w) && CanHappen(c, w, RequestArrives(q, from, transport))
    ensures var a := RequestArrives(q, from, transport);
            var v := ActOrRestart(c, w, a);
            && LongInv(c, v)
            && |v.serverCore| - Expected(v) == |w.serverCore| - Expected(w) + if Late(c, w, a) then 1 else 0
  {
    hide OnWire, ServerSees, ServerMoves, Received, ServerKeyOf, ClientInv, Decided;
    KeysSurviveReceipt(q, from, transport);
    if ServerKeyOf(q) == ServerKeyOf(c.request) && (w.server.None? || w.server == Some(Stopped)) {
      OnlyRequest(c, w, q);
      LongStart(c, w, from, transport);
    } else if w.server.Some? {
      LongServer(c, w, IncomingRequest(Received(q, from, transport)));
    }
  }

  lemma LongResponse(c: Config, w: World, r: Response, from: Source, transport: string)
    requires LongInv(c, w) && CanHappen(c, w, ResponseArrives(r, from, transport))
    ensures var v := Act(c, w, ResponseArrives(r, from, transport));
            LongInv(c, v) && v.serverCore == w.serverCore && v.server == w.server
  {
    hide ClientSees, ClientInv, Decided;
    KeysSurviveReceipt(r, from, transport);
    if r in w.responses && ClientKeyOf(r) == ClientKeyOf(c.request) {
      assert OnWire(r) == r;
      LongClient(c, w, IncomingResponse(Received(r, from, transport)));
    }
  }

  lemma LongAct(c: Config, w: World, a: Action)
    requires LongInv(c, w) && CanHappen(c, w, a)
    ensures var v := ActOrRestart(c, w, a);
            && LongInv(c, v)
            && |v.serverCore| - Expected(v) == |w.serverCore| - Expected(w) + if Late(c, w, a) then 1 else 0
  {
    hide LongInv, ClientSees, ServerSees, Dispatch, Received, ServerKeyOf, ClientKeyOf;
    match a
    case RequestArrives(q, from, transport) => LongRequest(c, w, q, from, transport);
    case ResponseArrives(r, from, transport) => LongResponse(c, w, r, from, transport);
    case ClientEvent(e) => LongClient(c, w, e);
    case ServerTimeout(content) => LongServer(c, w, Timeout(content));
    case ServerFails => LongServer(c, w, TransportError);
    case ServerTerminated => LongServer(c, w, Terminate);
    case CoreAnswers(r) => LongServer(c, w, OutgoingResponse(r));
  }

  lemma {:induction false} LongRunCounts(c: Config, w: World, actions: seq<Action>, end: World)
    requires LongInv(c, w) && LongRun(c, w, actions, end)
    ensures LongInv(c, end)
    ensures |end.serverCore| - Expected(end) == |w.serverCore| - Expected(w) + LateCopies(c, w, actions)
    decreases |actions|
  {
    hide LongInv, ActOrRestart, CanHappen, Late, Expected;
    if actions != [] {
      LongAct(c, w, actions[0]);
      LongRunCounts(c, ActOrRestart(c, w, actions[0]), actions[1..], end);
    }
  }

  lemma {:induction false} PunctualRun(c: Config, w: World, actions: seq<Action>, end: World)
    requires LongRun(c, w, actions, end) && LateCopies(c, w, actions) == 0
    ensures Run(c, w, actions, end)
    decreases |actions|
  {
    hide Act, CanHappen, Late;
    if actions != [] {
      PunctualRun(c, Act(c, w, actions[0]), actions[1..], end);
    }
  }

  // In every run, late copies included: the core hears of the request once and
  // once more for each late copy; no more decisions are made than it hears of the
  // request; the client's core still hears one final response at most.
  lemma NonInviteAgreement(c: Config, actions: seq<Action>, end: World)
    requires Sendable(c) && LongRun(c, Begin(c), actions, end)
    ensures |end.serverCore| == (if end.server.None? then 0 else 1) + LateCopies(c, Begin(c), actions)
    ensures HeardOnce(c.request, end.serverCore) <==> LateCopies(c, Begin(c), actions) == 0
    ensures |FinalsOf(Range(end.responses))| <= |end.serverCore| && ToldOnce(end.clientCore, Range(end.responses))
    ensures LateCopies(c, Begin(c), actions) == 0 ==> OneDecision(Range(end.responses)) && DuplicatesRepeat(c, end)
  {
    LongBegin(c);
    hide LongInv, LongRun, Begin, LateCopies, Run, OneDecision, DuplicatesRepeat;
    LongRunCounts(c, Begin(c), actions, end);
    LongHolds(c, end);
    if LateCopies(c, Begin(c), actions) == 0 {
      PunctualRun(c, Begin(c), actions, end);
      PunctualAgreement(c, actions, end);
    }
  }

  lemma LongHolds(c: Config, w: World)
    requires LongInv(c, w)
    ensures ToldOnce(w.clientCore, Range(w.responses)) && (w.server.None? ==> w.serverCore == [])
    ensures |FinalsOf(Range(w.responses))| <= |w.serverCore|
    ensures forall m | m in w.serverCore :: m == OnWire(c.request).(via := m.via)
  {
    hide OnWire, Final;
  }

  lemma LongBegin(c: Config)
    ensures LongInv(c, Begin(c)) && Begin(c).server.None? && Begin(c).serverCore == [] && Begin(c).responses == []
  {
    BeginInv(c);
    hide OnWire, ClientInv, Wires, Told;
  }

  // A copy of the request arrives where no server runs.
  lemma StartsAgain(c: Config, w: World, from: Source, transport: string) returns (v: World)
    requires Sendable(c) && OnWire(c.request) in w.requests && (w.server.Some? ==> w.server.value.Stopped?)
    ensures var a := RequestArrives(OnWire(c.request), from, transport);
            && CanHappen(c, w, a) && v == ActOrRestart(c, w, a) && (Late(c, w, a) <==> w.server.Some?)
            && Undecided(v) && v.server.value.data.request == Received(OnWire(c.request), from, transport)
            && v.server.value.data.reliable == c.serverReliable
            && v.(server := w.server, serverCore := w.serverCore) == w
  {
    v := Started(c, w, from, transport);
    KeysSurviveTheWire(c.request);
    assert MatchingCSeq(OnWire(c.request)) && OnWire(c.request).IsRequest();
    KeysSurviveReceipt(OnWire(c.request), from, transport);
    hide OnWire, Received, ServerKeyOf, Undecided, ServerMoves, Server.Start;
  }

  // The core of an undecided server decides, with any final response of its own.
  lemma Decides(c: Config, w: World, from: Source, transport: string, code: StatusCode)
    returns (r: Response, v: World)
    requires Sendable(c) && Undecided(w) && code >= 200 && w.server.value.data.reliable == c.serverReliable
    requires w.server.value.data.request == Received(OnWire(c.request), from, transport)
    ensures CanHappen(c, w, CoreAnswers(r)) && !Late(c, w, CoreAnswers(r)) && v == ActOrRestart(c, w, CoreAnswers(r))
    ensures r.start.code == code && OnWire(r) in v.responses && w.responses <= v.responses
    ensures v.requests == w.requests && v.server.Some? && (c.serverReliable <==> v.server.value.Stopped?)
    ensures v.server.value.Running? ==>
              v.server.value.state.Completed? && v.server.value.timer == Some(Wait(w.server.value.data.timers.j, Nothing))
  {
    var got := Received(OnWire(c.request), from, transport);
    r := ToResponse(got, code, "");
    KeysSurviveTheWire(c.request);
    ResponseFindsBothTransactions(OnWire(c.request), from, transport, code, "");
    hide OnWire, Received, ServerKeyOf, EnsureTarget, ToResponse, Wires;
    v := ServerSees(w, OutgoingResponse(r));
    SentSeen(w.server.value.data, r);
    assert [Server.Sent(w.server.value.data, r)] + [] == [Server.Sent(w.server.value.data, r)];
  }

  // Timer J ends a transaction that is not over yet.
  lemma Expires(c: Config, w: World) returns (v: World)
    requires w.server.Some? && w.server.value.Running? && w.server.value.state.Completed?
    requires w.server.value.timer.Some? && w.server.value.timer.value.content == Nothing
    ensures var a := ServerTimeout(Nothing); CanHappen(c, w, a) && !Late(c, w, a) && v == ActOrRestart(c, w, a)
    ensures v == w.(server := Some(Stopped))
  {
    QuietEffects([]);
    assert w.serverCore + [] == w.serverCore && w.responses + [] == w.responses;
    v := Act(c, w, ServerTimeout(Nothing));
  }

  // With any configuration a late copy can make the two starts of the server
  // decide differently: one 200, one 486.
  lemma LateCopiesCanDisagree(c: Config, from: Source, transport: string) returns (actions: seq<Action>, end: World)
    requires Sendable(c)
    ensures LongRun(c, Begin(c), actions, end) && LateCopies(c, Begin(c), actions) == 1
    ensures !OneDecision(Range(end.responses))
  {
    BareOnWire(c.request);
    assert OnWire(c.request).IsRequest();
    hide OnWire, Begin, CanHappen, Late, ActOrRestart, LongRun, LateCopies, LongInv, Undecided, OneDecision;
    var copy := RequestArrives(OnWire(c.request), from, transport);
    LongBegin(c);
    RequestOnWire(c);
    var w1 := StartsAgain(c, Begin(c), from, transport);
    var yes, w2 := Decides(c, w1, from, transport, 200);
    var w3 := w2;
    if !c.serverReliable {
      w3 := Expires(c, w2);
    }
    var w4 := StartsAgain(c, w3, from, transport);
    var no, w5 := Decides(c, w4, from, transport, 486);
    Disagree(yes, no, Range(w5.responses));
    end, actions := w5, [];
    NoSteps(c, end);
    OneStep(c, w4, CoreAnswers(no), actions, end);
    actions := [CoreAnswers(no)] + actions;
    OneStep(c, w3, copy, actions, end);
    actions := [copy] + actions;
    if !c.serverReliable {
      OneStep(c, w2, ServerTimeout(Nothing), actions, end);
      actions := [ServerTimeout(Nothing)] + actions;
    }
    OneStep(c, w1, CoreAnswers(yes), actions, end);
    actions := [CoreAnswers(yes)] + actions;
    OneStep(c, Begin(c), copy, actions, end);
    actions := [copy] + actions;
  }

  lemma RequestOnWire(c: Config)
    ensures OnWire(c.request) in Begin(c).requests
  {
    var es := Client.Start(c.request, c.clientReliable, c.clientTimers).1;
    assert es[0] == Send(c.request);
    hide OnWire;
    assert Wires(es)[0] == OnWire(c.request);
  }

  lemma NoSteps(c: Config, w: World)
    ensures LongRun(c, w, [], w) && LateCopies(c, w, []) == 0
  {
  }

  lemma OneStep(c: Config, w: World, a: Action, rest: seq<Action>, end: World)
    requires CanHappen(c, w, a) && LongRun(c, ActOrRestart(c, w, a), rest, end)
    ensures LongRun(c, w, [a] + rest, end)
    ensures LateCopies(c, w, [a] + rest) == (if Late(c, w, a) then 1 else 0) + LateCopies(c, ActOrRestart(c, w, a), rest)
  {
    hide ActOrRestart, CanHappen, Late;
    assert ([a] + rest)[1..] == rest;
  }
}
