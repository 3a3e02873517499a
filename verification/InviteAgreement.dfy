/**
 An INVITE client transaction and the server transaction it creates, over a
 network that loses, duplicates, delays and reorders: what is sent stays
 deliverable for ever, and messages of other transactions arrive at any time.
 Dispatch is lib/sippet/router.ex.
 */
module InviteAgreement {
  import opened Wrappers
  import opened Messages
  import opened Transactions
  import opened Agreement
  import Client = ClientInvite
  import Server = ServerInvite

  datatype Config = Config(
    invite: Request, clientReliable: bool, serverReliable: bool, clientTimers: Timers, serverTimers: Timers)

  // The INVITE as `Sippet.send` accepts it.
  predicate Sendable(c: Config) {
    c.invite.start.verb == Invite && MatchingCSeq(c.invite) && Branch(c.invite).Some?
  }

  function InviteKey(c: Config): ServerKey
    requires Sendable(c)
  {
    ServerKeyOf(c.invite).value
  }

  // The alias under which the server also receives ACKs.
  function AckKey(c: Config): ServerKey
    requires Sendable(c)
  {
    InviteKey(c).(verb := Ack)
  }

  // Both transactions, all that was ever put on the wire in either direction,
  // and what the two cores were told under the transactions' keys.
  datatype World = World(
    client: Client.Machine,
    server: Option<Server.Machine>,
    requests: seq<Message>,
    responses: seq<Message>,
    clientCore: seq<Message>,
    serverCore: seq<Message>)

  datatype Action =
    | ClientTimeout(content: Content)
    | ClientFails
    | ClientTerminated
    | ServerTimeout(content: Content)
    | ServerFails
    | ServerTerminated
    | CoreAnswers(answer: Response)
    | RequestArrives(request: Request, from: Source, transport: string)
    | ResponseArrives(response: Response, from: Source, transport: string)

  function ClientMoves(w: World, r: (Client.Machine, seq<Effect>)): World {
    w.(client := r.0, requests := w.requests + Wires(r.1), clientCore := w.clientCore + Told(r.1))
  }

  function ServerMoves(w: World, r: (Server.Machine, seq<Effect>)): World {
    w.(server := Some(r.0), responses := w.responses + Wires(r.1), serverCore := w.serverCore + Told(r.1))
  }

  function ServerSees(w: World, e: Event): World {
    if w.server.Some? then ServerMoves(w, Server.Step(w.server.value, e)) else w
  }

  function ClientSees(w: World, e: Event): World {
    ClientMoves(w, Client.Step(w.client, e))
  }

  // `receive_transport_message` for a request, with these two keys in the registry
  // as long as the server runs. Other requests, and ACKs without a transaction,
  // do not concern the pair.
  function Dispatch(c: Config, w: World, q: Request): World
    requires Sendable(c)
  {
    var key := ServerKeyOf(q);
    if w.server.Some? && (key == Some(InviteKey(c)) || key == Some(AckKey(c))) then ServerSees(w, IncomingRequest(q))
    else if w.server.None? && key == Some(InviteKey(c)) then
      ServerMoves(w, Server.Start(q, c.serverReliable, c.serverTimers))
    else w
  }

  function Act(c: Config, w: World, a: Action): World
    requires Sendable(c)
  {
    match a
    case ClientTimeout(content) => ClientSees(w, Timeout(content))
    case ClientFails => ClientSees(w, TransportError)
    case ClientTerminated => ClientSees(w, Terminate)
    case ServerTimeout(content) => ServerSees(w, Timeout(content))
    case ServerFails => ServerSees(w, TransportError)
    case ServerTerminated => ServerSees(w, Terminate)
    case CoreAnswers(r) =>
      if ServerKeyOf(r) == Some(InviteKey(c)) || ServerKeyOf(r) == Some(AckKey(c)) then ServerSees(w, OutgoingResponse(r))
      else w
    case RequestArrives(q, from, transport) => Dispatch(c, w, Received(q, from, transport))
    case ResponseArrives(r, from, transport) =>
      var got := Received(r, from, transport);
      if ClientKeyOf(got) == ClientKeyOf(c.invite) then ClientSees(w, IncomingResponse(got)) else w
  }

  // Only what was sent arrives, or what belongs to other transactions; timers
  // fire when they are pending.
  predicate CanHappen(c: Config, w: World, a: Action)
    requires Sendable(c)
  {
    match a
    case ClientTimeout(content) =>
      w.client.Running? && w.client.timer.Some? && w.client.timer.value.content == content
    case ServerTimeout(content) =>
      w.server.Some? && w.server.value.Running?
      && w.server.value.timer.Some? && w.server.value.timer.value.content == content
    case RequestArrives(q, _, _) =>
      && MatchingCSeq(q)
      && (q in w.requests || (ServerKeyOf(q) != Some(InviteKey(c)) && ServerKeyOf(q) != Some(AckKey(c))))
    case ResponseArrives(r, _, _) => r in w.responses || ClientKeyOf(r) != ClientKeyOf(c.invite)
    case _ => true
  }

  // A copy of the INVITE that arrives when its transaction has ended.
  predicate Late(c: Config, w: World, a: Action)
    requires Sendable(c)
  {
    a.RequestArrives? && w.server == Some(Stopped) && ServerKeyOf(a.request) == Some(InviteKey(c))
  }

  predicate Possible(c: Config, w: World, a: Action)
    requires Sendable(c)
  {
    CanHappen(c, w, a) && !Late(c, w, a)
  }

  function Begin(c: Config): World {
    ClientMoves(World(Stopped, None, [], [], [], []), Client.Start(c.invite, c.clientReliable, c.clientTimers))
  }

  predicate Run(c: Config, w: World, actions: seq<Action>, end: World)
    requires Sendable(c)
    decreases |actions|
  {
    if actions == [] then end == w
    else Possible(c, w, actions[0]) && Run(c, Act(c, w, actions[0]), actions[1..], end)
  }

  /* ----- The joint invariant ----- */

  // Some final response is on the wire exactly when the server has decided, and
  // then there is one only.
  ghost predicate ServerInv(c: Config, w: World)
    requires Sendable(c)
  {
    && (forall m | m in w.responses :: m.start.StatusLine? && OnWire(m) == m)
    && (forall m, n | m in w.responses && n in w.responses && Final(m) && Final(n) :: m == n)
    && (w.server.None? ==> w.responses == [] && w.serverCore == [])
    && (w.server.Some? ==> |w.serverCore| == 1 && w.serverCore[0] == OnWire(c.invite).(via := w.serverCore[0].via)
                           && ServerKeyOf(w.serverCore[0]) == Some(InviteKey(c)))
    && (w.server.Some? && w.server.value.Running? ==>
          var p := w.server.value;
          if p.state.Proceeding? then
            && (forall m | m in w.responses :: !Final(m))
            && (p.data.last.Some? ==> !Final(p.data.last.value))
          else p.data.last.Some? && Refusal(p.data.last.value) && OnWire(p.data.last.value) in w.responses)
  }

  // The client core hears of one final response at the end, one the server
  // sent, and the requests on the wire are the INVITE and its ACK.
  ghost predicate ClientInv(c: Config, w: World)
    requires Sendable(c)
  {
    && OnWire(c.invite) in w.requests
    && (forall m | m in w.clientCore :: m.start.StatusLine? && m in w.responses)
    && (forall i | 0 <= i < |w.clientCore| - 1 :: !Final(w.clientCore[i]))
    && (forall m | m in w.requests :: m == OnWire(c.invite) || AckOf(c, w.clientCore, m))
    && (w.client.Running? ==>
          var p := w.client;
          && p.data.request == c.invite
          && (p.state.Completed? ==> p.data.ack.Some? && AckOf(c, w.clientCore, OnWire(p.data.ack.value)))
          && (!p.state.Completed? ==> forall m | m in w.clientCore :: !Final(m)))
  }

  // `m` is the ACK for the refusal the client's core was told last.
  ghost predicate AckOf(c: Config, core: seq<Message>, m: Message) {
    && core != []
    && var last := core[|core| - 1];
       Refusal(last) && m == OnWire(BuildAck(c.invite, last))
  }

  ghost predicate ConfirmedInv(c: Config, w: World) {
    w.server.Some? && w.server.value.Running? && w.server.value.state.Confirmed? ==>
      exists m :: m in w.requests && AckOf(c, w.clientCore, m)
  }

  ghost predicate Inv(c: Config, w: World)
    requires Sendable(c)
  {
    ServerInv(c, w) && ClientInv(c, w) && ConfirmedInv(c, w)
  }

  /* ----- Effects ----- */

  /* ----- Every action keeps the invariant ----- */

  lemma {:induction false} BeginInv(c: Config)
    requires Sendable(c)
    ensures Inv(c, Begin(c))
  {
    hide OnWire, ServerKeyOf, ClientKeyOf, BuildAck, MatchingCSeq, Branch;
    FewEffects(Send(c.invite), CoreError);
    assert [] + [Send(c.invite)] == [Send(c.invite)];
  }

  // Once it has decided, the server sends nothing but its decision.
  lemma DecidedServer(p: Server.Machine, e: Event)
    requires p.Running? && !p.state.Proceeding? && p.data.last.Some?
    ensures var r := Server.Step(p, e);
            && (r.1 == [] || (|r.1| == 1 && !r.1[0].ToCore?
                              && (r.1[0].Send? ==> r.1[0] == Server.Sent(p.data, p.data.last.value))))
            && (r.0.Running? ==> !r.0.state.Proceeding? && r.0.data == p.data)
            && (r.0.Running? && r.0.state.Confirmed? && !p.state.Confirmed? ==>
                  e.IncomingRequest? && e.request.start.verb.Ack?)
  {
    hide EnsureTarget, ToResponse;
  }

  // Before that it repeats what it sent last, says something new, or keeps quiet.
  lemma UndecidedServer(p: Server.Machine, e: Event) returns (spoken: Option<Response>)
    requires p.Running? && p.state.Proceeding?
    ensures var r := Server.Step(p, e);
            match spoken
            case Some(x) =>
              && r.1 == [Server.Sent(p.data, x)]
              && (r.0.Running? ==> r.0.data.last == Some(EnsureTarget(x, p.data.request))
                                   && (if r.0.state.Proceeding? then !Final(x) else r.0.state.Completed? && Refusal(x)))
            case None =>
              && (r.1 == [] || (|r.1| == 1 && !r.1[0].ToCore?
                                && (r.1[0].Send? ==> p.data.last.Some? && r.1[0] == Server.Sent(p.data, p.data.last.value))))
              && (r.0.Running? ==> r.0.state.Proceeding? && r.0.data == p.data)
  {
    hide EnsureTarget;
    spoken := if e.OutgoingResponse? then Some(e.answer)
              else if e.Timeout? && e.content.StillTrying? then Some(ToResponse(p.data.request, 100, ""))
              else None;
    if spoken.Some? {
      assert [Server.Sent(p.data, spoken.value)] + [] == [Server.Sent(p.data, spoken.value)];
    }
  }

  lemma SentSeen(p: Server.Data, r: Response)
    ensures Wires([Server.Sent(p, r)]) == [OnWire(r)] && Told([Server.Sent(p, r)]) == []
    ensures OnWire(EnsureTarget(r, p.request)) == OnWire(r)
    ensures EnsureTarget(r, p.request).start == r.start == OnWire(r).start && OnWire(OnWire(r)) == OnWire(r)
  {
    hide EnsureTarget, OnWire;
    FewEffects(Server.Sent(p, r), CoreError);
    TargetIsSettled(r, p.request);
    StartsStay(r, p.request);
  }

  // A server that has not decided keeps its half of the invariant.
  lemma UndecidedKeeps(c: Config, w: World, e: Event)
    requires Sendable(c) && ServerInv(c, w) && w.server.Some? && w.server.value.Running?
    requires w.server.value.state.Proceeding?
    ensures ServerInv(c, ServerSees(w, e)) && w.responses <= ServerSees(w, e).responses
    ensures ServerSees(w, e).(server := w.server, responses := w.responses) == w
  {
    hide OnWire, EnsureTarget, Server.Step, Server.Sent, ServerInv, Sendable;
    var p := w.server.value;
    var v := ServerSees(w, e);
    var spoken := UndecidedServer(p, e);
    if spoken.Some? {
      SentSeen(p.data, spoken.value);
      hide Wires, Told, Final, Refusal;
      assert v.responses == w.responses + [OnWire(spoken.value)] && v.serverCore == w.serverCore;
      SpeechKeeps(c, w, v, spoken.value);
    } else {
      NothingNew(p, e);
      hide Wires, Told, Final, Refusal;
      assert v.serverCore == w.serverCore;
      SilenceKeeps(c, w, v);
    }
  }

  // The first final response, or one more provisional one.
  lemma SpeechKeeps(c: Config, w: World, v: World, x: Response)
    requires Sendable(c) && ServerInv(c, w) && w.server.Some? && w.server.value.Running?
    requires w.server.value.state.Proceeding?
    requires v.server.Some? && v.serverCore == w.serverCore && v.responses == w.responses + [OnWire(x)]
    requires v.server.value.Running? ==>
               && v.server.value.data.last == Some(EnsureTarget(x, w.server.value.data.request))
               && (if v.server.value.state.Proceeding? then !Final(x) else Refusal(x))
    ensures ServerInv(c, v)
  {
    SentSeen(w.server.value.data, x);
    hide OnWire, EnsureTarget, Sendable, InviteKey, ServerKeyOf;
  }

  lemma SilenceKeeps(c: Config, w: World, v: World)
    requires Sendable(c) && ServerInv(c, w) && w.server.Some? && w.server.value.Running?
    requires w.server.value.state.Proceeding?
    requires v.server.Some? && v.serverCore == w.serverCore && w.responses <= v.responses
    requires var last := w.server.value.data.last;
             forall m | m in v.responses :: m in w.responses || (last.Some? && m == OnWire(last.value))
    requires v.server.value.Running? ==> v.server.value.state.Proceeding? && v.server.value.data == w.server.value.data
    ensures ServerInv(c, v)
  {
    if w.server.value.data.last.Some? {
      StartsStay(w.server.value.data.last.value, w.server.value.data.request);
    }
    hide OnWire, EnsureTarget, Sendable, InviteKey, ServerKeyOf;
  }

  // So does one that has.
  lemma DecidedKeeps(c: Config, w: World, e: Event)
    requires Sendable(c) && ServerInv(c, w) && w.server.Some? && w.server.value.Running?
    requires !w.server.value.state.Proceeding?
    ensures ServerInv(c, ServerSees(w, e)) && w.responses <= ServerSees(w, e).responses
    ensures ServerSees(w, e).(server := w.server, responses := w.responses) == w
  {
    hide OnWire, EnsureTarget, Server.Step, Server.Sent, Sendable, InviteKey, ServerKeyOf, Final, Refusal;
    var p := w.server.value;
    DecidedServer(p, e);
    NothingNew(p, e);
  }

  lemma ServerKeeps(c: Config, w: World, e: Event)
    requires Sendable(c) && ServerInv(c, w) && w.server.Some? && w.server.value.Running?
    ensures ServerInv(c, ServerSees(w, e)) && w.responses <= ServerSees(w, e).responses
    ensures ServerSees(w, e).(server := w.server, responses := w.responses) == w
  {
    hide ServerInv, ServerSees;
    if w.server.value.state.Proceeding? {
      UndecidedKeeps(c, w, e);
    } else {
      DecidedKeeps(c, w, e);
    }
  }

  // A single effect that repeats the last response, or is no message at all.
  lemma NothingNew(p: Server.Machine, e: Event)
    requires p.Running?
    ensures var es := Server.Step(p, e).1;
            es == [] || (|es| == 1 && !es[0].ToCore?
                         && (es[0].Send? ==> p.data.last.Some? && es[0] == Server.Sent(p.data, p.data.last.value)))
            ==> && Told(es) == [] && |Wires(es)| <= 1
                && forall m | m in Wires(es) :: p.data.last.Some? && m == OnWire(p.data.last.value)
  {
    hide OnWire, EnsureTarget, Server.Step, Server.Sent;
    var es := Server.Step(p, e).1;
    FewEffects(CoreError, Unhandled);
    if |es| == 1 {
      assert es == [es[0]];
      FewEffects(es[0], Unhandled);
      if p.data.last.Some? {
        SentSeen(p.data, p.data.last.value);
      }
    }
  }

  // More on the wire from the server takes nothing from the client's half.
  lemma ClientHalf(c: Config, w: World, v: World)
    requires Sendable(c) && ClientInv(c, w)
    requires v.client == w.client && v.requests == w.requests && v.clientCore == w.clientCore
    requires w.responses <= v.responses
    ensures ClientInv(c, v)
  {
    hide OnWire, BuildAck, Final, Refusal, Sendable;
  }

  // An ACK of this transaction was built for a refusal, so the server has decided.
  lemma AckMeansRefusal(c: Config, w: World, m: Message)
    requires Sendable(c) && Inv(c, w) && m in w.requests && ServerKeyOf(m) != Some(InviteKey(c))
    ensures AckOf(c, w.clientCore, m) && w.clientCore[|w.clientCore| - 1] in w.responses
    ensures w.server.Some? && (w.server.value.Running? ==> !w.server.value.state.Proceeding?)
  {
    hide OnWire, BuildAck, Branch;
    KeysSurviveTheWire(c.invite);
  }

  lemma LastRemembered(c: Config, w: World)
    requires Sendable(c) && ServerInv(c, w) && w.server.Some? && w.server.value.Running?
    ensures !w.server.value.state.Proceeding? ==> w.server.value.data.last.Some?
  {
  }

  // Only an ACK confirms the server.
  lemma Confirms(c: Config, w: World, e: Event)
    requires Sendable(c) && Inv(c, w) && w.server.Some? && w.server.value.Running?
    requires e.IncomingRequest? && e.request.start.verb.Ack? ==>
               exists m :: m in w.requests && AckOf(c, w.clientCore, m)
    ensures ConfirmedInv(c, ServerSees(w, e))
  {
    hide OnWire, BuildAck, EnsureTarget, Sendable, Server.Step, Server.Sent, ServerInv, ClientInv, AckOf;
    var p := w.server.value;
    var v := ServerSees(w, e);
    LastRemembered(c, w);
    if p.state.Proceeding? {
      var spoken := UndecidedServer(p, e);
    } else {
      DecidedServer(p, e);
    }
  }

  // A client that still waits for a final response.
  lemma WaitingClient(p: Client.Machine, e: Event)
    requires p.Running? && !p.state.Completed?
    ensures var r := Client.Step(p, e);
            if e.IncomingResponse? then
              var ack := BuildAck(p.data.request, e.response);
              && r.1 == (if Refusal(e.response) then [ToCore(e.response), Send(ack)] else [ToCore(e.response)])
              && (r.0.Running? ==> r.0.data.request == p.data.request
                                   && (r.0.state.Completed? ==> Refusal(e.response) && r.0.data.ack == Some(ack))
                                   && (!r.0.state.Completed? ==> !Final(e.response)))
            else
              && (r.1 == [] || r.1 == [Send(p.data.request)] || r.1 == [CoreError] || r.1 == [Unhandled])
              && (r.0.Running? ==> !r.0.state.Completed? && r.0.data == p.data)
  {
    hide BuildAck;
    if e.IncomingResponse? {
      assert [ToCore(e.response)] + [] == [ToCore(e.response)];
    }
  }

  // One that has its refusal says nothing but the ACK.
  lemma CompletedClient(p: Client.Machine, e: Event)
    requires p.Running? && p.state.Completed? && p.data.ack.Some?
    ensures var r := Client.Step(p, e);
            && (r.1 == [] || r.1 == [Send(p.data.ack.value)] || r.1 == [Unhandled])
            && (r.0.Running? ==> r.0.state.Completed? && r.0.data == p.data)
  {
    hide BuildAck;
  }

  lemma AckIgnoresHints(q: Request, r: Response)
    ensures BuildAck(q, OnWire(r)) == BuildAck(q, r) && OnWire(r).start == r.start
  {
  }

  lemma CompletedKeeps(c: Config, w: World, e: Event)
    requires Sendable(c) && ClientInv(c, w) && w.client.Running? && w.client.state.Completed?
    ensures ClientInv(c, ClientSees(w, e)) && w.requests <= ClientSees(w, e).requests
    ensures ClientSees(w, e).(client := w.client, requests := w.requests) == w
  {
    hide OnWire, BuildAck, Sendable, Client.Step, Final, Refusal, AckOf, Wires, Told;
    CompletedClient(w.client, e);
    FewEffects(Send(w.client.data.ack.value), CoreError);
    FewEffects(Unhandled, CoreError);
    assert w.clientCore + [] == w.clientCore;
  }

  lemma WaitingKeeps(c: Config, w: World, e: Event)
    requires Sendable(c) && ClientInv(c, w) && w.client.Running? && !w.client.state.Completed?
    requires e.IncomingResponse? ==> OnWire(e.response) in w.responses
    ensures ClientInv(c, ClientSees(w, e)) && w.requests <= ClientSees(w, e).requests
    ensures ClientSees(w, e).(client := w.client, requests := w.requests, clientCore := w.clientCore) == w
  {
    hide OnWire, Sendable, ClientInv, ClientSees;
    if e.IncomingResponse? {
      WaitingHears(c, w, e.response);
    } else {
      WaitingIdles(c, w, e);
    }
  }

  lemma WaitingIdles(c: Config, w: World, e: Event)
    requires Sendable(c) && ClientInv(c, w) && w.client.Running? && !w.client.state.Completed? && !e.IncomingResponse?
    ensures ClientInv(c, ClientSees(w, e)) && w.requests <= ClientSees(w, e).requests
    ensures ClientSees(w, e).(client := w.client, requests := w.requests, clientCore := w.clientCore) == w
  {
    hide OnWire, BuildAck, Sendable, Client.Step, AckOf, Final, Refusal, Wires, Told;
    var v := ClientSees(w, e);
    assert w.client.data.request == c.invite;
    WaitingClient(w.client, e);
    FewEffects(Send(c.invite), CoreError);
    FewEffects(CoreError, Unhandled);
    FewEffects(Unhandled, Unhandled);
    assert v.clientCore == w.clientCore;
    Idled(c, w, v);
  }

  // Nothing told, and at most the INVITE once more.
  lemma Idled(c: Config, w: World, v: World)
    requires Sendable(c) && ClientInv(c, w) && w.client.Running? && !w.client.state.Completed?
    requires v.responses == w.responses && v.clientCore == w.clientCore
    requires forall m | m in v.requests :: m in w.requests || m == OnWire(c.invite)
    requires forall m | m in w.requests :: m in v.requests
    requires v.client.Running? ==> !v.client.state.Completed? && v.client.data == w.client.data
    ensures ClientInv(c, v)
  {
    hide OnWire, BuildAck, Sendable, AckOf, Final;
  }

  lemma WaitingHears(c: Config, w: World, r: Response)
    requires Sendable(c) && ClientInv(c, w) && w.client.Running? && !w.client.state.Completed?
    requires OnWire(r) in w.responses
    ensures ClientInv(c, ClientSees(w, IncomingResponse(r)))
    ensures w.requests <= ClientSees(w, IncomingResponse(r)).requests
    ensures var v := ClientSees(w, IncomingResponse(r));
            v.(client := w.client, requests := w.requests, clientCore := w.clientCore) == w
  {
    hide OnWire, BuildAck, Sendable, Client.Step, ClientInv, Wires, Told;
    var v := ClientSees(w, IncomingResponse(r));
    var ack := BuildAck(c.invite, r);
    SentInvite(c, w);
    WaitingClient(w.client, IncomingResponse(r));
    NoAckYet(c, w);
    AckIgnoresHints(c.invite, r);
    FewEffects(ToCore(r), Send(ack));
    FewEffects(Send(ack), CoreError);
    Heard(c, w, v, OnWire(r));
  }

  lemma SentInvite(c: Config, w: World)
    requires Sendable(c) && ClientInv(c, w) && w.client.Running?
    ensures w.client.data.request == c.invite
  {
  }

  // One more response told to the client's core, and the ACK if it is a refusal.
  lemma Heard(c: Config, w: World, v: World, m: Message)
    requires Sendable(c) && ClientInv(c, w) && w.client.Running? && !w.client.state.Completed?
    requires (forall n | n in w.requests :: n == OnWire(c.invite)) && OnWire(c.invite) in w.requests
    requires m in w.responses && m.start.StatusLine?
    requires v.responses == w.responses && v.clientCore == w.clientCore + [m]
    requires v.requests == w.requests + if Refusal(m) then [OnWire(BuildAck(c.invite, m))] else []
    requires v.client.Running? ==>
               && v.client.data.request == c.invite
               && (if v.client.state.Completed? then
                     Refusal(m) && v.client.data.ack.Some?
                     && OnWire(v.client.data.ack.value) == OnWire(BuildAck(c.invite, m))
                   else !Final(m))
    ensures ClientInv(c, v)
  {
    hide OnWire, BuildAck, Sendable;
    assert v.clientCore[|v.clientCore| - 1] == m;
  }

  // As long as the client waits, only the INVITE is on the wire.
  lemma NoAckYet(c: Config, w: World)
    requires Sendable(c) && ClientInv(c, w) && w.client.Running? && !w.client.state.Completed?
    ensures OnWire(c.invite) in w.requests && forall m | m in w.requests :: m == OnWire(c.invite)
    ensures forall m :: !AckOf(c, w.clientCore, m)
  {
    hide OnWire, BuildAck, Sendable;
    if w.clientCore != [] {
      assert w.clientCore[|w.clientCore| - 1] in w.clientCore;
    }
  }

  // A client step does not disturb the server's half, nor a confirmation.
  lemma ServerHalf(c: Config, w: World, v: World)
    requires Sendable(c) && Inv(c, w) && ClientInv(c, v)
    requires v.server == w.server && v.responses == w.responses && v.serverCore == w.serverCore
    requires w.requests <= v.requests
    requires !(w.client.Running? && !w.client.state.Completed?) ==> v.clientCore == w.clientCore
    ensures Inv(c, v)
  {
    hide OnWire, BuildAck, Sendable, Final, Refusal, AckOf;
    assert w.server.Some? && w.server.value.Running? && w.server.value.state.Confirmed? ==>
        v.clientCore == w.clientCore by {
      if w.client.Running? && !w.client.state.Completed? {
        NoAckYet(c, w);
      }
    }
  }

  lemma ClientActs(c: Config, w: World, e: Event)
    requires Sendable(c) && Inv(c, w)
    requires e.IncomingResponse? ==> OnWire(e.response) in w.responses
    ensures Inv(c, ClientSees(w, e))
  {
    hide OnWire, BuildAck, Sendable, Client.Step, Final, Refusal, AckOf, ServerInv;
    if w.client.Running? {
      if w.client.state.Completed? {
        CompletedKeeps(c, w, e);
      } else {
        WaitingKeeps(c, w, e);
      }
      ServerHalf(c, w, ClientSees(w, e));
    } else {
      StoppedClient(w, e);
    }
  }

  lemma StoppedClient(w: World, e: Event)
    requires w.client.Stopped?
    ensures ClientSees(w, e) == w
  {
    FewEffects(CoreError, Unhandled);
    assert w.clientCore + [] == w.clientCore;
    assert w.requests + [] == w.requests;
  }

  lemma ServerActs(c: Config, w: World, e: Event)
    requires Sendable(c) && Inv(c, w)
    requires e.IncomingRequest? && e.request.start.verb.Ack? ==>
               exists m :: m in w.requests && AckOf(c, w.clientCore, m)
    ensures Inv(c, ServerSees(w, e))
  {
    hide OnWire, BuildAck, Sendable, Server.Step, Final, Refusal, AckOf, ServerInv, ClientInv;
    if w.server.Some? && w.server.value.Running? {
      ServerKeeps(c, w, e);
      ClientHalf(c, w, ServerSees(w, e));
      Confirms(c, w, e);
    } else if w.server.Some? {
      StoppedServer(w, e);
    }
  }

  lemma StoppedServer(w: World, e: Event)
    requires w.server == Some(Stopped)
    ensures ServerSees(w, e) == w
  {
    FewEffects(CoreError, Unhandled);
    assert w.serverCore + [] == w.serverCore;
    assert w.responses + [] == w.responses;
  }

  lemma InviteIsNotAck(c: Config, q: Message)
    requires Sendable(c) && q.IsRequest() && MatchingCSeq(q) && ServerKeyOf(q).Some?
    ensures InviteKey(c).verb == Invite && AckKey(c).verb == Ack
    ensures ServerKeyOf(q).value.verb == q.start.verb
  {
  }

  // Only the INVITE itself carries its key.
  lemma KeyOfInvite(c: Config, w: World, q: Message)
    requires Sendable(c) && ClientInv(c, w) && q in w.requests
    ensures ServerKeyOf(q) == Some(InviteKey(c)) ==> q == OnWire(c.invite)
  {
    hide OnWire, BuildAck, Branch, Final, Refusal;
    KeysSurviveTheWire(c.invite);
    if AckOf(c, w.clientCore, q) {
      var last := w.clientCore[|w.clientCore| - 1];
      AckFindsAlias(c.invite, last);
      KeysSurviveTheWire(BuildAck(c.invite, last));
    }
  }

  lemma FirstArrival(c: Config, w: World, from: Source, transport: string)
    requires Sendable(c) && Inv(c, w) && w.server.None?
    ensures var got := Received(OnWire(c.invite), from, transport);
            Inv(c, ServerMoves(w, Server.Start(got, c.serverReliable, c.serverTimers)))
  {
    hide BuildAck, Final, Refusal;
    var got := Received(OnWire(c.invite), from, transport);
    KeysSurviveReceipt(OnWire(c.invite), from, transport);
    KeysSurviveTheWire(c.invite);
    KeysSurviveTheWire(got);
    ReceivedBody(c.invite, from, transport);
    assert ServerKeyOf(c.invite) == Some(InviteKey(c));
    hide OnWire, Received, ServerKeyOf, AckOf;
    FewEffects(ToCore(got), CoreError);
    assert [] + [ToCore(got)] == [ToCore(got)];
    var v := ServerMoves(w, Server.Start(got, c.serverReliable, c.serverTimers));
    assert v.responses == [] && v.serverCore == [OnWire(got)];
    ClientHalf(c, w, v);
  }

  lemma RequestArrival(c: Config, w: World, q: Request, from: Source, transport: string)
    requires Sendable(c) && Inv(c, w) && Possible(c, w, RequestArrives(q, from, transport))
    ensures Inv(c, Act(c, w, RequestArrives(q, from, transport)))
  {
    hide OnWire, BuildAck, ServerSees, ServerMoves, Received, ServerKeyOf, Inv;
    var got := Received(q, from, transport);
    var key := ServerKeyOf(q);
    KeysSurviveReceipt(q, from, transport);
    if key == Some(InviteKey(c)) || key == Some(AckKey(c)) {
      InviteIsNotAck(c, q);
      if w.server.Some? {
        if q.start.verb.Ack? {
          AckMeansRefusal(c, w, q);
        }
        ServerActs(c, w, IncomingRequest(got));
      } else if key == Some(InviteKey(c)) {
        InvClient(c, w);
        KeyOfInvite(c, w, q);
        FirstArrival(c, w, from, transport);
      }
    }
  }

  lemma InvClient(c: Config, w: World)
    requires Sendable(c) && Inv(c, w)
    ensures ClientInv(c, w) && ServerInv(c, w)
  {
  }

  lemma ResponseArrival(c: Config, w: World, r: Response, from: Source, transport: string)
    requires Sendable(c) && Inv(c, w) && Possible(c, w, ResponseArrives(r, from, transport))
    ensures Inv(c, Act(c, w, ResponseArrives(r, from, transport)))
  {
    hide BuildAck, ClientSees, Inv;
    KeysSurviveReceipt(r, from, transport);
    if r in w.responses && ClientKeyOf(r) == ClientKeyOf(c.invite) {
      WiresAreBare(c, w, r);
      ClientActs(c, w, IncomingResponse(Received(r, from, transport)));
    }
  }

  // What is on the wire carries no routing hints.
  lemma WiresAreBare(c: Config, w: World, r: Message)
    requires Sendable(c) && Inv(c, w) && r in w.responses
    ensures OnWire(r) == r
  {
  }

  lemma ActKeepsInv(c: Config, w: World, a: Action)
    requires Sendable(c) && Inv(c, w) && Possible(c, w, a)
    ensures Inv(c, Act(c, w, a))
  {
    hide Inv, ClientSees, ServerSees, Dispatch, Received, ServerKeyOf, ClientKeyOf;
    match a
    case RequestArrives(q, from, transport) => RequestArrival(c, w, q, from, transport);
    case ResponseArrives(r, from, transport) => ResponseArrival(c, w, r, from, transport);
    case ClientTimeout(content) => ClientActs(c, w, Timeout(content));
    case ClientFails => ClientActs(c, w, TransportError);
    case ClientTerminated => ClientActs(c, w, Terminate);
    case ServerTimeout(content) => ServerActs(c, w, Timeout(content));
    case ServerFails => ServerActs(c, w, TransportError);
    case ServerTerminated => ServerActs(c, w, Terminate);
    case CoreAnswers(r) => ServerActs(c, w, OutgoingResponse(r));
  }

  lemma {:induction false} RunKeepsInv(c: Config, w: World, actions: seq<Action>, end: World)
    requires Sendable(c) && Inv(c, w) && Run(c, w, actions, end)
    ensures Inv(c, end)
    decreases |actions|
  {
    hide Inv, Act, Possible;
    if actions != [] {
      ActKeepsInv(c, w, actions[0]);
      RunKeepsInv(c, Act(c, w, actions[0]), actions[1..], end);
    }
  }

  /* ----- The theorem ----- */

  // No ACK of the transaction can arrive while the server has not decided.
  ghost predicate NoEarlyAck(c: Config, w: World)
    requires Sendable(c)
  {
    forall q: Request, from, transport | Possible(c, w, RequestArrives(q, from, transport))
        && ServerKeyOf(q) == Some(AckKey(c)) ::
      w.server.Some? && (w.server.value.Running? ==> !w.server.value.state.Proceeding?)
  }

  // A confirmed server answers to a client that built the ACK for its decision.
  ghost predicate ConfirmationMeansAck(c: Config, w: World) {
    w.server.Some? && w.server.value.Running? && w.server.value.state.Confirmed? ==>
      && (w.client.Running? ==> w.client.state.Completed?)
      && w.server.value.data.last.Some?
      && OnWire(BuildAck(c.invite, w.server.value.data.last.value)) in w.requests
  }

  lemma NoEarlyAckHolds(c: Config, w: World)
    requires Sendable(c) && Inv(c, w)
    ensures NoEarlyAck(c, w)
  {
    hide OnWire, BuildAck, Inv, Branch;
    forall q: Request, from, transport | Possible(c, w, RequestArrives(q, from, transport))
        && ServerKeyOf(q) == Some(AckKey(c))
      ensures w.server.Some? && (w.server.value.Running? ==> !w.server.value.state.Proceeding?)
    {
      InviteIsNotAck(c, q);
      AckMeansRefusal(c, w, q);
    }
  }

  lemma ConfirmationHolds(c: Config, w: World)
    requires Sendable(c) && Inv(c, w)
    ensures ConfirmationMeansAck(c, w)
  {
    hide OnWire, BuildAck;
    if w.server.Some? && w.server.value.Running? && w.server.value.state.Confirmed? {
      var m :| m in w.requests && AckOf(c, w.clientCore, m);
      var last := w.server.value.data.last.value;
      var told := w.clientCore[|w.clientCore| - 1];
      assert told in w.clientCore;
      StartsStay(last, w.server.value.data.request);
      assert told == OnWire(last);
      AckIgnoresHints(c.invite, last);
    }
  }

  lemma DecisionHolds(c: Config, w: World)
    requires Sendable(c) && Inv(c, w)
    ensures HeardOnce(c.invite, w.serverCore) && OneDecision(Range(w.responses))
    ensures ToldOnce(w.clientCore, Range(w.responses))
  {
    hide OnWire, BuildAck, Final, Refusal, AckOf;
  }

  // In every run of the two transactions over such a network, as long as no copy
  // of the INVITE arrives late.
  lemma PunctualAgreement(c: Config, actions: seq<Action>, end: World)
    requires Sendable(c) && Run(c, Begin(c), actions, end)
    ensures HeardOnce(c.invite, end.serverCore) && OneDecision(Range(end.responses))
    ensures ToldOnce(end.clientCore, Range(end.responses))
    ensures NoEarlyAck(c, end) && ConfirmationMeansAck(c, end)
  {
    hide Inv, Run, Begin;
    BeginInv(c);
    RunKeepsInv(c, Begin(c), actions, end);
    DecisionHolds(c, end);
    NoEarlyAckHolds(c, end);
    ConfirmationHolds(c, end);
  }

  /* ----- Copies of the INVITE that arrive late ----- */

  // To the router a late copy is a new request.
  function ActOrRestart(c: Config, w: World, a: Action): World
    requires Sendable(c)
  {
    if Late(c, w, a) then
      ServerMoves(w, Server.Start(Received(a.request, a.from, a.transport), c.serverReliable, c.serverTimers))
    else Act(c, w, a)
  }

  predicate LongRun(c: Config, w: World, actions: seq<Action>, end: World)
    requires Sendable(c)
    decreases |actions|
  {
    if actions == [] then end == w
    else CanHappen(c, w, actions[0]) && LongRun(c, ActOrRestart(c, w, actions[0]), actions[1..], end)
  }

  function LateCopies(c: Config, w: World, actions: seq<Action>): nat
    requires Sendable(c)
    decreases |actions|
  {
    if actions == [] then 0
    else (if Late(c, w, actions[0]) then 1 else 0) + LateCopies(c, ActOrRestart(c, w, actions[0]), actions[1..])
  }

  // What even restarts leave intact.
  ghost predicate LongInv(c: Config, w: World)
    requires Sendable(c)
  {
    && ClientInv(c, w)
    && (w.server.None? ==> w.serverCore == [])
    && (forall m | m in w.responses :: m.start.StatusLine? && OnWire(m) == m)
    && (forall m | m in w.serverCore :: m == OnWire(c.invite).(via := m.via))
    && Decided(w)
  }

  predicate Undecided(w: World) {
    w.server.Some? && w.server.value.Running? && w.server.value.state.Proceeding?
  }

  // Each server that was started has made one decision at most; one that runs
  // repeats its own.
  ghost predicate Decided(w: World) {
    && |FinalsOf(Range(w.responses))| + (if Undecided(w) then 1 else 0) <= |w.serverCore|
    && (w.server.Some? && w.server.value.Running? ==>
          var last := w.server.value.data.last;
          if Undecided(w) then last.Some? ==> !Final(last.value)
          else last.Some? && OnWire(last.value) in w.responses)
  }

  // How often the core has heard, whether or not it has heard at all.
  function Expected(w: World): nat {
    if w.server.None? then 0 else 1
  }

  // A running server tells its core nothing.
  lemma ServerIsDiscreet(p: Server.Machine, e: Event)
    requires p.Running?
    ensures var es := Server.Step(p, e).1;
            |es| <= 1 && (es != [] ==> !es[0].ToCore? && (es[0].Send? ==> es[0].message.start.StatusLine?))
  {
    hide EnsureTarget, ToResponse;
    if e.OutgoingResponse? {
      assert [Server.Sent(p.data, e.answer)] + [] == [Server.Sent(p.data, e.answer)];
    }
  }

  // What a running server puts on the wire keeps the count of decisions.
  lemma ServerDecides(w: World, e: Event)
    requires w.server.Some? && w.server.value.Running? && Decided(w)
    requires ServerSees(w, e).serverCore == w.serverCore
    ensures Decided(ServerSees(w, e))
  {
    hide OnWire, Server.Step, Server.Sent, EnsureTarget, Wires, FinalsOf;
    var p := w.server.value;
    if Undecided(w) {
      var spoken := UndecidedServer(p, e);
      if spoken.Some? {
        SentSeen(p.data, spoken.value);
        BareOnWire(spoken.value);
        FinalOnWire(spoken.value);
        assert ServerSees(w, e).responses == w.responses + [OnWire(spoken.value)];
        RangeOfBoth(w.responses, [OnWire(spoken.value)]);
        OneMoreFinal(Range(w.responses), {OnWire(spoken.value)}, OnWire(spoken.value));
      } else {
        RepeatDecides(w, e);
      }
    } else {
      DecidedServer(p, e);
      RepeatDecides(w, e);
    }
  }

  lemma RepeatDecides(w: World, e: Event)
    requires w.server.Some? && w.server.value.Running? && Decided(w)
    requires var es := Server.Step(w.server.value, e).1;
             es == [] || (|es| == 1 && !es[0].ToCore?
                          && (es[0].Send? ==> w.server.value.data.last.Some?
                                              && es[0] == Server.Sent(w.server.value.data, w.server.value.data.last.value)))
    ensures var v := ServerSees(w, e);
            && w.responses <= v.responses && FinalsOf(Range(v.responses)) == FinalsOf(Range(w.responses))
  {
    hide OnWire, Server.Step, Server.Sent, EnsureTarget, Wires, Final;
    var p := w.server.value;
    NothingNew(p, e);
    if p.data.last.Some? {
      var m := OnWire(p.data.last.value);
      BareOnWire(p.data.last.value);
      FinalOnWire(p.data.last.value);
      RangeOfBoth(w.responses, Wires(Server.Step(p, e).1));
      OneMoreFinal(Range(w.responses), Range(Wires(Server.Step(p, e).1)), m);
    } else {
      assert w.responses + [] == w.responses;
    }
  }

  lemma FinalOnWire(m: Message)
    ensures Final(OnWire(m)) <==> Final(m)
  {
  }

  lemma LongServer(c: Config, w: World, e: Event)
    requires Sendable(c) && LongInv(c, w)
    ensures var v := ServerSees(w, e);
            LongInv(c, v) && v.serverCore == w.serverCore && (v.server.Some? <==> w.server.Some?)
  {
    hide OnWire, Sendable, Server.Step, ClientInv, Decided, Wires, Told;
    if w.server.Some? && w.server.value.Running? {
      var es := Server.Step(w.server.value, e).1;
      ServerIsDiscreet(w.server.value, e);
      FewEffects(CoreError, Unhandled);
      if es != [] {
        assert es == [es[0]];
        FewEffects(es[0], Unhandled);
        if es[0].Send? {
          BareOnWire(es[0].message);
        }
      }
      assert w.serverCore + [] == w.serverCore;
      ClientHalf(c, w, ServerSees(w, e));
      ServerDecides(w, e);
    } else if w.server.Some? {
      StoppedServer(w, e);
    }
  }

  lemma LongClient(c: Config, w: World, e: Event)
    requires Sendable(c) && LongInv(c, w) && (e.IncomingResponse? ==> OnWire(e.response) in w.responses)
    ensures var v := ClientSees(w, e);
            LongInv(c, v) && v.serverCore == w.serverCore && v.server == w.server
  {
    hide OnWire, Sendable, Client.Step, ClientInv, ClientSees, Decided;
    var v := ClientSees(w, e);
    if w.client.Running? {
      if w.client.state.Completed? {
        CompletedKeeps(c, w, e);
      } else {
        WaitingKeeps(c, w, e);
      }
    } else {
      StoppedClient(w, e);
    }
    SameDecisions(w, v);
  }

  lemma SameDecisions(w: World, v: World)
    requires Decided(w) && v.server == w.server && v.responses == w.responses && v.serverCore == w.serverCore
    ensures Decided(v)
  {
  }

  // The first arrival, or a late one.
  lemma LongStart(c: Config, w: World, from: Source, transport: string)
    requires Sendable(c) && LongInv(c, w) && (w.server.Some? ==> w.server.value.Stopped?)
    ensures var got := Received(OnWire(c.invite), from, transport);
            var v := ServerMoves(w, Server.Start(got, c.serverReliable, c.serverTimers));
            LongInv(c, v) && v.serverCore == w.serverCore + [OnWire(got)] && v.server.Some?
  {
    hide OnWire, Received, Sendable, ClientInv, Decided, Server.Start, ServerMoves;
    var v := Started(c, w, from, transport);
    ReceivedBody(c.invite, from, transport);
    ClientHalf(c, w, v);
    assert Decided(v) by { StartDecides(w, v); }
  }

  lemma StartDecides(w: World, v: World)
    requires Decided(w) && (w.server.Some? ==> w.server.value.Stopped?)
    requires v.responses == w.responses && |v.serverCore| == |w.serverCore| + 1
    requires Undecided(v) && v.server.value.data.last.None?
    ensures Decided(v)
  {
  }

  // What an INVITE that starts a server does.
  lemma Started(c: Config, w: World, from: Source, transport: string) returns (v: World)
    ensures var got := Received(OnWire(c.invite), from, transport);
            && got.IsRequest()
            && v == ServerMoves(w, Server.Start(got, c.serverReliable, c.serverTimers))
            && v.server.Some? && Undecided(v) && v.server.value.data.last.None? && v.server.value.data.request == got
            && v.server.value.data.reliable == c.serverReliable && v.server.value.data.timers == c.serverTimers
            && v.serverCore == w.serverCore + [OnWire(got)]
            && v.(server := w.server, serverCore := w.serverCore) == w
  {
    var got := Received(OnWire(c.invite), from, transport);
    assert got.IsRequest();
    hide OnWire, Received;
    FewEffects(ToCore(got), CoreError);
    assert [] + [ToCore(got)] == [ToCore(got)];
    v := ServerMoves(w, Server.Start(got, c.serverReliable, c.serverTimers));
    assert w.responses + [] == w.responses;
  }

  lemma LongRequest(c: Config, w: World, q: Request, from: Source, transport: string)
    requires Sendable(c) && LongInv(c, w) && CanHappen(c, w, RequestArrives(q, from, transport))
    ensures var a := RequestArrives(q, from, transport);
            var v := ActOrRestart(c, w, a);
            && LongInv(c, v)
            && |v.serverCore| - Expected(v) == |w.serverCore| - Expected(w) + if Late(c, w, a) then 1 else 0
  {
    hide OnWire, ServerSees, ServerMoves, Received, ServerKeyOf, LongInv;
    KeysSurviveReceipt(q, from, transport);
    var key := ServerKeyOf(q);
    if key == Some(InviteKey(c)) && (w.server.None? || w.server == Some(Stopped)) {
      LongIsClient(c, w);
      InviteIsNotAck(c, q);
      KeyOfInvite(c, w, q);
      LongStart(c, w, from, transport);
    } else if w.server.Some? {
      LongServer(c, w, IncomingRequest(Received(q, from, transport)));
    }
  }

  lemma LongIsClient(c: Config, w: World)
    requires Sendable(c) && LongInv(c, w)
    ensures ClientInv(c, w)
  {
  }

  lemma LongResponse(c: Config, w: World, r: Response, from: Source, transport: string)
    requires Sendable(c) && LongInv(c, w) && CanHappen(c, w, ResponseArrives(r, from, transport))
    ensures var v := Act(c, w, ResponseArrives(r, from, transport));
            LongInv(c, v) && v.serverCore == w.serverCore && v.server == w.server
  {
    hide BuildAck, ClientSees, ClientInv, Sendable;
    KeysSurviveReceipt(r, from, transport);
    if r in w.responses && ClientKeyOf(r) == ClientKeyOf(c.invite) {
      assert OnWire(r) == r;
      LongClient(c, w, IncomingResponse(Received(r, from, transport)));
    }
  }

  lemma LongAct(c: Config, w: World, a: Action)
    requires Sendable(c) && LongInv(c, w) && CanHappen(c, w, a)
    ensures var v := ActOrRestart(c, w, a);
            && LongInv(c, v)
            && |v.serverCore| - Expected(v) == |w.serverCore| - Expected(w) + if Late(c, w, a) then 1 else 0
  {
    hide LongInv, ClientSees, ServerSees, Dispatch, Received, ServerKeyOf, ClientKeyOf;
    match a
    case RequestArrives(q, from, transport) => LongRequest(c, w, q, from, transport);
    case ResponseArrives(r, from, transport) => LongResponse(c, w, r, from, transport);
    case ClientTimeout(content) => LongClient(c, w, Timeout(content));
    case ClientFails => LongClient(c, w, TransportError);
    case ClientTerminated => LongClient(c, w, Terminate);
    case ServerTimeout(content) => LongServer(c, w, Timeout(content));
    case ServerFails => LongServer(c, w, TransportError);
    case ServerTerminated => LongServer(c, w, Terminate);
    case CoreAnswers(r) => LongServer(c, w, OutgoingResponse(r));
  }

  lemma {:induction false} LongRunCounts(c: Config, w: World, actions: seq<Action>, end: World)
    requires Sendable(c) && LongInv(c, w) && LongRun(c, w, actions, end)
    ensures LongInv(c, end)
    ensures |end.serverCore| - Expected(end) == |w.serverCore| - Expected(w) + LateCopies(c, w, actions)
    decreases |actions|
  {
    hide LongInv, ActOrRestart, CanHappen, Late, Expected;
    if actions != [] {
      LongAct(c, w, actions[0]);
      LongRunCounts(c, ActOrRestart(c, w, actions[0]), actions[1..], end);
    }
  }

  lemma {:induction false} PunctualRun(c: Config, w: World, actions: seq<Action>, end: World)
    requires Sendable(c) && LongRun(c, w, actions, end) && LateCopies(c, w, actions) == 0
    ensures Run(c, w, actions, end)
    decreases |actions|
  {
    hide Act, CanHappen, Late;
    if actions != [] {
      PunctualRun(c, Act(c, w, actions[0]), actions[1..], end);
    }
  }

  // In every run, late copies included: the core hears of the INVITE once and
  // once more for each late copy; no more decisions are made than it hears of the
  // INVITE; the client's core still hears one final response at most.
  lemma InviteAgreement(c: Config, actions: seq<Action>, end: World)
    requires Sendable(c) && LongRun(c, Begin(c), actions, end)
    ensures |end.serverCore| == (if end.server.None? then 0 else 1) + LateCopies(c, Begin(c), actions)
    ensures HeardOnce(c.invite, end.serverCore) <==> LateCopies(c, Begin(c), actions) == 0
    ensures |FinalsOf(Range(end.responses))| <= |end.serverCore| && ToldOnce(end.clientCore, Range(end.responses))
    ensures LateCopies(c, Begin(c), actions) == 0 ==>
              OneDecision(Range(end.responses)) && NoEarlyAck(c, end) && ConfirmationMeansAck(c, end)
  {
    LongBegin(c);
    hide LongInv, LongRun, Begin, LateCopies, Run, OneDecision, NoEarlyAck, ConfirmationMeansAck;
    LongRunCounts(c, Begin(c), actions, end);
    LongHolds(c, end);
    if LateCopies(c, Begin(c), actions) == 0 {
      PunctualRun(c, Begin(c), actions, end);
      PunctualAgreement(c, actions, end);
    }
  }

  lemma LongHolds(c: Config, w: World)
    requires Sendable(c) && LongInv(c, w)
    ensures ToldOnce(w.clientCore, Range(w.responses)) && (w.server.None? ==> w.serverCore == [])
    ensures |FinalsOf(Range(w.responses))| <= |w.serverCore|
    ensures forall m | m in w.serverCore :: m == OnWire(c.invite).(via := m.via)
  {
    hide OnWire, BuildAck, Final, Refusal, AckOf;
  }

  lemma LongBegin(c: Config)
    requires Sendable(c)
    ensures LongInv(c, Begin(c)) && Begin(c).server.None? && Begin(c).serverCore == []
  {
    BeginInv(c);
    hide OnWire, BuildAck, ClientInv, Sendable;
  }

  // A copy of the INVITE arrives where no server runs.
  lemma StartsAgain(c: Config, w: World, from: Source, transport: string) returns (v: World)
    requires Sendable(c) && OnWire(c.invite) in w.requests && (w.server.Some? ==> w.server.value.Stopped?)
    ensures var a := RequestArrives(OnWire(c.invite), from, transport);
            && CanHappen(c, w, a) && v == ActOrRestart(c, w, a) && (Late(c, w, a) <==> w.server.Some?)
            && Undecided(v) && v.server.value.data.request == Received(OnWire(c.invite), from, transport)
            && v.(server := w.server, serverCore := w.serverCore) == w
  {
    v := Started(c, w, from, transport);
    KeysSurviveTheWire(c.invite);
    assert ServerKeyOf(c.invite) == Some(InviteKey(c));
    assert MatchingCSeq(OnWire(c.invite)) && OnWire(c.invite).IsRequest();
    KeysSurviveReceipt(OnWire(c.invite), from, transport);
    hide OnWire, Received, ServerKeyOf, Undecided, ServerMoves, Server.Start;
  }

  // The core of an undecided server decides, with any final response of its own.
  lemma Decides(c: Config, w: World, from: Source, transport: string, code: StatusCode)
    returns (r: Response, v: World)
    requires Sendable(c) && Undecided(w) && code >= 200
    requires w.server.value.data.request == Received(OnWire(c.invite), from, transport)
    ensures CanHappen(c, w, CoreAnswers(r)) && !Late(c, w, CoreAnswers(r)) && v == ActOrRestart(c, w, CoreAnswers(r))
    ensures r.start.code == code && OnWire(r) in v.responses && w.responses <= v.responses
    ensures v.requests == w.requests && (code < 300 ==> v.server == Some(Stopped))
  {
    var got := Received(OnWire(c.invite), from, transport);
    r := ToResponse(got, code, "");
    KeysSurviveTheWire(c.invite);
    ResponseFindsBothTransactions(OnWire(c.invite), from, transport, code, "");
    hide OnWire, Received, ServerKeyOf, EnsureTarget, ToResponse, Wires;
    v := ServerSees(w, OutgoingResponse(r));
    SentSeen(w.server.value.data, r);
    assert [Server.Sent(w.server.value.data, r)] + [] == [Server.Sent(w.server.value.data, r)];
  }

  // With any configuration a late copy can make the two starts of the server
  // decide differently: one 200, one 486.
  lemma LateCopiesCanDisagree(c: Config, from: Source, transport: string) returns (actions: seq<Action>, end: World)
    requires Sendable(c)
    ensures LongRun(c, Begin(c), actions, end) && LateCopies(c, Begin(c), actions) == 1
    ensures !OneDecision(Range(end.responses))
  {
    BareOnWire(c.invite);
    assert OnWire(c.invite).IsRequest();
    hide OnWire, Begin, CanHappen, Late, ActOrRestart, LongRun, LateCopies, LongInv, Undecided, OneDecision;
    var copy := RequestArrives(OnWire(c.invite), from, transport);
    LongBegin(c);
    InviteOnWire(c, Begin(c));
    var w1 := StartsAgain(c, Begin(c), from, transport);
    var yes, w2 := Decides(c, w1, from, transport, 200);
    var w3 := StartsAgain(c, w2, from, transport);
    var no, w4 := Decides(c, w3, from, transport, 486);
    Disagree(yes, no, Range(w4.responses));
    end, actions := w4, [];
    NoSteps(c, end);
    OneStep(c, w3, CoreAnswers(no), actions, end);
    actions := [CoreAnswers(no)] + actions;
    OneStep(c, w2, copy, actions, end);
    actions := [copy] + actions;
    OneStep(c, w1, CoreAnswers(yes), actions, end);
    actions := [CoreAnswers(yes)] + actions;
    OneStep(c, Begin(c), copy, actions, end);
    actions := [copy] + actions;
  }

  lemma NoSteps(c: Config, w: World)
    requires Sendable(c)
    ensures LongRun(c, w, [], w) && LateCopies(c, w, []) == 0
  {
  }

  lemma InviteOnWire(c: Config, w: World)
    requires Sendable(c) && LongInv(c, w)
    ensures OnWire(c.invite) in w.requests
  {
  }

  lemma OneStep(c: Config, w: World, a: Action, rest: seq<Action>, end: World)
    requires Sendable(c) && CanHappen(c, w, a) && LongRun(c, ActOrRestart(c, w, a), rest, end)
    ensures LongRun(c, w, [a] + rest, end)
    ensures LateCopies(c, w, [a] + rest) == (if Late(c, w, a) then 1 else 0) + LateCopies(c, ActOrRestart(c, w, a), rest)
  {
    hide ActOrRestart, CanHappen, Late;
    assert ([a] + rest)[1..] == rest;
  }
}
