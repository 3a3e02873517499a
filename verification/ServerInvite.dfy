/** lib/sippet/transactions/server/invite.ex. */
module ServerInvite {
  import opened Wrappers
  import opened Messages
  import opened Transactions

  datatype State = Proceeding | Completed | Confirmed

  datatype Data = Data(request: Request, reliable: bool, timers: Timers, last: Option<Response>)

  type Machine = Process<State, Data>

  // `send_response` fixes the target, remembers the response and sends it.
  function Remember(d: Data, r: Response): Data {
    d.(last := Some(EnsureTarget(r, d.request)))
  }

  function Sent(d: Data, r: Response): Effect {
    Send(EnsureTarget(r, d.request))
  }

  function Enter(s: State, d: Data): Result<State, Data> {
    match s
    case Proceeding => Keep(d, Some(Wait(d.timers.beforeTrying, StillTrying)), [ToCore(d.request)])
    case Completed =>
      var wait := if d.reliable then d.timers.h else d.timers.g;
      Keep(d, Some(Wait(wait, Backoff(wait, wait))), [])
    case Confirmed => if d.reliable then Stop([]) else Keep(d, Some(Wait(d.timers.i, Nothing)), [])
  }

  function Again(d: Data, past: int, passed: int): Result<State, Data> {
    if d.last.None? then Stop([Crash])
    else
      var delay := Min(past * 2, d.timers.t2);
      Keep(d, Some(Wait(delay, Backoff(delay, passed + delay))), [Sent(d, d.last.value)])
  }

  function Handle(s: State, d: Data, e: Event): Result<State, Data> {
    match (s, e)
    case (Proceeding, Timeout(StillTrying)) =>
      var r := ToResponse(d.request, 100, "");
      Keep(Remember(d, r), None, [Sent(d, r)])
    case (Proceeding, IncomingRequest(_)) =>
      Keep(d, None, if d.last.Some? then [Sent(d, d.last.value)] else [])
    case (Proceeding, OutgoingResponse(r)) => (
      match r.Class()
      case 1 => Keep(Remember(d, r), None, [Sent(d, r)])
      case 2 => Stop([Sent(d, r)])
      case _ => Next(Completed, Remember(d, r), [Sent(d, r)]))
    case (Proceeding, TransportError) => Shutdown()
    case (Completed, Timeout(Backoff(past, passed))) =>
      if passed >= d.timers.h then Shutdown() else Again(d, past, passed)
    case (Completed, Timeout(_)) => Stop([Crash])
    case (Completed, IncomingRequest(q)) =>
      if d.last.None? then Otherwise(e)
      else (
        match q.start.verb
        case Invite => Keep(d, None, [Sent(d, d.last.value)])
        case Ack => Next(Confirmed, d, [])
        case OtherMethod(_) => Shutdown())
    case (Completed, TransportError) => Shutdown()
    case (Confirmed, Timeout(_)) => Stop([])
    case (Confirmed, IncomingRequest(_)) => Keep(d, None, [])
    case (Confirmed, TransportError) => Keep(d, None, [])
    case _ => Otherwise(e)
  }

  function Step(p: Machine, e: Event): (Machine, seq<Effect>) {
    if p.Stopped? then (p, [])
    else
      match Handle(p.state, p.data, e)
      case Keep(d, t, es) => (Kept(p.state, d, p.timer, e, t), es)
      case Next(s, d, es) => Entered(s, es, Enter(s, d))
      case Stop(es) => (Stopped, es)
  }

  function Start(request: Request, reliable: bool, timers: Timers): (Machine, seq<Effect>) {
    Entered(Proceeding, [], Enter(Proceeding, Data(request, reliable, timers, None)))
  }
}
