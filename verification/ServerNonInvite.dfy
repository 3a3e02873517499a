/** lib/sippet/transactions/server/non_invite.ex. */
module ServerNonInvite {
  import opened Wrappers
  import opened Messages
  import opened Transactions

  datatype State = Trying | Proceeding | Completed

  datatype Data = Data(request: Request, reliable: bool, timers: Timers, last: Option<Response>)

  type Machine = Process<State, Data>

  function Remember(d: Data, r: Response): Data {
    d.(last := Some(EnsureTarget(r, d.request)))
  }

  function Sent(d: Data, r: Response): Effect {
    Send(EnsureTarget(r, d.request))
  }

  function Enter(s: State, d: Data): Result<State, Data> {
    match s
    case Trying => Keep(d, None, [ToCore(d.request)])
    case Proceeding => Keep(d, None, [])
    case Completed => if d.reliable then Stop([]) else Keep(d, Some(Wait(d.timers.j, Nothing)), [])
  }

  function Handle(s: State, d: Data, e: Event): Result<State, Data> {
    match (s, e)
    case (Trying, IncomingRequest(_)) => Keep(d, None, [])
    case (Trying, OutgoingResponse(r)) =>
      Next(if r.Class() == 1 then Proceeding else Completed, Remember(d, r), [Sent(d, r)])
    case (Trying, TransportError) => Shutdown()
    case (Proceeding, OutgoingResponse(r)) =>
      if r.Class() == 1 then Keep(Remember(d, r), None, [Sent(d, r)])
      else Next(Completed, Remember(d, r), [Sent(d, r)])
    case (Proceeding, TransportError) => Shutdown()
    case (Completed, Timeout(_)) => Stop([])
    case (Completed, TransportError) => Keep(d, None, [])
    case (_, IncomingRequest(_)) =>
      if d.last.None? then Otherwise(e) else Keep(d, None, [Sent(d, d.last.value)])
    case _ => Otherwise(e)
  }

  function Step(p: Machine, e: Event): (Machine, seq<Effect>) {
    if p.Stopped? then (p, [])
    else
      match Handle(p.state, p.data, e)
      case Keep(d, t, es) => (Kept(p.state, d, p.timer, e, t), es)
      case Next(s, d, es) => Entered(s, es, Enter(s, d))
      case Stop(es) => (Stopped, es)
  }

  function Start(request: Request, reliable: bool, timers: Timers): (Machine, seq<Effect>) {
    Entered(Trying, [], Enter(Trying, Data(request, reliable, timers, None)))
  }
}
