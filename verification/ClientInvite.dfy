/** lib/sippet/transactions/client/invite.ex. */
module ClientInvite {
  import opened Wrappers
  import opened Messages
  import opened Transactions

  datatype State = Calling | Proceeding | Completed

  datatype Data = Data(request: Request, reliable: bool, timers: Timers, last: Option<Response>, ack: Option<Request>)

  type Machine = Process<State, Data>

  function Enter(s: State, d: Data): Result<State, Data> {
    match s
    case Calling =>
      var wait := if d.reliable then d.timers.b else d.timers.a;
      Keep(d, Some(Wait(wait, Backoff(wait, wait))), [Send(d.request)])
    case Proceeding => Keep(d, None, [])
    case Completed =>
      if d.last.None? then Stop([Crash])
      else
        var ack := BuildAck(d.request, d.last.value);
        if d.reliable then Stop([Send(ack)])
        else Keep(d.(ack := Some(ack)), Some(Wait(d.timers.d, Nothing)), [Send(ack)])
  }

  function OnResponse(s: State, d: Data, r: Response): Result<State, Data> {
    match r.Class()
    case 1 => if s.Calling? then Next(Proceeding, d, [ToCore(r)]) else Keep(d, None, [ToCore(r)])
    case 2 => Stop([ToCore(r)])
    case _ => Next(Completed, d.(last := Some(r)), [ToCore(r)])
  }

  function Handle(s: State, d: Data, e: Event): Result<State, Data> {
    match (s, e)
    case (Calling, Timeout(Backoff(past, passed))) =>
      if passed >= d.timers.b then Shutdown()
      else Keep(d, Some(Wait(past * 2, Backoff(past * 2, passed + past * 2))), [Send(d.request)])
    case (Calling, IncomingResponse(r)) => OnResponse(s, d, r)
    case (Proceeding, IncomingResponse(r)) => OnResponse(s, d, r)
    case (Calling, TransportError) => Shutdown()
    case (Proceeding, TransportError) => Shutdown()
    case (Completed, Timeout(_)) => Stop([])
    case (Completed, IncomingResponse(r)) =>
      if d.ack.None? then Otherwise(e)
      else Keep(d, None, if r.Class() >= 3 then [Send(d.ack.value)] else [])
    case (Completed, TransportError) => Keep(d, None, [])
    case _ => Otherwise(e)
  }

  function Step(p: Machine, e: Event): (Machine, seq<Effect>) {
    if p.Stopped? then (p, [])
    else
      match Handle(p.state, p.data, e)
      case Keep(d, t, es) => (Kept(p.state, d, p.timer, e, t), es)
      case Next(s, d, es) => Entered(s, es, Enter(s, d))
      case Stop(es) => (Stopped, es)
  }

  function Start(request: Request, reliable: bool, timers: Timers): (Machine, seq<Effect>) {
    Entered(Calling, [], Enter(Calling, Data(request, reliable, timers, None, None)))
  }
}
