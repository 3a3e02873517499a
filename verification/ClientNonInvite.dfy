/** lib/sippet/transactions/client/non_invite.ex. */
module ClientNonInvite {
  import opened Wrappers
  import opened Messages
  import opened Transactions

  datatype State = Trying | Proceeding | Completed

  // `deadline` and `retry` say whether the data holds a reference to that timer.
  datatype Data = Data(request: Request, reliable: bool, timers: Timers, deadline: bool, retry: bool)

  type Machine = Process<State, Data>

  function Enter(s: State, d: Data): Result<State, Data> {
    match s
    case Trying =>
      Keep(d.(deadline := true, retry := !d.reliable), None,
           [Send(d.request), ArmDeadline(d.timers.f)] + if d.reliable then [] else [ArmRetry(d.timers.e)])
    case Proceeding => Keep(d, None, [])
    case Completed =>
      if d.reliable then Stop(Cancels(d))
      else Keep(d.(deadline := false, retry := false), Some(Wait(d.timers.k, Nothing)), Cancels(d))
  }

  // `cancel_timers`: what the data holds a reference to.
  function Cancels(d: Data): (es: seq<Effect>)
    ensures CancelDeadline in es <==> d.deadline
    ensures CancelRetry in es <==> d.retry
    ensures forall e | e in es :: e.CancelDeadline? || e.CancelRetry?
  {
    (if d.deadline then [CancelDeadline] else []) + (if d.retry then [CancelRetry] else [])
  }

  function Again(d: Data, wait: int): Result<State, Data> {
    Keep(d.(retry := true), None, [Send(d.request), ArmRetry(wait)])
  }

  function OnResponse(s: State, d: Data, r: Response): Result<State, Data> {
    if r.Class() != 1 then Next(Completed, d, [ToCore(r)])
    else if s.Trying? then Next(Proceeding, d, [ToCore(r)])
    else Keep(d, None, [ToCore(r)])
  }

  function Handle(s: State, d: Data, e: Event): Result<State, Data> {
    match (s, e)
    case (Trying, Deadline) => Shutdown()
    case (Proceeding, Deadline) => Shutdown()
    case (Trying, Retry(last)) => Again(d, Min(last * 2, d.timers.t2))
    case (Proceeding, Retry(_)) => Again(d, d.timers.t2)
    case (Trying, IncomingResponse(r)) => OnResponse(s, d, r)
    case (Proceeding, IncomingResponse(r)) => OnResponse(s, d, r)
    case (Trying, TransportError) => Shutdown()
    case (Proceeding, TransportError) => Shutdown()
    case (Completed, Timeout(_)) => Stop([])
    case (Completed, IncomingResponse(_)) => Keep(d, None, [])
    case (Completed, TransportError) => Keep(d, None, [])
    case (Completed, Deadline) => Keep(d, None, [])
    case (Completed, Retry(_)) => Keep(d, None, [])
    case _ => Otherwise(e)
  }

  function Step(p: Machine, e: Event): (Machine, seq<Effect>) {
    if p.Stopped? then (p, [])
    else
      match Handle(p.state, p.data, e)
      case Keep(d, t, es) => (Kept(p.state, d, p.timer, e, t), es)
      case Next(s, d, es) => Entered(s, es, Enter(s, d))
      case Stop(es) => (Stopped, es)
  }

  function Start(request: Request, reliable: bool, timers: Timers): (Machine, seq<Effect>) {
    Entered(Trying, [], Enter(Trying, Data(request, reliable, timers, false, false)))
  }
}
