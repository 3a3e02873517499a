/**
 What the four transaction machines share: events, effects, and the rules by
 which `gen_statem` runs them (a state change cancels the state timeout and runs
 the new state's enter clause). lib/sippet/transactions/client.ex and server.ex.
 */
module Transactions {
  import opened Wrappers
  import opened Messages

  datatype Timers = Timers(
    a: int, b: int, d: int, e: int, f: int, g: int, h: int, i: int, j: int, k: int, t2: int, beforeTrying: int)

  function Min(x: int, y: int): int {
    if x < y then x else y
  }

  function Max(x: int, y: int): int {
    if x < y then y else x
  }

  // What a state timeout carries.
  datatype Content = Backoff(past: int, passed: int) | StillTrying | Nothing

  datatype Wait = Wait(delay: int, content: Content)

  datatype Event =
    | Timeout(content: Content)
    | IncomingRequest(request: Request)
    | IncomingResponse(response: Response)
    | OutgoingResponse(answer: Response)
    | TransportError
    | Terminate
    // The process timers of the non-INVITE client.
    | Deadline
    | Retry(lastDelay: int)

  datatype Effect =
    | Send(message: Message)
    | ToCore(told: Message)
    | CoreError
    // `unhandled_event` logs and stops; a failed match crashes the process.
    | Unhandled
    | Crash
    | ArmDeadline(after: int)
    | ArmRetry(delay: int)
    | CancelDeadline
    | CancelRetry

  datatype Result<S, D> =
    | Keep(data: D, timer: Option<Wait>, effects: seq<Effect>)
    | Next(state: S, data: D, effects: seq<Effect>)
    | Stop(effects: seq<Effect>)

  datatype Process<S, D> = Running(state: S, data: D, timer: Option<Wait>) | Stopped

  function Entered<S, D>(s: S, first: seq<Effect>, entry: Result<S, D>): (Process<S, D>, seq<Effect>) {
    match entry
    case Keep(d, t, es) => (Running(s, d, t), first + es)
    // An enter clause cannot change the state.
    case Next(_, _, es) => (Stopped, first + es + [Crash])
    case Stop(es) => (Stopped, first + es)
  }

  // The timeout that is pending while an event is handled: one that fired is gone.
  function Pending(timer: Option<Wait>, e: Event): Option<Wait> {
    if e.Timeout? then None else timer
  }

  // Only the pending timeout can fire.
  predicate Due(timer: Option<Wait>, e: Event) {
    e.Timeout? ==> timer.Some? && timer.value.content == e.content
  }

  function Kept<S, D>(s: S, d: D, timer: Option<Wait>, e: Event, armed: Option<Wait>): Process<S, D> {
    Running(s, d, if armed.Some? then armed else Pending(timer, e))
  }

  // The last clause of every state.
  function Otherwise<S, D>(e: Event): Result<S, D> {
    if e.Terminate? then Stop([]) else Stop([Unhandled])
  }

  function Shutdown<S, D>(): Result<S, D> {
    Stop([CoreError])
  }

  predicate Clean(effects: seq<Effect>) {
    Unhandled !in effects && Crash !in effects
  }

  /* ----- What a run amounts to ----- */

  // What is sent, what the core is told, and how often it is told of an error.
  datatype Tally = Tally(sends: seq<Message>, told: seq<Message>, errors: nat)

  const NO_EFFECT := Tally([], [], 0)
  const FAILURE := Tally([], [], 1)

  function TallyOf(es: seq<Effect>): Tally {
    if es == [] then NO_EFFECT
    else
      var t := TallyOf(es[1..]);
      match es[0]
      case Send(m) => t.(sends := [m] + t.sends)
      case ToCore(m) => t.(told := [m] + t.told)
      case CoreError => t.(errors := t.errors + 1)
      case _ => t
  }

  function Both(x: Tally, y: Tally): Tally {
    Tally(x.sends + y.sends, x.told + y.told, x.errors + y.errors)
  }

  lemma {:induction false} TallyConcat(a: seq<Effect>, b: seq<Effect>)
    ensures TallyOf(a + b) == Both(TallyOf(a), TallyOf(b))
  {
    if a == [] {
      assert a + b == b;
    } else {
      assert (a + b)[0] == a[0] && (a + b)[1..] == a[1..] + b;
      TallyConcat(a[1..], b);
    }
  }

  lemma NoTally()
    ensures TallyOf([]) == NO_EFFECT
  {
  }

  lemma TallyOne(e: Effect)
    ensures TallyOf([e]) ==
            match e
            case Send(m) => Tally([m], [], 0)
            case ToCore(m) => Tally([], [m], 0)
            case CoreError => FAILURE
            case _ => NO_EFFECT
  {
    assert [e][1..] == [];
  }

  lemma TallyTwo(e: Effect, f: Effect)
    ensures TallyOf([e, f]) == Both(TallyOf([e]), TallyOf([f]))
  {
    assert [e, f] == [e] + [f];
    TallyConcat([e], [f]);
  }

  // The responses among the events.
  function Responses(es: seq<Event>): (rs: seq<Message>) {
    if es == [] then []
    else if es[0].IncomingResponse? then [es[0].response] + Responses(es[1..])
    else Responses(es[1..])
  }

  // Up to and including the first final response.
  function ThroughFinal(rs: seq<Message>): seq<Message> {
    if rs == [] then [] else [rs[0]] + if Final(rs[0]) then [] else ThroughFinal(rs[1..])
  }

  function Finals(rs: seq<Message>): nat {
    if rs == [] then 0 else (if Final(rs[0]) then 1 else 0) + Finals(rs[1..])
  }

  function Copies<T>(x: T, n: nat): (xs: seq<T>)
    ensures |xs| == n
  {
    seq(n, _ => x)
  }

  lemma OneCopyMore<T>(x: T, n: nat)
    ensures Copies(x, n + 1) == [x] + Copies(x, n)
  {
  }
}
