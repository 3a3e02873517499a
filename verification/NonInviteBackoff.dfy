/**
 The process timers of the non-INVITE client in time: what is pending, when
 requests are sent, when the transaction times out. The transaction begins at 0.
 */
module NonInviteBackoff {
  import opened Wrappers
  import opened Messages
  import opened Transactions
  import CN = ClientNonInvite

  // A timer started with `send_after`: when it is due, and what it carries.
  datatype Alarm = Alarm(due: int, delay: int)

  // A request on the wire, and whether the transaction was in `trying`.
  datatype Sent = Sent(time: int, trying: bool)

  datatype Timed = Timed(
    p: CN.Machine,
    now: int,
    deadlines: seq<int>,
    retries: seq<Alarm>,
    sends: seq<Sent>,
    failures: seq<int>)

  // Cancelling comes too `late` when the alarm is already in the mailbox.
  function Happen(w: Timed, es: seq<Effect>, trying: bool, late: bool): Timed
    decreases |es|
  {
    if es == [] then w
    else
      var v := match es[0]
        case Send(_) => w.(sends := w.sends + [Sent(w.now, trying)])
        case ArmRetry(d) => w.(retries := w.retries + [Alarm(w.now + d, d)])
        case ArmDeadline(d) => w.(deadlines := w.deadlines + [w.now + d])
        case CancelRetry => if late then w else w.(retries := [])
        case CancelDeadline => if late then w else w.(deadlines := [])
        case CoreError => w.(failures := w.failures + [w.now])
        case _ => w;
      Happen(v, es[1..], trying, late)
  }

  datatype Move =
    | RetryFires
    | DeadlineFires
    | Arrives(response: Response, at: int, late: bool)
    | Fails(at: int)
    | Ends(at: int)

  predicate Trying(p: CN.Machine) {
    p.Running? && p.state.Trying?
  }

  // Neither completed nor stopped.
  predicate Active(p: CN.Machine) {
    p.Running? && !p.state.Completed?
  }

  function Sees(w: Timed, e: Event, at: int, late: bool): Timed {
    var r := CN.Step(w.p, e);
    Happen(w.(p := r.0, now := at), r.1, Trying(w.p), late)
  }

  function Act(w: Timed, m: Move): Timed
    requires Possible(w, m)
  {
    match m
    case RetryFires => Sees(w.(retries := w.retries[1..]), Retry(w.retries[0].delay), Max(w.now, w.retries[0].due), false)
    case DeadlineFires => Sees(w.(deadlines := w.deadlines[1..]), Deadline, Max(w.now, w.deadlines[0]), false)
    case Arrives(r, at, late) => Sees(w, IncomingResponse(r), at, late)
    case Fails(at) => Sees(w, TransportError, at, false)
    case Ends(at) => Sees(w, Timeout(Nothing), at, false)
  }

  // Time passes, and no alarm of an active transaction is overtaken.
  predicate Timely(w: Timed, at: int) {
    && w.now <= at
    && (forall a | a in w.retries :: at <= a.due)
    && (forall d | d in w.deadlines :: at <= d)
  }

  predicate Possible(w: Timed, m: Move) {
    match m
    case RetryFires => w.retries != [] && (Active(w.p) ==> Timely(w, w.retries[0].due))
    case DeadlineFires => w.deadlines != [] && (Active(w.p) ==> Timely(w, w.deadlines[0]))
    case Arrives(_, at, _) => w.now <= at && (Active(w.p) ==> Timely(w, at))
    case Fails(at) => w.now <= at && (Active(w.p) ==> Timely(w, at))
    case Ends(at) => w.now <= at && w.p.Running? && w.p.timer.Some?
  }

  function Begin(q: Request, reliable: bool, timers: Timers): Timed {
    var s := CN.Start(q, reliable, timers);
    Happen(Timed(s.0, 0, [], [], [], []), s.1, true, false)
  }

  predicate Run(w: Timed, moves: seq<Move>, end: Timed)
    decreases |moves|
  {
    if moves == [] then end == w
    else Possible(w, moves[0]) && Run(Act(w, moves[0]), moves[1..], end)
  }

  /* ----- What every run keeps ----- */

  // The wait after the i-th request: E at first; then T2, or in `trying` twice
  // the wait before, at most T2.
  function Gap(sends: seq<Sent>, i: nat, t: Timers): int
    requires i < |sends|
  {
    if i == 0 then t.e
    else if sends[i].trying then Min(2 * Gap(sends, i - 1, t), t.t2)
    else t.t2
  }

  ghost predicate Spaced(sends: seq<Sent>, t: Timers) {
    && sends != [] && sends[0] == Sent(0, true)
    && forall i | 0 < i < |sends| :: sends[i].time == sends[i - 1].time + Gap(sends, i - 1, t)
  }

  function NextDue(sends: seq<Sent>, t: Timers): int
    requires sends != []
  {
    sends[|sends| - 1].time + Gap(sends, |sends| - 1, t)
  }

  ghost predicate Inv(w: Timed, reliable: bool, t: Timers) {
    && w.sends != [] && Spaced(w.sends, t) && w.now >= 0
    && |w.retries| <= 1 && |w.deadlines| <= 1
    && (forall d | d in w.deadlines :: d == t.f)
    && (reliable ==> w.retries == [] && |w.sends| == 1)
    && (w.p.Running? ==> w.p.data.timers == t && w.p.data.reliable == reliable)
    && (Active(w.p) ==>
          && w.p.data.deadline && w.deadlines == [t.f] && w.now <= t.f && w.failures == []
          && (!reliable ==> w.p.data.retry && |w.retries| == 1
                            && w.retries[0].due == NextDue(w.sends, t)
                            && w.retries[0].delay == Gap(w.sends, |w.sends| - 1, t)
                            && w.now <= w.retries[0].due))
  }

  lemma GapOfPrefix(sends: seq<Sent>, x: Sent, i: nat, t: Timers)
    requires i < |sends|
    ensures Gap(sends + [x], i, t) == Gap(sends, i, t)
  {
    if i > 0 {
      GapOfPrefix(sends, x, i - 1, t);
    }
  }

  // One more request, exactly when it is due, keeps the spacing.
  lemma OneMore(sends: seq<Sent>, trying: bool, t: Timers)
    requires Spaced(sends, t)
    ensures var x := Sent(NextDue(sends, t), trying);
            && Spaced(sends + [x], t)
            && Gap(sends + [x], |sends|, t) ==
               if trying then Min(2 * Gap(sends, |sends| - 1, t), t.t2) else t.t2
  {
    var x := Sent(NextDue(sends, t), trying);
    forall i | 0 <= i < |sends|
      ensures Gap(sends + [x], i, t) == Gap(sends, i, t)
    {
      GapOfPrefix(sends, x, i, t);
    }
  }

  lemma HappenOne(w: Timed, e: Effect, trying: bool, late: bool)
    ensures Happen(w, [e], trying, late) ==
            match e
            case Send(_) => w.(sends := w.sends + [Sent(w.now, trying)])
            case ArmRetry(d) => w.(retries := w.retries + [Alarm(w.now + d, d)])
            case ArmDeadline(d) => w.(deadlines := w.deadlines + [w.now + d])
            case CancelRetry => if late then w else w.(retries := [])
            case CancelDeadline => if late then w else w.(deadlines := [])
            case CoreError => w.(failures := w.failures + [w.now])
            case _ => w
  {
    assert [e][1..] == [];
  }

  lemma HappenMore(w: Timed, e: Effect, es: seq<Effect>, trying: bool, late: bool)
    ensures Happen(w, [e] + es, trying, late) == Happen(Happen(w, [e], trying, late), es, trying, late)
  {
    assert ([e] + es)[1..] == es;
    HappenOne(w, e, trying, late);
  }

  // Cancelling alarms touches nothing else.
  lemma {:induction false} HappenCancels(w: Timed, es: seq<Effect>, trying: bool, late: bool)
    requires forall e | e in es :: e.CancelRetry? || e.CancelDeadline? || e.ToCore?
    ensures var v := Happen(w, es, trying, late);
            && v.p == w.p && v.now == w.now && v.sends == w.sends && v.failures == w.failures
            && (v.retries == w.retries || v.retries == [])
            && (v.deadlines == w.deadlines || v.deadlines == [])
            && (late ==> v == w)
            && (!late && CancelRetry in es ==> v.retries == [])
            && (!late && CancelDeadline in es ==> v.deadlines == [])
            && (CancelRetry !in es ==> v.retries == w.retries)
            && (CancelDeadline !in es ==> v.deadlines == w.deadlines)
    decreases |es|
  {
    if es != [] {
      assert es == [es[0]] + es[1..] && es[0] in es;
      HappenMore(w, es[0], es[1..], trying, late);
      HappenOne(w, es[0], trying, late);
      HappenCancels(Happen(w, [es[0]], trying, late), es[1..], trying, late);
    }
  }

  lemma BeginInv(q: Request, reliable: bool, t: Timers)
    requires t.e > 0 && t.f > 0 && t.t2 > 0
    ensures Inv(Begin(q, reliable, t), reliable, t)
  {
    var s := CN.Start(q, reliable, t);
    var w := Timed(s.0, 0, [], [], [], []);
    var rest := if reliable then [] else [ArmRetry(t.e)];
    assert s.1 == [Send(q)] + ([ArmDeadline(t.f)] + rest);
    HappenMore(w, Send(q), [ArmDeadline(t.f)] + rest, true, false);
    HappenOne(w, Send(q), true, false);
    var w1 := Happen(w, [Send(q)], true, false);
    HappenMore(w1, ArmDeadline(t.f), rest, true, false);
    HappenOne(w1, ArmDeadline(t.f), true, false);
    HappenOne(Happen(w1, [ArmDeadline(t.f)], true, false), ArmRetry(t.e), true, false);
  }

  lemma RetryMove(w: Timed, reliable: bool, t: Timers)
    requires Inv(w, reliable, t) && t.e > 0 && t.f > 0 && t.t2 > 0 && Active(w.p) && Possible(w, RetryFires)
    ensures Inv(Act(w, RetryFires), reliable, t)
  {
    hide Spaced, Gap, Happen;
    var a := w.retries[0];
    var trying := w.p.state.Trying?;
    var wait := if trying then Min(a.delay * 2, t.t2) else t.t2;
    var q := w.p.data.request;
    var v := w.(retries := w.retries[1..], p := CN.Step(w.p, Retry(a.delay)).0, now := a.due);
    HappenMore(v, Send(q), [ArmRetry(wait)], trying, false);
    HappenOne(v, Send(q), trying, false);
    HappenOne(Happen(v, [Send(q)], trying, false), ArmRetry(wait), trying, false);
    OneMore(w.sends, trying, t);
    GapIsPositive(w.sends, |w.sends| - 1, t);
    assert [Send(q), ArmRetry(wait)] == [Send(q)] + [ArmRetry(wait)];
    var x := Sent(a.due, trying);
    var end := Act(w, RetryFires);
    assert end == Happen(v, [Send(q)] + [ArmRetry(wait)], trying, false);
    assert end.sends == w.sends + [x] && end.sends[|end.sends| - 1] == x;
    assert end.retries == [Alarm(a.due + wait, wait)];
    assert |end.sends| - 1 == |w.sends|;
    assert NextDue(end.sends, t) == a.due + wait;
    assert w.deadlines[0] in w.deadlines;
  }

  lemma GapIsPositive(sends: seq<Sent>, i: nat, t: Timers)
    requires i < |sends| && t.e > 0 && t.t2 > 0
    ensures Gap(sends, i, t) > 0
  {
    if i > 0 {
      GapIsPositive(sends, i - 1, t);
    }
  }

  // A failure, or the deadline, ends the transaction there and then.
  lemma Failing(w: Timed, e: Event, at: int)
    requires Active(w.p) && (e.TransportError? || e.Deadline?)
    ensures var v := Sees(w, e, at, false);
            && v.p == Stopped && v.now == at && v.sends == w.sends && v.retries == w.retries
            && v.deadlines == w.deadlines && v.failures == w.failures + [at]
  {
    HappenOne(w.(p := Stopped, now := at), CoreError, Trying(w.p), false);
  }

  // Any response leaves the requests alone, and the alarms too unless it is final.
  lemma Answered(w: Timed, r: Response, at: int, late: bool)
    requires Active(w.p)
    ensures var v := Sees(w, IncomingResponse(r), at, late);
            && v.now == at && v.sends == w.sends && v.failures == w.failures
            && (v.retries == w.retries || v.retries == []) && (v.deadlines == w.deadlines || v.deadlines == [])
            && (v.p.Running? ==> v.p.data.timers == w.p.data.timers && v.p.data.reliable == w.p.data.reliable)
            && (Active(v.p) ==> v.p.data == w.p.data && v.retries == w.retries && v.deadlines == w.deadlines)
            && (r.Class() != 1 ==> !Active(v.p))
  {
    hide CN.Cancels;
    var es := CN.Step(w.p, IncomingResponse(r)).1;
    var v := w.(p := CN.Step(w.p, IncomingResponse(r)).0, now := at);
    HappenCancels(v, es, Trying(w.p), late);
  }

  // A transaction that has completed or stopped does nothing more.
  lemma Idle(w: Timed, e: Event, at: int, late: bool)
    requires !Active(w.p) && !e.IncomingRequest? && !e.OutgoingResponse?
    ensures var v := Sees(w, e, at, late);
            && v == w.(p := v.p, now := at)
            && (v.p.Running? ==> w.p.Running? && v.p.data == w.p.data) && !Active(v.p)
  {
  }

  lemma MoveKeepsInv(w: Timed, m: Move, reliable: bool, t: Timers)
    requires Inv(w, reliable, t) && t.e > 0 && t.f > 0 && t.t2 > 0 && Possible(w, m)
    ensures Inv(Act(w, m), reliable, t)
  {
    hide Spaced, Gap, Sees, NextDue;
    if Active(w.p) {
      assert w.deadlines[0] in w.deadlines && (w.retries != [] ==> w.retries[0] in w.retries);
      match m
      case RetryFires => RetryMove(w, reliable, t);
      case DeadlineFires => Failing(w.(deadlines := w.deadlines[1..]), Deadline, Max(w.now, w.deadlines[0]));
      case Arrives(r, at, late) => Answered(w, r, at, late);
      case Fails(at) => Failing(w, TransportError, at);
      case Ends(at) => Ended(w, at);
    } else {
      match m
      case RetryFires => Idle(w.(retries := w.retries[1..]), Retry(w.retries[0].delay), Max(w.now, w.retries[0].due), false);
      case DeadlineFires => Idle(w.(deadlines := w.deadlines[1..]), Deadline, Max(w.now, w.deadlines[0]), false);
      case Arrives(r, at, late) => Idle(w, IncomingResponse(r), at, late);
      case Fails(at) => Idle(w, TransportError, at, false);
      case Ends(at) => Idle(w, Timeout(Nothing), at, false);
    }
  }

  lemma Ended(w: Timed, at: int)
    requires Active(w.p)
    ensures var v := Sees(w, Timeout(Nothing), at, false); v == w.(p := Stopped, now := at)
  {
  }

  lemma {:induction false} RunKeepsInv(w: Timed, moves: seq<Move>, end: Timed, reliable: bool, t: Timers)
    requires Inv(w, reliable, t) && t.e > 0 && t.f > 0 && t.t2 > 0 && Run(w, moves, end)
    ensures Inv(end, reliable, t)
    decreases |moves|
  {
    hide Inv, Act, Possible;
    if moves != [] {
      MoveKeepsInv(w, moves[0], reliable, t);
      RunKeepsInv(Act(w, moves[0]), moves[1..], end, reliable, t);
    }
  }

  /* ----- The results ----- */

  // In every run: requests go out at 0 and then after waits of E, of twice the
  // wait before and at most T2 while trying, and of T2 while proceeding; at most
  // one retry alarm and one deadline are pending, the deadline never elsewhere
  // than at F; on a reliable transport there is one request.
  lemma NonInviteTiming(q: Request, reliable: bool, t: Timers, moves: seq<Move>, end: Timed)
    requires t.e > 0 && t.f > 0 && t.t2 > 0 && Run(Begin(q, reliable, t), moves, end)
    ensures Spaced(end.sends, t) && |end.retries| <= 1 && |end.deadlines| <= 1
    ensures forall d | d in end.deadlines :: d == t.f
    ensures reliable ==> |end.sends| == 1
    ensures Active(end.p) ==> end.deadlines == [t.f] && end.now <= t.f
    ensures Active(end.p) && Possible(end, DeadlineFires) ==>
              var v := Act(end, DeadlineFires); v.p == Stopped && v.now == t.f && v.failures == [t.f]
  {
    BeginInv(q, reliable, t);
    hide Begin, Run, Happen, Spaced, Gap, Sees;
    RunKeepsInv(Begin(q, reliable, t), moves, end, reliable, t);
    if Active(end.p) {
      Failing(end.(deadlines := end.deadlines[1..]), Deadline, Max(end.now, end.deadlines[0]));
    }
  }

  // Once completed or stopped, nothing is sent and no failure is reported any
  // more, whatever stale alarms still fire.
  lemma {:induction false} NothingAfterCompletion(w: Timed, moves: seq<Move>, end: Timed)
    requires !Active(w.p) && Run(w, moves, end)
    ensures end.sends == w.sends && end.failures == w.failures && !Active(end.p)
    decreases |moves|
  {
    hide Sees;
    if moves != [] {
      IdleMove(w, moves[0]);
      NothingAfterCompletion(Act(w, moves[0]), moves[1..], end);
    }
  }

  lemma IdleMove(w: Timed, m: Move)
    requires !Active(w.p) && Possible(w, m)
    ensures var v := Act(w, m); v.sends == w.sends && v.failures == w.failures && !Active(v.p)
  {
    hide Sees;
    match m
    case RetryFires => Idle(w.(retries := w.retries[1..]), Retry(w.retries[0].delay), Max(w.now, w.retries[0].due), false);
    case DeadlineFires => Idle(w.(deadlines := w.deadlines[1..]), Deadline, Max(w.now, w.deadlines[0]), false);
    case Arrives(r, at, late) => Idle(w, IncomingResponse(r), at, late);
    case Fails(at) => Idle(w, TransportError, at, false);
    case Ends(at) => Idle(w, Timeout(Nothing), at, false);
  }
}
