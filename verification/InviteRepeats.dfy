/**
 When an INVITE server repeats the refusal that nobody acknowledges: the times of
 every repetition, whatever copies of the INVITE arrive in between, by the arithmetic
 of lib/sippet/transactions/server/invite.ex.
 */
module InviteRepeats {
  import opened Wrappers
  import opened Messages
  import opened Transactions
  import SI = ServerInvite

  datatype Stamped = Stamped(time: int, message: Message)

  // The transaction, the present, when its state timeout is due, what timeouts and
  // what other events made it send, when it reported that nobody answers, and when
  // that the transport failed. Time starts when the refusal is first sent.
  datatype Timed = Timed(
    p: SI.Machine, now: int, due: int, repeats: seq<Stamped>, echoes: seq<Stamped>, failures: seq<int>, broken: seq<int>)

  function Sends(es: seq<Effect>, at: int): seq<Stamped> {
    if es == [] then []
    else (if es[0].Send? then [Stamped(at, es[0].message)] else []) + Sends(es[1..], at)
  }

  function Failures(es: seq<Effect>, at: int): seq<int> {
    if es == [] then [] else (if es[0].CoreError? then [at] else []) + Failures(es[1..], at)
  }

  // The wait that the event starts, if it starts one.
  function Armed(p: SI.Machine, e: Event): Option<Wait> {
    if p.Stopped? then None
    else
      match SI.Handle(p.state, p.data, e)
      case Keep(_, t, _) => t
      case Next(s, d, _) => (match SI.Enter(s, d) case Keep(_, t, _) => t case _ => None)
      case Stop(_) => None
  }

  function Sees(w: Timed, e: Event, at: int): Timed {
    var r := SI.Step(w.p, e);
    var armed := Armed(w.p, e);
    var sends := Sends(r.1, at);
    Timed(r.0, at, if armed.Some? then at + armed.value.delay else w.due,
          if e.Timeout? then w.repeats + sends else w.repeats,
          if e.Timeout? then w.echoes else w.echoes + sends,
          if e.Timeout? then w.failures + Failures(r.1, at) else w.failures,
          if e.Timeout? then w.broken else w.broken + Failures(r.1, at))
  }

  datatype Move = Fires | Arrives(request: Request, at: int) | Fails(at: int)

  predicate Live(w: Timed) {
    w.p.Running? && w.p.state.Completed?
  }

  // A timeout fires when it is due, and nothing is overtaken by it. What arrives is
  // a copy of the INVITE or its ACK.
  predicate Possible(w: Timed, m: Move) {
    match m
    case Fires => w.p.Running? && w.p.timer.Some? && w.now <= w.due
    case Arrives(q, at) => w.now <= at && (Live(w) ==> at <= w.due) && (q.start.verb == Invite || q.start.verb == Ack)
    case Fails(at) => w.now <= at && (Live(w) ==> at <= w.due)
  }

  function Act(w: Timed, m: Move): Timed
    requires Possible(w, m)
  {
    match m
    case Fires => Sees(w, Timeout(w.p.timer.value.content), w.due)
    case Arrives(q, at) => Sees(w, IncomingRequest(q), at)
    case Fails(at) => Sees(w, TransportError, at)
  }

  // The core refuses at time 0.
  function Begin(p: SI.Machine, r: Response): Timed {
    var w := Sees(Timed(p, 0, 0, [], [], [], []), OutgoingResponse(r), 0);
    w.(repeats := w.echoes, echoes := [])
  }

  predicate Run(w: Timed, moves: seq<Move>, end: Timed)
    decreases |moves|
  {
    if moves == [] then end == w
    else Possible(w, moves[0]) && Run(Act(w, moves[0]), moves[1..], end)
  }

  /* ----- The times ----- */

  // The wait behind the i-th time the refusal is sent: G at first, then twice the
  // wait before, at most T2.
  function Gap(i: nat, t: Timers): int {
    if i == 0 then t.g else Min(2 * Gap(i - 1, t), t.t2)
  }

  // The i-th time.
  function At(i: nat, t: Timers): int {
    if i == 0 then 0 else At(i - 1, t) + Gap(i - 1, t)
  }

  // When the wait behind the n-th sending ends.
  function Next(n: nat, t: Timers, reliable: bool): int {
    if reliable then t.h else At(n, t)
  }

  // The refusal is sent at exactly these times, all but the first before H.
  ghost predicate Spaced(repeats: seq<Stamped>, m: Message, t: Timers) {
    && repeats != []
    && (forall i | 0 <= i < |repeats| :: repeats[i] == Stamped(At(i, t), m))
    && (forall i | 0 < i < |repeats| :: At(i, t) < t.h)
  }

  ghost predicate Inv(w: Timed, m: Message, t: Timers, reliable: bool) {
    && Spaced(w.repeats, m, t) && w.now >= 0
    && (reliable ==> |w.repeats| == 1)
    && |w.broken| <= 1 && (forall e | e in w.echoes :: e.message == m)
    && (w.p.Running? ==> !w.p.state.Proceeding? && w.failures == [] && w.broken == [])
    && (w.failures != [] ==> w.broken == [] && w.failures == [Next(|w.repeats|, t, reliable)] && w.failures[0] >= t.h)
    && (Live(w) ==>
          var d := w.p.data;
          && d.timers == t && d.reliable == reliable
          && d.last.Some? && EnsureTarget(d.last.value, d.request) == m
          && w.due == Next(|w.repeats|, t, reliable) && w.now <= w.due
          && w.p.timer == Some(Wait(if reliable then t.h else Gap(|w.repeats| - 1, t),
                                    Backoff(if reliable then t.h else Gap(|w.repeats| - 1, t), w.due))))
  }

  lemma FewSends(e: Effect, at: int)
    ensures Sends([], at) == [] && Failures([], at) == []
    ensures Sends([e], at) == if e.Send? then [Stamped(at, e.message)] else []
    ensures Failures([e], at) == if e.CoreError? then [at] else []
  {
    assert [e][1..] == [];
  }

  lemma GapIsPositive(i: nat, t: Timers)
    requires t.g > 0 && t.t2 > 0
    ensures Gap(i, t) > 0
  {
  }

  lemma {:induction false} AtRises(i: nat, t: Timers)
    requires t.g > 0 && t.t2 > 0
    ensures At(i, t) >= i
  {
    if i > 0 {
      AtRises(i - 1, t);
      GapIsPositive(i - 1, t);
    }
  }

  lemma BeginInv(p: SI.Machine, r: Response, t: Timers)
    requires p.Running? && p.state.Proceeding? && Refusal(r) && p.data.timers == t
    requires t.g > 0 && t.h > 0 && t.t2 > 0
    ensures Inv(Begin(p, r), EnsureTarget(r, p.data.request), t, p.data.reliable) && Live(Begin(p, r))
  {
    TargetIsSettled(r, p.data.request);
    hide EnsureTarget, SI.Step;
    RefusalMoves(p, r);
    FewSends(SI.Sent(p.data, r), 0);
    var w := Begin(p, r);
    assert w.repeats == [Stamped(0, EnsureTarget(r, p.data.request))];
    assert At(1, t) == At(0, t) + Gap(0, t) == t.g;
  }

  lemma RefusalMoves(p: SI.Machine, r: Response)
    requires p.Running? && p.state.Proceeding? && Refusal(r)
    ensures var (q, es) := SI.Step(p, OutgoingResponse(r));
            var wait := if p.data.reliable then p.data.timers.h else p.data.timers.g;
            && es == [SI.Sent(p.data, r)]
            && q == Running(SI.Completed, SI.Remember(p.data, r), Some(Wait(wait, Backoff(wait, wait))))
            && Armed(p, OutgoingResponse(r)) == Some(Wait(wait, Backoff(wait, wait)))
  {
    hide EnsureTarget;
    assert [SI.Sent(p.data, r)] + [] == [SI.Sent(p.data, r)];
  }

  lemma TimeoutMoves(p: SI.Machine, past: int, passed: int)
    requires p.Running? && p.state.Completed? && p.data.last.Some?
    ensures var e := Timeout(Backoff(past, passed));
            var (q, es) := SI.Step(p, e);
            var t := p.data.timers;
            if passed >= t.h then q == Stopped && es == [CoreError] && Armed(p, e).None?
            else
              var gap := Min(2 * past, t.t2);
              && es == [SI.Sent(p.data, p.data.last.value)]
              && q == Running(SI.Completed, p.data, Some(Wait(gap, Backoff(gap, passed + gap))))
              && Armed(p, e) == Some(Wait(gap, Backoff(gap, passed + gap)))
  {
    hide EnsureTarget;
  }

  lemma FiresKeeps(w: Timed, m: Message, t: Timers, reliable: bool)
    requires Inv(w, m, t, reliable) && Live(w) && Possible(w, Fires) && t.g > 0 && t.h > 0 && t.t2 > 0
    ensures Inv(Act(w, Fires), m, t, reliable)
  {
    hide EnsureTarget, SI.Step, Gap, At, Armed, Spaced;
    var d, n := w.p.data, |w.repeats|;
    TimeoutMoves(w.p, w.p.timer.value.delay, w.due);
    FewSends(SI.Sent(d, d.last.value), w.due);
    FewSends(CoreError, w.due);
    assert w.failures + [] == w.failures && w.repeats + [] == w.repeats && w.failures + [w.due] == [w.due];
    SpacedOnce(w.repeats, m, t);
    if w.due < t.h {
      GapStep(n, t);
      GapIsPositive(n, t);
      OneMore(w.repeats, m, t);
    }
  }

  lemma SpacedOnce(repeats: seq<Stamped>, m: Message, t: Timers)
    requires Spaced(repeats, m, t)
    ensures repeats != []
  {
  }

  lemma OneMore(repeats: seq<Stamped>, m: Message, t: Timers)
    requires Spaced(repeats, m, t) && At(|repeats|, t) < t.h
    ensures Spaced(repeats + [Stamped(At(|repeats|, t), m)], m, t)
    ensures At(|repeats| + 1, t) == At(|repeats|, t) + Gap(|repeats|, t)
  {
    hide Gap;
  }

  lemma GapStep(n: nat, t: Timers)
    requires n > 0
    ensures Gap(n, t) == Min(2 * Gap(n - 1, t), t.t2)
  {
  }

  // Before the ACK a copy is answered at once; the timeout stays as it is.
  lemma ArrivalMoves(p: SI.Machine, e: Event)
    requires p.Running? && !p.state.Proceeding? && (p.state.Completed? ==> p.data.last.Some?)
    requires e.TransportError? || (e.IncomingRequest? && (e.request.start.verb == Invite || e.request.start.verb == Ack))
    ensures var (q, es) := SI.Step(p, e);
            && (q == p || (q.Running? ==> q.state.Confirmed?))
            && (q == p && p.state.Completed? ==> Armed(p, e).None?)
            && (es == [] || (es == [CoreError] && q == Stopped && p.state.Completed?)
                || (p.state.Completed? && es == [SI.Sent(p.data, p.data.last.value)]))
  {
    hide EnsureTarget;
  }

  lemma ArrivalKeeps(w: Timed, e: Event, at: int, m: Message, t: Timers, reliable: bool)
    requires Inv(w, m, t, reliable) && w.now <= at && (Live(w) ==> at <= w.due)
    requires e.TransportError? || (e.IncomingRequest? && (e.request.start.verb == Invite || e.request.start.verb == Ack))
    ensures Inv(Sees(w, e, at), m, t, reliable)
  {
    hide EnsureTarget, SI.Step, Gap, Armed, Spaced;
    FewSends(CoreError, at);
    assert w.broken + [] == w.broken && w.echoes + [] == w.echoes;
    if w.p.Running? {
      ArrivalMoves(w.p, e);
      if w.p.state.Completed? {
        FewSends(SI.Sent(w.p.data, w.p.data.last.value), at);
      }
    } else {
      Over(w.p, e);
    }
  }

  lemma Over(p: SI.Machine, e: Event)
    requires p.Stopped?
    ensures SI.Step(p, e) == (p, [])
  {
  }

  // A confirmed transaction ends when its timeout fires.
  lemma EndKeeps(w: Timed, m: Message, t: Timers, reliable: bool)
    requires Inv(w, m, t, reliable) && !Live(w) && Possible(w, Fires)
    ensures Inv(Act(w, Fires), m, t, reliable)
  {
    hide Gap, Spaced;
    FewSends(CoreError, w.due);
    assert w.failures + [] == w.failures && w.repeats + [] == w.repeats;
  }

  lemma ActKeeps(w: Timed, move: Move, m: Message, t: Timers, reliable: bool)
    requires Inv(w, m, t, reliable) && Possible(w, move) && t.g > 0 && t.h > 0 && t.t2 > 0
    ensures Inv(Act(w, move), m, t, reliable)
  {
    hide Inv, Sees;
    match move
    case Fires =>
      if Live(w) {
        FiresKeeps(w, m, t, reliable);
      } else {
        EndKeeps(w, m, t, reliable);
      }
    case Arrives(q, at) => ArrivalKeeps(w, IncomingRequest(q), at, m, t, reliable);
    case Fails(at) => ArrivalKeeps(w, TransportError, at, m, t, reliable);
  }

  lemma {:induction false} RunKeeps(w: Timed, moves: seq<Move>, end: Timed, m: Message, t: Timers, reliable: bool)
    requires Inv(w, m, t, reliable) && Run(w, moves, end) && t.g > 0 && t.h > 0 && t.t2 > 0
    ensures Inv(end, m, t, reliable)
    decreases |moves|
  {
    hide Inv, Act, Possible;
    if moves != [] {
      ActKeeps(w, moves[0], m, t, reliable);
      RunKeeps(Act(w, moves[0]), moves[1..], end, m, t, reliable);
    }
  }

  // There are at most H repeats, and the wait behind the last ends in time.
  lemma Bounded(repeats: seq<Stamped>, m: Message, t: Timers)
    requires Spaced(repeats, m, t) && t.g > 0 && t.h > 0 && t.t2 > 0
    ensures |repeats| <= t.h && At(|repeats|, t) <= Max(t.g, t.h - 1 + t.t2)
  {
    var n := |repeats| - 1;
    AtRises(n, t);
    if n > 0 {
      GapStep(n, t);
    }
    hide Gap;
    assert At(n + 1, t) == At(n, t) + Gap(n, t);
  }

  // In every run from the refusal on: it is sent at 0 and, on an unreliable
  // transport, again after waits of G and then of twice the wait before, at most
  // T2, as long as that is before H and there is no ACK; the first time of these
  // that is not before H, or H itself on a reliable transport, is when failure is
  // reported, unless the transport fails before. That is no later than G or
  // H - 1 + T2, after at most H sendings. Copies of the INVITE are answered in
  // between and move none of this.
  lemma RepeatTimes(p: SI.Machine, r: Response, moves: seq<Move>, end: Timed)
    requires p.Running? && p.state.Proceeding? && Refusal(r)
    requires var t := p.data.timers; t.g > 0 && t.h > 0 && t.t2 > 0
    requires Run(Begin(p, r), moves, end)
    ensures var (t, m, n) := (p.data.timers, EnsureTarget(r, p.data.request), |end.repeats|);
            && Spaced(end.repeats, m, t) && (p.data.reliable ==> n == 1)
            && (forall e | e in end.echoes :: e.message == m)
            && n <= t.h && Next(n, t, p.data.reliable) <= (if p.data.reliable then t.h else Max(t.g, t.h - 1 + t.t2))
            && |end.broken| <= 1 && (end.broken == [] || end.failures == [])
            && (end.failures != [] ==> end.failures == [Next(n, t, p.data.reliable)] && Next(n, t, p.data.reliable) >= t.h)
            && (Live(end) ==>
                  && Possible(end, Fires) && end.failures == end.broken == []
                  && end.now <= end.due == Next(n, t, p.data.reliable))
            && (Live(end) ==>
                  var v := Act(end, Fires);
                  if end.due < t.h then Live(v) && v.repeats == end.repeats + [Stamped(end.due, m)]
                  else v.p == Stopped && v.failures == [end.due] && v.repeats == end.repeats)
  {
    var t, m := p.data.timers, EnsureTarget(r, p.data.request);
    BeginInv(p, r, t);
    hide Begin, Run, EnsureTarget, SI.Step, Gap, Spaced;
    RunKeeps(Begin(p, r), moves, end, m, t, p.data.reliable);
    Bounded(end.repeats, m, t);
    if Live(end) {
      var d := end.p.data;
      TimeoutMoves(end.p, end.p.timer.value.delay, end.due);
      FewSends(SI.Sent(d, d.last.value), end.due);
      FewSends(CoreError, end.due);
      assert end.failures + [end.due] == [end.due] && end.repeats + [] == end.repeats;
    }
  }

  // With the default timers, in units of T1: 0, 1, 3, 7, 15, then every 8, the last
  // at 63, and failure at 71.
  lemma DefaultTimes(t: Timers)
    requires t.g == 1 && t.t2 == 8 && t.h == 64
    ensures At(1, t) == 1 && At(2, t) == 3 && At(3, t) == 7
    ensures forall i | 4 <= i <= 11 :: At(i, t) == 15 + 8 * (i - 4)
    ensures At(10, t) < t.h <= At(11, t)
  {
    assert Gap(1, t) == 2 && Gap(2, t) == 4 && Gap(3, t) == 8;
    assert At(1, t) == 1 && At(2, t) == At(1, t) + Gap(1, t);
    assert At(3, t) == At(2, t) + Gap(2, t) && At(4, t) == At(3, t) + Gap(3, t) == 15;
    var i := 4;
    while i < 11
      invariant 4 <= i <= 11 && Gap(i - 1, t) == 8
      invariant forall k | 4 <= k <= i :: At(k, t) == 15 + 8 * (k - 4)
    {
      GapStep(i, t);
      i := i + 1;
      assert At(i, t) == At(i - 1, t) + Gap(i - 1, t);
    }
  }
}
