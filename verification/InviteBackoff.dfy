/**
 When an INVITE client repeats a request that nobody answers, by the arithmetic of
 lib/sippet/transactions/client/invite.ex: elapsed time is looked at only when a
 wait ends. Times are in the units of the timer table, from the start on.
 */
module InviteBackoff {
  import opened Wrappers
  import opened Messages
  import opened Transactions
  import CI = ClientInvite

  datatype Stamped = Stamped(time: int, effect: Effect)

  function Pow2(n: nat): (p: nat)
    ensures p >= 1 && p > n
  {
    if n == 0 then 1 else 2 * Pow2(n - 1)
  }

  predicate Waiting(p: CI.Machine) {
    && p.Running? && p.state.Calling?
    && p.timer.Some? && p.timer.value.content.Backoff?
    && p.timer.value.delay == p.timer.value.content.past > 0
  }

  // Everything that happens from `now` on when only the state timeout ever fires.
  function Unanswered(p: CI.Machine, now: int): seq<Stamped>
    requires Waiting(p)
    decreases p.data.timers.b - p.timer.value.content.passed
  {
    var t := now + p.timer.value.delay;
    var r := CI.Step(p, Timeout(p.timer.value.content));
    if r.0.Running? then [Stamped(t, r.1[0])] + Unanswered(r.0, t) else [Stamped(t, r.1[0])]
  }

  // When the k-th doubled wait ends.
  function At(a: int, k: nat): int {
    if k == 0 then 0 else 2 * At(a, k - 1) + a
  }

  lemma {:induction false} AtClosed(a: int, k: nat)
    ensures At(a, k) == a * (Pow2(k) - 1)
  {
    if k > 0 {
      AtClosed(a, k - 1);
      Doubles(a, Pow2(k - 1));
    }
  }

  lemma Doubles(a: int, p: int)
    ensures a * (2 * p - 1) == 2 * (a * (p - 1)) + a
  {
  }

  lemma {:induction false} AtRises(a: int, k: nat, n: nat)
    requires a > 0 && k <= n
    ensures At(a, k) + (n - k) <= At(a, n) && At(a, k) >= k
  {
    if k < n {
      AtRises(a, k, n - 1);
    } else if k > 0 {
      AtRises(a, k - 1, k - 1);
    }
  }

  // The least number of rounds after which the doubled waits add up to `b`.
  function Rounds(a: int, b: int, k: nat): (n: nat)
    requires a > 0 && b > 0 && (k > 0 ==> At(a, k - 1) < b)
    ensures At(a, n) >= b && n >= k && n >= 1 && At(a, n - 1) < b
    decreases b - k
  {
    AtRises(a, k, k);
    if At(a, k) >= b then k else Rounds(a, b, k + 1)
  }

  // Rounds k .. n-1 send the request, round n reports the timeout.
  function Expected(q: Request, a: int, k: nat, n: nat): seq<Stamped>
    requires k <= n
    decreases n - k
  {
    if k == n then [Stamped(At(a, n), CoreError)]
    else [Stamped(At(a, k), Send(q))] + Expected(q, a, k + 1, n)
  }

  // The wait after round k - 1 ends at round k.
  ghost predicate InRound(p: CI.Machine, now: int, k: nat) {
    && Waiting(p) && k >= 1
    && now == At(p.data.timers.a, k - 1)
    && p.timer.value.delay == now + p.data.timers.a
    && p.timer.value.content.passed == now + p.timer.value.delay
  }

  lemma NextRound(p: CI.Machine, now: int, k: nat)
    requires InRound(p, now, k) && p.data.timers.a > 0
    ensures Waiting(p)
    ensures var t := now + p.timer.value.delay;
            var r := CI.Step(p, Timeout(p.timer.value.content));
            && t == At(p.data.timers.a, k)
            && (if t >= p.data.timers.b then r == (Stopped, [CoreError])
                else r.1 == [Send(p.data.request)] && r.0.Running? && r.0.data == p.data && InRound(r.0, t, k + 1))
  {
  }

  lemma {:induction false} RoundsRun(p: CI.Machine, now: int, k: nat, n: nat)
    requires InRound(p, now, k) && p.data.timers.a > 0 && k <= n
    requires At(p.data.timers.a, n) >= p.data.timers.b > At(p.data.timers.a, n - 1)
    ensures Waiting(p) && Unanswered(p, now) == Expected(p.data.request, p.data.timers.a, k, n)
    decreases n - k
  {
    hide InRound, CI.Step, At;
    NextRound(p, now, k);
    if k < n {
      AtRises(p.data.timers.a, k, n - 1);
      var t := now + p.timer.value.delay;
      RoundsRun(CI.Step(p, Timeout(p.timer.value.content)).0, t, k + 1, n);
    }
  }

  // On an unreliable transport the request is sent n times, at a * (2^k - 1) for
  // k < n, and the timeout is reported at a * (2^n - 1), where n is the least
  // number with a * (2^n - 1) >= b.
  lemma UnansweredInvite(q: Request, timers: Timers)
    requires timers.a > 0 && timers.b > 0
    ensures var (p, es) := CI.Start(q, false, timers);
            var n := Rounds(timers.a, timers.b, 0);
            && es == [Send(q)] && Waiting(p)
            && [Stamped(0, Send(q))] + Unanswered(p, 0) == Expected(q, timers.a, 0, n)
            && timers.b <= timers.a * (Pow2(n) - 1) < 2 * timers.b + timers.a
    ensures forall k: nat :: At(timers.a, k) == timers.a * (Pow2(k) - 1)
  {
    var s := CI.Start(q, false, timers);
    assert [] + [Send(q)] == [Send(q)];
    var a := timers.a;
    var n := Rounds(a, timers.b, 0);
    assert At(a, n) == 2 * At(a, n - 1) + a;
    RoundsRun(s.0, 0, 1, n);
    forall k: nat
      ensures At(a, k) == a * (Pow2(k) - 1)
    {
      AtClosed(a, k);
    }
  }

  // With the default timers, b = 64 a, that is seven requests and 127 a.
  lemma DefaultTimeout(a: int)
    requires a > 0
    ensures Rounds(a, 64 * a, 0) == 7 && At(a, 7) == 127 * a
  {
    var n := Rounds(a, 64 * a, 0);
    assert At(a, 1) == a;
    assert At(a, 2) == 3 * a;
    assert At(a, 3) == 7 * a;
    assert At(a, 4) == 15 * a;
    assert At(a, 5) == 31 * a;
    assert At(a, 6) == 63 * a;
    if n < 7 {
      AtRises(a, n, 6);
    }
    if n > 7 {
      AtRises(a, 7, n - 1);
    }
  }

  // On a reliable transport there is one request, and the timeout comes at b.
  lemma UnansweredReliableInvite(q: Request, timers: Timers)
    requires timers.a > 0 && timers.b > 0
    ensures var (p, es) := CI.Start(q, true, timers);
            && es == [Send(q)] && Waiting(p)
            && Unanswered(p, 0) == [Stamped(timers.b, CoreError)]
  {
    assert [] + [Send(q)] == [Send(q)];
  }
}
