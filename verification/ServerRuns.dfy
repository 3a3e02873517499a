/**
 What any run of a server transaction amounts to: what it has sent is what it
 remembers, copies of the request are answered by the last of it, and the first
 final response stays the last word.
 lib/sippet/transactions/server/invite.ex and non_invite.ex.
 */
module ServerRuns {
  import opened Wrappers
  import opened Messages
  import opened Transactions
  import opened NoUnhandled
  import SI = ServerInvite
  import SN = ServerNonInvite

  // After a final response nothing else is sent.
  predicate Settled(sends: seq<Message>) {
    forall i, j | 0 <= i < j < |sends| && Final(sends[i]) :: sends[j] == sends[i]
  }

  predicate Undecided(sends: seq<Message>) {
    forall m | m in sends :: !Final(m)
  }

  function LastOf(sends: seq<Message>): seq<Message> {
    if sends == [] then [] else [sends[|sends| - 1]]
  }

  // `last` is what was sent last, as it was sent.
  predicate Remembers(last: Option<Response>, q: Request, sends: seq<Message>) {
    if sends == [] then last.None?
    else last.Some? && last.value == sends[|sends| - 1] && EnsureTarget(last.value, q) == last.value
  }

  lemma SaysNew(sends: seq<Message>, x: Response, q: Request)
    requires Undecided(sends)
    ensures Settled(sends + [EnsureTarget(x, q)])
    ensures Remembers(Some(EnsureTarget(x, q)), q, sends + [EnsureTarget(x, q)])
    ensures Undecided(sends + [EnsureTarget(x, q)]) <==> !Final(x)
  {
    TargetIsSettled(x, q);
    StartsStay(x, q);
    hide EnsureTarget;
    var m := EnsureTarget(x, q);
    assert (sends + [m])[|sends|] == m && m in sends + [m];
    assert forall n | n in sends + [m] :: n in sends || n == m;
  }

  lemma SaysAgain(sends: seq<Message>, last: Option<Response>, q: Request)
    requires Settled(sends) && Remembers(last, q, sends) && last.Some?
    ensures Settled(sends + [EnsureTarget(last.value, q)])
    ensures Remembers(last, q, sends + [EnsureTarget(last.value, q)])
    ensures Undecided(sends + [EnsureTarget(last.value, q)]) <==> Undecided(sends)
    ensures LastOf(sends) == [EnsureTarget(last.value, q)]
  {
    hide EnsureTarget, Final;
    var m := sends[|sends| - 1];
    assert m in sends;
    assert forall n | n in sends + [m] :: n in sends;
    assert forall n | n in sends :: n in sends + [m];
  }

  /* ----- What a server has to say ----- */

  // The answer an event calls for: the core's, and the INVITE server's own 100.
  function Answer(q: Request, tries: bool, e: Event): seq<Message> {
    if e.OutgoingResponse? then [EnsureTarget(e.answer, q)]
    else if tries && e == Timeout(StillTrying) then [EnsureTarget(ToResponse(q, 100, ""), q)]
    else []
  }

  function Answers(q: Request, tries: bool, es: seq<Event>): seq<Message> {
    if es == [] then [] else Answer(q, tries, es[0]) + Answers(q, tries, es[1..])
  }

  // `sends` says everything in `said`, in this order, each once or more.
  predicate Stutters(said: seq<Message>, sends: seq<Message>)
    decreases |sends|
  {
    if said == [] || sends == [] then said == sends
    else
      var k, n := |said| - 1, |sends| - 1;
      said[k] == sends[n] && (Stutters(said, sends[..n]) || Stutters(said[..k], sends[..n]))
  }

  lemma StuttersMore(said: seq<Message>, sends: seq<Message>, m: Message)
    requires Stutters(said, sends)
    ensures Stutters(said + [m], sends + [m])
    ensures sends != [] && m == sends[|sends| - 1] ==> Stutters(said, sends + [m])
  {
    assert (said + [m])[..|said|] == said && (sends + [m])[..|sends|] == sends;
  }

  // What was said, and what is said from now on, through the first final response.
  function Sofar(said: seq<Message>, sends: seq<Message>, answers: seq<Message>): seq<Message> {
    if Undecided(sends) then said + ThroughFinal(answers) else said
  }

  lemma AnswersMore(q: Request, tries: bool, e: Event, es: seq<Event>)
    ensures Answers(q, tries, [e] + es) == Answer(q, tries, e) + Answers(q, tries, es)
  {
    assert ([e] + es)[1..] == es;
  }

  // One step of a server: an answer while it is undecided is sent; otherwise at
  // most the last message again.
  predicate Speaks(sends: seq<Message>, one: seq<Message>, more: seq<Message>) {
    if Undecided(sends) && one != [] then |one| == 1 && more == one else more == [] || more == LastOf(sends)
  }

  lemma StepSays(said: seq<Message>, sends: seq<Message>, one: seq<Message>, more: seq<Message>, rest: seq<Message>)
    requires Stutters(said, sends) && Speaks(sends, one, more)
    ensures var now := Sofar(said, sends, one);
            Stutters(now, sends + more) && Sofar(said, sends, one + rest) == Sofar(now, sends + more, rest)
  {
    hide Final, Stutters;
    if Undecided(sends) && one != [] {
      StepAnswers(said, sends, one[0], rest);
      assert one == [one[0]];
    } else {
      assert sends + [] == sends && said + [] == said;
      assert Undecided(sends) ==> one + rest == rest;
      if sends != [] {
        StuttersMore(said, sends, sends[|sends| - 1]);
        Repeated(sends);
      }
    }
  }

  lemma Repeated(sends: seq<Message>)
    requires sends != []
    ensures Undecided(sends + [sends[|sends| - 1]]) <==> Undecided(sends)
  {
    hide Final;
    var m := sends[|sends| - 1];
    assert forall n | n in sends + [m] :: n in sends;
    assert forall n | n in sends :: n in sends + [m];
  }

  lemma StepAnswers(said: seq<Message>, sends: seq<Message>, m: Message, rest: seq<Message>)
    requires Stutters(said, sends) && Undecided(sends)
    ensures var now := Sofar(said, sends, [m]);
            Stutters(now, sends + [m]) && Sofar(said, sends, [m] + rest) == Sofar(now, sends + [m], rest)
  {
    hide Final, Stutters;
    StuttersMore(said, sends, m);
    assert ([m] + rest)[1..] == rest && [m][1..] == [];
    assert ThroughFinal([m]) == [m] + [] == [m];
    assert m in sends + [m] && forall n | n in sends + [m] :: n in sends || n == m;
    assert (said + [m]) + ThroughFinal(rest) == said + ([m] + ThroughFinal(rest));
    assert (said + [m]) + [] == said + [m];
  }

  /* ----- The INVITE server ----- */

  function SiEnd(p: SI.Machine, events: seq<Event>): SI.Machine
    decreases |events|
  {
    if events == [] then p else SiEnd(SI.Step(p, events[0]).0, events[1..])
  }

  function SiHandled(p: SI.Machine, events: seq<Event>): seq<Event>
    decreases |events|
  {
    if events == [] || p.Stopped? then [] else [events[0]] + SiHandled(SI.Step(p, events[0]).0, events[1..])
  }

  // What was sent is settled; a live transaction remembers the last of it, and has
  // left `proceeding` when it has decided.
  predicate SiMemory(p: SI.Machine, q: Request, sends: seq<Message>) {
    && Settled(sends)
    && (p.Running? ==>
          && p.data.request == q && Remembers(p.data.last, q, sends)
          && (p.state.Proceeding? <==> Undecided(sends)))
  }

  // A new thing to say, if any.
  function SiSays(p: SI.Machine, e: Event): Option<Response>
    requires p.Running?
  {
    if p.state.Proceeding? && e.OutgoingResponse? then Some(e.answer)
    else if p.state.Proceeding? && e == Timeout(StillTrying) then Some(ToResponse(p.data.request, 100, ""))
    else None
  }

  lemma SiNew(p: SI.Machine, e: Event)
    requires p.Running? && SiSays(p, e).Some?
    ensures var (r, es) := SI.Step(p, e);
            var x := SiSays(p, e).value;
            && es == [Send(EnsureTarget(x, p.data.request))]
            && (r.Running? ==> r.data.last == Some(EnsureTarget(x, p.data.request)) && r.data.request == p.data.request
                               && (r.state.Proceeding? <==> !Final(x)))
  {
    hide EnsureTarget;
    var x := SiSays(p, e).value;
    assert [SI.Sent(p.data, x)] + [] == [SI.Sent(p.data, x)];
  }

  lemma SiOld(p: SI.Machine, e: Event)
    requires p.Running? && SiSays(p, e).None?
    ensures var (r, es) := SI.Step(p, e);
            && (es == [] || es == [CoreError] || es == [Unhandled] || es == [Crash]
                || (p.data.last.Some? && es == [Send(EnsureTarget(p.data.last.value, p.data.request))]))
            && (es == [CoreError] ==> r.Stopped?)
            && (r.Running? ==> r.data == p.data && (r.state.Proceeding? <==> p.state.Proceeding?))
  {
    hide EnsureTarget, ToResponse;
  }

  lemma SiStepKeeps(p: SI.Machine, q: Request, sends: seq<Message>, e: Event)
    requires p.Running? && SiMemory(p, q, sends)
    ensures var (r, es) := SI.Step(p, e);
            var t := TallyOf(es);
            && SiMemory(r, q, sends + t.sends) && t.told == [] && t.errors <= 1 && (t.errors == 1 ==> r.Stopped?)
  {
    hide SI.Step, EnsureTarget, Settled, Remembers, Undecided, Final, TallyOf, SiSays;
    var es := SI.Step(p, e).1;
    if SiSays(p, e).Some? {
      var x := SiSays(p, e).value;
      SiNew(p, e);
      SiSpeaking(p, e);
      TallyOne(Send(EnsureTarget(x, q)));
      SaysNew(sends, x, q);
    } else {
      SiOld(p, e);
      NoTally();
      TallyOne(CoreError);
      TallyOne(Unhandled);
      TallyOne(Crash);
      assert sends + [] == sends;
      if es != [] && es[0].Send? {
        TallyOne(es[0]);
        SaysAgain(sends, p.data.last, q);
      }
    }
  }

  lemma SiSpeaking(p: SI.Machine, e: Event)
    requires p.Running? && SiSays(p, e).Some?
    ensures p.state.Proceeding?
  {
  }

  lemma {:induction false} SiRunKeeps(p: SI.Machine, q: Request, sends: seq<Message>, events: seq<Event>)
    requires SiMemory(p, q, sends)
    ensures var t := TallyOf(SiRun(p, events));
            && SiMemory(SiEnd(p, events), q, sends + t.sends) && t.told == [] && t.errors <= 1
            && (p.Stopped? ==> t == NO_EFFECT)
    decreases |events|
  {
    hide SI.Step, SiMemory, TallyOf, SiRun, SiEnd;
    SiUntouched(p);
    assert sends + [] == sends;
    if events != [] {
      SiMore(p, events);
      var r := SI.Step(p, events[0]);
      if p.Running? {
        SiStepKeeps(p, q, sends, events[0]);
      } else {
        SiStays(p, events[0]);
      }
      var t := TallyOf(r.1);
      SiRunKeeps(r.0, q, sends + t.sends, events[1..]);
      var u := TallyOf(SiRun(r.0, events[1..]));
      assert (sends + t.sends) + u.sends == sends + (t.sends + u.sends);
    }
  }

  lemma SiStays(p: SI.Machine, e: Event)
    requires p.Stopped?
    ensures SI.Step(p, e) == (p, [])
  {
  }

  // The ACK has come: nothing more happens, and nothing prolongs the wait.
  ghost predicate SiSilence(p: SI.Machine, events: seq<Event>) {
    TallyOf(SiRun(p, events)) == NO_EFFECT && (SiEnd(p, events) == p || SiEnd(p, events).Stopped?)
  }

  lemma SiMore(p: SI.Machine, events: seq<Event>)
    requires events != []
    ensures var (r, rest) := (SI.Step(p, events[0]), events[1..]);
            && TallyOf(SiRun(p, events)) == Both(TallyOf(r.1), TallyOf(SiRun(r.0, rest)))
            && SiEnd(p, events) == SiEnd(r.0, rest)
  {
    hide SI.Step, TallyOf;
    var r := SI.Step(p, events[0]);
    TallyConcat(r.1, SiRun(r.0, events[1..]));
  }

  lemma {:induction false} SiConfirmed(p: SI.Machine, events: seq<Event>)
    requires p.Running? ==> p.state.Confirmed?
    ensures SiSilence(p, events)
    decreases |events|
  {
    hide SI.Step, TallyOf, SiRun, SiEnd;
    if events == [] {
      SiUntouched(p);
    } else {
      SiMore(p, events);
      ConfirmedStep(p, events[0]);
      SiConfirmed(SI.Step(p, events[0]).0, events[1..]);
    }
  }

  lemma SiUntouched(p: SI.Machine)
    ensures SiRun(p, []) == [] && SiEnd(p, []) == p && TallyOf([]) == NO_EFFECT
  {
  }

  lemma ConfirmedStep(p: SI.Machine, e: Event)
    requires p.Running? ==> p.state.Confirmed?
    ensures var (r, es) := SI.Step(p, e); TallyOf(es) == NO_EFFECT && (r == p || r.Stopped?)
  {
    TallyOne(Unhandled);
  }

  lemma SiStepSays(p: SI.Machine, q: Request, sends: seq<Message>, e: Event)
    requires p.Running? && SiMemory(p, q, sends)
    ensures Speaks(sends, Answer(q, true, e), TallyOf(SI.Step(p, e).1).sends)
  {
    hide SI.Step, EnsureTarget, ToResponse, Settled, Undecided, Final, TallyOf;
    if SiSays(p, e).Some? {
      SiNew(p, e);
      TallyOne(Send(EnsureTarget(SiSays(p, e).value, q)));
    } else {
      SiOld(p, e);
      NoTally();
      TallyOne(CoreError);
      TallyOne(Unhandled);
      TallyOne(Crash);
      if p.data.last.Some? {
        TallyOne(Send(EnsureTarget(p.data.last.value, q)));
      }
    }
  }

  // From `p` on, a run says what is left to say.
  lemma {:induction false} SiRunSays(
    p: SI.Machine, q: Request, said: seq<Message>, sends: seq<Message>, events: seq<Event>)
    requires SiMemory(p, q, sends) && Stutters(said, sends)
    ensures Stutters(Sofar(said, sends, Answers(q, true, SiHandled(p, events))), sends + TallyOf(SiRun(p, events)).sends)
    decreases |events|
  {
    hide SI.Step, SiMemory, TallyOf, SiRun, SiEnd, Stutters, Undecided, Speaks, Answer, ThroughFinal;
    if events == [] || p.Stopped? {
      SiQuiet(p, events);
      assert Answers(q, true, []) == [];
      NothingToSay(said, sends);
    } else {
      var (e, rest) := (events[0], events[1..]);
      var r := SI.Step(p, e);
      SiMore(p, events);
      SiStepSays(p, q, sends, e);
      SiStepKeeps(p, q, sends, e);
      var more := TallyOf(r.1).sends;
      var es := SiHandled(r.0, rest);
      StepSays(said, sends, Answer(q, true, e), more, Answers(q, true, es));
      AnswersMore(q, true, e, es);
      hide Sofar, Answers;
      SiRunSays(r.0, q, Sofar(said, sends, Answer(q, true, e)), sends + more, rest);
      Associated(sends, more, TallyOf(SiRun(r.0, rest)).sends);
    }
  }

  lemma Associated(a: seq<Message>, b: seq<Message>, c: seq<Message>)
    ensures (a + b) + c == a + (b + c)
  {
  }

  lemma NothingToSay(said: seq<Message>, sends: seq<Message>)
    ensures Sofar(said, sends, []) == said && sends + [] == sends
  {
  }

  // At first everything is left to say.
  lemma FirstWords(answers: seq<Message>)
    ensures Sofar([], [], answers) == ThroughFinal(answers) && Stutters([], [])
  {
    assert [] + ThroughFinal(answers) == ThroughFinal(answers);
  }

  lemma SiQuiet(p: SI.Machine, events: seq<Event>)
    requires events == [] || p.Stopped?
    ensures SiHandled(p, events) == [] && TallyOf(SiRun(p, events)) == NO_EFFECT
  {
    SiUntouched(p);
    if p.Stopped? {
      SiConfirmed(p, events);
    }
  }

  // A copy of the INVITE, and while undecided anything under its key, is answered by
  // the last message sent, if there is one, and disturbs nothing, not even the timer.
  ghost predicate SiEchoes(p: SI.Machine, sends: seq<Message>) {
    p.Running? && !p.state.Confirmed? ==>
      forall copy: Request | p.state.Proceeding? || copy.start.verb.Invite? ::
        var (r, es) := SI.Step(p, IncomingRequest(copy)); r == p && TallyOf(es) == Tally(LastOf(sends), [], 0)
  }

  lemma SiEchoing(p: SI.Machine, q: Request, sends: seq<Message>)
    requires SiMemory(p, q, sends)
    ensures SiEchoes(p, sends)
  {
    hide EnsureTarget, Final, TallyOf;
    NoTally();
    if p.Running? && p.data.last.Some? {
      SaysAgain(sends, p.data.last, q);
      TallyOne(Send(EnsureTarget(p.data.last.value, q)));
    }
  }

  // Every run of the INVITE server, whatever the events: the core hears the
  // INVITE once and of one error at most; what is sent are the answers through
  // the first final one, each once or more, and nothing else; a copy of the INVITE
  // is answered by the last message sent; once confirmed, the server is silent.
  lemma InviteServerRun(q: Request, reliable: bool, timers: Timers, events: seq<Event>, more: seq<Event>)
    ensures var (p, first) := SI.Start(q, reliable, timers);
            var (es, end, t) := (SiHandled(p, events), SiEnd(p, events), TallyOf(first + SiRun(p, events)));
            && t.told == [q] && t.errors <= 1
            && Stutters(ThroughFinal(Answers(q, true, es)), t.sends) && Settled(t.sends) && SiEchoes(end, t.sends)
            && (end.Running? ==> (end.state.Proceeding? <==> Undecided(t.sends)))
            && (end.Running? && end.state.Confirmed? ==> SiSilence(end, more)) && (end.Running? ==> SiErrors(end))
  {
    var p, first := SI.Start(q, reliable, timers).0, SI.Start(q, reliable, timers).1;
    SiStart(q, reliable, timers);
    hide SI.Start, SI.Step, TallyOf, SiRun, SiEnd, SiHandled, SiEchoes, Settled, Undecided, Remembers, Stutters;
    hide Answers, ThroughFinal, Sofar;
    SiRunKeeps(p, q, [], events);
    TallyConcat(first, SiRun(p, events));
    var t := TallyOf(SiRun(p, events));
    assert [] + t.sends == t.sends;
    FirstWords(Answers(q, true, SiHandled(p, events)));
    SiRunSays(p, q, [], [], events);
    SiEchoing(SiEnd(p, events), q, t.sends);
    if SiEnd(p, events).Running? {
      SiFailing(SiEnd(p, events), q, t.sends);
    }
    if SiEnd(p, events).Running? && SiEnd(p, events).state.Confirmed? {
      SiConfirmed(SiEnd(p, events), more);
    }
  }

  // An error of the transport is reported until the ACK has come, and being told to
  // stop never is; after the decision only copies and ACKs are expected.
  ghost predicate SiErrors(p: SI.Machine)
    requires p.Running?
  {
    && SI.Step(p, TransportError) == (if p.state.Confirmed? then (p, []) else (Stopped, [CoreError]))
    && SI.Step(p, Terminate) == (Stopped, [])
    && (p.state.Completed? ==>
          forall other: Request | other.start.verb.OtherMethod? :: SI.Step(p, IncomingRequest(other)) == (Stopped, [CoreError]))
  }

  lemma SiFailing(p: SI.Machine, q: Request, sends: seq<Message>)
    requires p.Running? && SiMemory(p, q, sends)
    ensures SiErrors(p)
  {
    hide EnsureTarget;
    if p.state.Completed? {
      DecidedHasSpoken(sends);
    }
  }

  lemma DecidedHasSpoken(sends: seq<Message>)
    ensures !Undecided(sends) ==> sends != []
  {
  }

  lemma SiStart(q: Request, reliable: bool, timers: Timers)
    ensures var (p, first) := SI.Start(q, reliable, timers);
            && SiMemory(p, q, []) && TallyOf(first) == Tally([], [q], 0)
            && p.Running? && p.state.Proceeding? && SiInv(p, false)
  {
    TallyOne(ToCore(q));
    assert [] + [ToCore(q)] == [ToCore(q)];
  }

  function Tries(es: seq<Event>): nat {
    if es == [] then 0 else (if es[0] == Timeout(StillTrying) then 1 else 0) + Tries(es[1..])
  }

  lemma TriesStep(p: SI.Machine, e: Event, done: bool)
    requires p.Running? && SiInv(p, done) && ServerEvent(p.timer, e)
    ensures var r := SI.Step(p, e).0;
            && (if e == Timeout(StillTrying) then 1 else 0) + Ready(r) <= Ready(p)
            && (Waits(r) ==> Waits(p) && r.timer == if e == Timeout(StillTrying) then None else p.timer)
  {
    hide EnsureTarget, ToResponse;
  }

  predicate Waits(p: SI.Machine) {
    p.Running? && p.state.Proceeding?
  }

  // Whether the 100 may still be sent.
  function Ready(p: SI.Machine): nat {
    if p.Running? && p.state.Proceeding? && p.timer.Some? then 1 else 0
  }

  lemma {:induction false} TriesRun(p: SI.Machine, events: seq<Event>, done: bool)
    requires SiInv(p, done) && SiDriven(p, events)
    ensures Tries(SiHandled(p, events)) <= Ready(p)
    ensures Waits(SiEnd(p, events)) ==>
              Waits(p) && SiEnd(p, events).timer == if Tries(SiHandled(p, events)) == 0 then p.timer else None
    decreases |events|
  {
    hide SI.Step, SiInv, Decides, Waits;
    if p.Stopped? {
      SiStaysOver(p, events);
    }
    if events != [] && p.Running? {
      TriesStep(p, events[0], done);
      SiStep(p, events[0], done);
      var rest := SiHandled(SI.Step(p, events[0]).0, events[1..]);
      assert ([events[0]] + rest)[1..] == rest;
      TriesRun(SI.Step(p, events[0]).0, events[1..], done || Decides(events[0]));
    }
  }

  lemma SiStaysOver(p: SI.Machine, events: seq<Event>)
    requires p.Stopped?
    ensures !Waits(SiEnd(p, events))
  {
    SiConfirmed(p, events);
  }

  // The server answers 100 of its own accord at most once, and as long as it has not
  // decided or done so the wait for that, from the start on, is not touched.
  lemma TriesOnce(q: Request, reliable: bool, timers: Timers, events: seq<Event>)
    requires SiDriven(SI.Start(q, reliable, timers).0, events)
    ensures var p := SI.Start(q, reliable, timers).0;
            var (n, end) := (Tries(SiHandled(p, events)), SiEnd(p, events));
            && n <= 1
            && (end.Running? && end.state.Proceeding? ==>
                  end.timer == if n == 0 then Some(Wait(timers.beforeTrying, StillTrying)) else None)
  {
    SiStart(q, reliable, timers);
    assert SI.Start(q, reliable, timers).0.timer == Some(Wait(timers.beforeTrying, StillTrying));
    hide SI.Start, SiHandled, SiDriven, SiInv;
    TriesRun(SI.Start(q, reliable, timers).0, events, false);
  }

  /* ----- The non-INVITE server ----- */

  function SnEnd(p: SN.Machine, events: seq<Event>): SN.Machine
    decreases |events|
  {
    if events == [] then p else SnEnd(SN.Step(p, events[0]).0, events[1..])
  }

  predicate SnMemory(p: SN.Machine, q: Request, timers: Timers, sends: seq<Message>) {
    && Settled(sends)
    && (p.Running? ==>
          && p.data.request == q && p.data.timers == timers && Remembers(p.data.last, q, sends)
          && (p.state.Trying? <==> sends == [])
          && (p.state.Completed? <==> !Undecided(sends))
          && (p.state.Completed? ==> p.timer == Some(Wait(timers.j, Nothing))))
  }

  lemma SnNew(p: SN.Machine, x: Response)
    requires p.Running? && !p.state.Completed?
    ensures var (r, es) := SN.Step(p, OutgoingResponse(x));
            && es == [Send(EnsureTarget(x, p.data.request))]
            && (r.Running? ==> && r.data == p.data.(last := Some(EnsureTarget(x, p.data.request)))
                               && r.state == (if Final(x) then SN.Completed else SN.Proceeding)
                               && (Final(x) ==> r.timer == Some(Wait(p.data.timers.j, Nothing))))
  {
    hide EnsureTarget;
    assert [SN.Sent(p.data, x)] + [] == [SN.Sent(p.data, x)];
  }

  lemma SnOld(p: SN.Machine, e: Event)
    requires p.Running? && (e.OutgoingResponse? ==> p.state.Completed?)
    ensures var (r, es) := SN.Step(p, e);
            && (es == [] || es == [CoreError] || es == [Unhandled]
                || (p.data.last.Some? && es == [Send(EnsureTarget(p.data.last.value, p.data.request))]))
            && (es == [CoreError] ==> r.Stopped? && !p.state.Completed?)
            && (r.Running? ==> r.data == p.data && r.state == p.state && (r.state.Completed? ==> r.timer == p.timer))
  {
    hide EnsureTarget;
  }

  lemma SnStepKeeps(p: SN.Machine, q: Request, timers: Timers, sends: seq<Message>, e: Event)
    requires p.Running? && SnMemory(p, q, timers, sends)
    ensures var (r, es) := SN.Step(p, e);
            var t := TallyOf(es);
            && SnMemory(r, q, timers, sends + t.sends) && t.told == [] && t.errors <= 1
            && (t.errors == 1 ==> r.Stopped? && t.sends == [] && Undecided(sends))
  {
    hide SN.Step, EnsureTarget, Settled, Remembers, Undecided, Final, TallyOf;
    var es := SN.Step(p, e).1;
    if e.OutgoingResponse? && !p.state.Completed? {
      SnNew(p, e.answer);
      TallyOne(Send(EnsureTarget(e.answer, q)));
      SaysNew(sends, e.answer, q);
    } else {
      SnOld(p, e);
      NoTally();
      TallyOne(CoreError);
      TallyOne(Unhandled);
      assert sends + [] == sends;
      if es != [] && es[0].Send? {
        TallyOne(es[0]);
        SaysAgain(sends, p.data.last, q);
        NotEmpty(p.data.last, q, sends);
      }
    }
  }

  lemma NotEmpty(last: Option<Response>, q: Request, sends: seq<Message>)
    requires Remembers(last, q, sends) && last.Some?
    ensures sends != []
  {
  }

  lemma SnMore(p: SN.Machine, events: seq<Event>)
    requires events != []
    ensures var (r, rest) := (SN.Step(p, events[0]), events[1..]);
            && TallyOf(SnRun(p, events)) == Both(TallyOf(r.1), TallyOf(SnRun(r.0, rest)))
            && SnEnd(p, events) == SnEnd(r.0, rest)
  {
    hide SN.Step, TallyOf;
    var r := SN.Step(p, events[0]);
    TallyConcat(r.1, SnRun(r.0, events[1..]));
  }

  lemma SnUntouched(p: SN.Machine)
    ensures SnRun(p, []) == [] && SnEnd(p, []) == p && TallyOf([]) == NO_EFFECT
  {
  }

  lemma SnStays(p: SN.Machine, e: Event)
    requires p.Stopped?
    ensures SN.Step(p, e) == (p, [])
  {
  }

  lemma {:induction false} SnRunKeeps(
    p: SN.Machine, q: Request, timers: Timers, sends: seq<Message>, events: seq<Event>)
    requires SnMemory(p, q, timers, sends)
    ensures var t := TallyOf(SnRun(p, events));
            && SnMemory(SnEnd(p, events), q, timers, sends + t.sends) && t.told == [] && t.errors <= 1
            && (t.errors == 1 ==> Undecided(sends + t.sends))
            && (p.Stopped? ==> t == NO_EFFECT)
    decreases |events|
  {
    hide SN.Step, SnMemory, TallyOf, SnRun, SnEnd, Undecided;
    if events == [] {
      SnUntouched(p);
      assert sends + [] == sends;
    } else {
      var r := SN.Step(p, events[0]);
      var t := TallyOf(r.1);
      SnMore(p, events);
      SnOneKeeps(p, q, timers, sends, events[0]);
      SnRunKeeps(r.0, q, timers, sends + t.sends, events[1..]);
      var u := TallyOf(SnRun(r.0, events[1..]));
      Associated(sends, t.sends, u.sends);
      if t.errors == 1 {
        assert sends + (t.sends + u.sends) == sends;
      }
    }
  }

  lemma SnOneKeeps(p: SN.Machine, q: Request, timers: Timers, sends: seq<Message>, e: Event)
    requires SnMemory(p, q, timers, sends)
    ensures var (r, es) := SN.Step(p, e);
            var t := TallyOf(es);
            && SnMemory(r, q, timers, sends + t.sends) && t.told == [] && t.errors <= 1
            && (t.errors == 1 ==> r.Stopped? && t.sends == [] && Undecided(sends))
            && (p.Stopped? ==> r.Stopped? && t == NO_EFFECT)
  {
    hide SN.Step, SnMemory, TallyOf, Undecided;
    if p.Running? {
      SnStepKeeps(p, q, timers, sends, e);
    } else {
      SnStays(p, e);
      NoTally();
      assert sends + [] == sends;
    }
  }

  function SnHandled(p: SN.Machine, events: seq<Event>): seq<Event>
    decreases |events|
  {
    if events == [] || p.Stopped? then [] else [events[0]] + SnHandled(SN.Step(p, events[0]).0, events[1..])
  }

  lemma SnStepSays(p: SN.Machine, q: Request, timers: Timers, sends: seq<Message>, e: Event)
    requires p.Running? && SnMemory(p, q, timers, sends)
    ensures Speaks(sends, Answer(q, false, e), TallyOf(SN.Step(p, e).1).sends)
  {
    hide SN.Step, EnsureTarget, ToResponse, Settled, Undecided, Final, TallyOf;
    if e.OutgoingResponse? && !p.state.Completed? {
      SnNew(p, e.answer);
      TallyOne(Send(EnsureTarget(e.answer, q)));
    } else {
      SnOld(p, e);
      NoTally();
      TallyOne(CoreError);
      TallyOne(Unhandled);
      if p.data.last.Some? {
        TallyOne(Send(EnsureTarget(p.data.last.value, q)));
      }
    }
  }

  lemma {:induction false} SnRunSays(
    p: SN.Machine, q: Request, timers: Timers, said: seq<Message>, sends: seq<Message>, events: seq<Event>)
    requires SnMemory(p, q, timers, sends) && Stutters(said, sends)
    ensures Stutters(Sofar(said, sends, Answers(q, false, SnHandled(p, events))), sends + TallyOf(SnRun(p, events)).sends)
    decreases |events|
  {
    hide SN.Step, SnMemory, TallyOf, SnRun, SnEnd, Stutters, Undecided, Speaks, Answer, ThroughFinal;
    if events == [] || p.Stopped? {
      SnQuiet(p, q, timers, events);
      assert Answers(q, false, []) == [];
      NothingToSay(said, sends);
    } else {
      var (e, rest) := (events[0], events[1..]);
      var r := SN.Step(p, e);
      SnMore(p, events);
      SnStepSays(p, q, timers, sends, e);
      SnStepKeeps(p, q, timers, sends, e);
      var more := TallyOf(r.1).sends;
      var es := SnHandled(r.0, rest);
      StepSays(said, sends, Answer(q, false, e), more, Answers(q, false, es));
      AnswersMore(q, false, e, es);
      hide Sofar, Answers;
      SnRunSays(r.0, q, timers, Sofar(said, sends, Answer(q, false, e)), sends + more, rest);
      Associated(sends, more, TallyOf(SnRun(r.0, rest)).sends);
    }
  }

  lemma SnQuiet(p: SN.Machine, q: Request, timers: Timers, events: seq<Event>)
    requires events == [] || p.Stopped?
    ensures SnHandled(p, events) == [] && TallyOf(SnRun(p, events)) == NO_EFFECT
  {
    SnUntouched(p);
    if p.Stopped? {
      SnRunKeeps(p, q, timers, [], events);
    }
  }

  // Any copy of the request is answered by the last message sent, if there is
  // one, and disturbs nothing.
  ghost predicate SnEchoes(p: SN.Machine, sends: seq<Message>) {
    p.Running? ==>
      forall copy: Request ::
        var (r, es) := SN.Step(p, IncomingRequest(copy)); r == p && TallyOf(es) == Tally(LastOf(sends), [], 0)
  }

  lemma SnEchoing(p: SN.Machine, q: Request, timers: Timers, sends: seq<Message>)
    requires SnMemory(p, q, timers, sends)
    ensures SnEchoes(p, sends)
  {
    hide EnsureTarget, Final, TallyOf;
    NoTally();
    if p.Running? && p.data.last.Some? {
      SaysAgain(sends, p.data.last, q);
      TallyOne(Send(EnsureTarget(p.data.last.value, q)));
    }
  }

  ghost predicate SnErrors(p: SN.Machine)
    requires p.Running?
  {
    && SN.Step(p, TransportError) == (if p.state.Completed? then (p, []) else (Stopped, [CoreError]))
    && SN.Step(p, Terminate) == (Stopped, [])
  }

  lemma SnFailing(p: SN.Machine)
    requires p.Running?
    ensures SnErrors(p)
  {
  }

  lemma SnStart(q: Request, reliable: bool, timers: Timers)
    ensures var (p, first) := SN.Start(q, reliable, timers);
            SnMemory(p, q, timers, []) && TallyOf(first) == Tally([], [q], 0)
  {
    TallyOne(ToCore(q));
    assert [] + [ToCore(q)] == [ToCore(q)];
  }

  // Every run of the non-INVITE server, whatever the events: the core hears the
  // request once, and of one error at most, which is never after a final
  // response; what is sent are the answers through the first final one, each once
  // or more, and nothing else; a copy is answered by the last message sent;
  // nothing prolongs the wait for timer J.
  lemma NonInviteServerRun(q: Request, reliable: bool, timers: Timers, events: seq<Event>)
    ensures var (p, first) := SN.Start(q, reliable, timers);
            var (es, end, t) := (SnHandled(p, events), SnEnd(p, events), TallyOf(first + SnRun(p, events)));
            && t.told == [q] && t.errors <= 1 && (t.errors == 1 ==> Undecided(t.sends))
            && Stutters(ThroughFinal(Answers(q, false, es)), t.sends) && Settled(t.sends) && SnEchoes(end, t.sends)
            && (end.Running? ==> (end.state.Completed? <==> !Undecided(t.sends)))
            && (end.Running? && end.state.Completed? ==> end.timer == Some(Wait(timers.j, Nothing)))
            && (end.Running? ==> SnErrors(end))
  {
    var p, first := SN.Start(q, reliable, timers).0, SN.Start(q, reliable, timers).1;
    SnStart(q, reliable, timers);
    hide SN.Start, SN.Step, TallyOf, SnRun, SnEnd, SnHandled, SnEchoes, Settled, Undecided, Remembers, Stutters;
    hide Answers, ThroughFinal, Sofar;
    SnRunKeeps(p, q, timers, [], events);
    TallyConcat(first, SnRun(p, events));
    var t := TallyOf(SnRun(p, events));
    assert [] + t.sends == t.sends;
    FirstWords(Answers(q, false, SnHandled(p, events)));
    SnRunSays(p, q, timers, [], [], events);
    SnEchoing(SnEnd(p, events), q, timers, t.sends);
    if SnEnd(p, events).Running? {
      SnFailing(SnEnd(p, events));
    }
  }
}
