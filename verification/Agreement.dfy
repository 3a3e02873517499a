/**
 What the two agreement models share: what a step puts on the wire and tells a
 core, and what the two sides may agree on.
 */
module Agreement {
  import opened Messages
  import opened Transactions

  /* ----- Effects ----- */

  function Wires(es: seq<Effect>): seq<Message> {
    if es == [] then [] else (if es[0].Send? then [OnWire(es[0].message)] else []) + Wires(es[1..])
  }

  function Told(es: seq<Effect>): seq<Message> {
    if es == [] then [] else (if es[0].ToCore? then [OnWire(es[0].told)] else []) + Told(es[1..])
  }

  lemma FewEffects(e: Effect, f: Effect)
    ensures Wires([]) == [] && Told([]) == []
    ensures Wires([e]) == (if e.Send? then [OnWire(e.message)] else [])
    ensures Told([e]) == (if e.ToCore? then [OnWire(e.told)] else [])
    ensures Wires([e, f]) == Wires([e]) + Wires([f])
    ensures Told([e, f]) == Told([e]) + Told([f])
  {
    assert [e][1..] == [];
    assert [e, f][1..] == [f];
  }

  lemma BareOnWire(m: Message)
    ensures OnWire(OnWire(m)) == OnWire(m) && OnWire(m).start == m.start
  {
  }

  /* ----- Agreement ----- */

  function Last(ms: seq<Message>): Message
    requires ms != []
  {
    ms[|ms| - 1]
  }

  function Range(ms: seq<Message>): set<Message> {
    set m | m in ms
  }

  lemma RangeOfBoth(ms: seq<Message>, ns: seq<Message>)
    ensures Range(ms + ns) == Range(ms) + Range(ns)
    ensures Range([]) == {}
    ensures forall m :: Range([m]) == {m}
  {
  }

  // A core hears of the request at most once, as it was sent but for the Via.
  predicate HeardOnce(q: Request, core: seq<Message>) {
    && |core| <= 1
    && forall m | m in core :: m == OnWire(q).(via := m.via)
  }

  // All final responses ever put on the wire are one and the same.
  predicate OneDecision(wire: set<Message>) {
    forall m, n | m in wire && n in wire && Final(m) && Final(n) :: m == n
  }

  // A core is told at most one final response, and nothing that was not sent.
  predicate ToldOnce(core: seq<Message>, wire: set<Message>) {
    && (forall i, j | 0 <= i < j < |core| :: !(Final(core[i]) && Final(core[j])))
    && (forall m | m in core :: m in wire)
  }

  function FinalsOf(wire: set<Message>): set<Message> {
    set m | m in wire && Final(m)
  }

  // One more message makes at most one more final response.
  lemma OneMoreFinal(wire: set<Message>, more: set<Message>, m: Message)
    requires more <= {m}
    ensures |FinalsOf(wire + more)| <= |FinalsOf(wire)| + 1
    ensures !Final(m) || m in wire ==> FinalsOf(wire + more) == FinalsOf(wire)
  {
    hide Final;
    assert FinalsOf(wire + more) <= FinalsOf(wire) + {m};
    if Final(m) && m !in wire && m in more {
      assert FinalsOf(wire + more) == FinalsOf(wire) + {m};
    } else {
      assert FinalsOf(wire + more) == FinalsOf(wire);
    }
  }

  lemma Disagree(yes: Response, no: Response, wire: set<Message>)
    requires yes.start.code == 200 && no.start.code == 486 && OnWire(yes) in wire && OnWire(no) in wire
    ensures !OneDecision(wire)
  {
    assert Final(OnWire(yes)) && Final(OnWire(no)) && OnWire(yes) != OnWire(no);
  }
}
