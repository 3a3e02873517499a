/**
 SIP messages as the transaction layer handles them: transaction keys, the Via
 rewriting of the router, responses and ACKs built from a request.
 lib/sippet/message.ex, lib/sippet/router.ex, lib/sippet/transactions.
 */
module Messages {
  import opened Wrappers
  import opened Numbers

  datatype Method = Invite | Ack | OtherMethod(name: string)

  type StatusCode = c: int | 100 <= c <= 699 witness 100

  datatype StartLine = RequestLine(verb: Method, uri: string) | StatusLine(code: StatusCode)

  datatype Via = Via(version: (int, int), protocol: string, host: string, port: int, params: map<string, string>)

  datatype Address = Address(display: string, uri: string, params: map<string, string>)

  datatype CSeq = CSeq(sequence: nat, verb: Method)

  // A port as the code finds it: from the Via itself, or the text of `rport`.
  datatype PortSpec = Declared(port: int) | Rport(text: string)

  datatype Target = Target(transport: string, host: string, port: PortSpec)

  datatype Message = Message(
    start: StartLine,
    via: seq<Via>,
    from: Address,
    to: Address,
    callId: string,
    cseq: CSeq,
    maxForwards: Option<int>,
    route: Option<seq<string>>,
    recordRoute: Option<seq<string>>,
    body: string,
    target: Option<Target>,
    source: Option<string>,
    sourcePeer: Option<(string, int)>)
  {
    predicate IsRequest() {
      start.RequestLine?
    }

    // The hundreds digit of the status code.
    function Class(): (c: int)
      requires start.StatusLine?
      ensures 1 <= c <= 6
    {
      start.code / 100
    }
  }

  const NOBODY := Address("", "", map[])

  type Request = m: Message | m.IsRequest()
    witness Message(RequestLine(Ack, ""), [], NOBODY, NOBODY, "", CSeq(0, Ack), None, None, None, "", None, None, None)

  type Response = m: Message | !m.IsRequest()
    witness Message(StatusLine(100), [], NOBODY, NOBODY, "", CSeq(0, Ack), None, None, None, "", None, None, None)

  /* ----- Transaction keys ----- */

  datatype ClientKey = ClientKey(branch: string, verb: Method)

  datatype ServerKey = ServerKey(branch: string, verb: Method, host: string, port: int)

  // The branch of the topmost Via; without it building a key raises.
  function Branch(m: Message): Option<string> {
    if m.via != [] && "branch" in m.via[0].params then Some(m.via[0].params["branch"]) else None
  }

  // The method a key is made for: the request's own, or the one a response's CSeq names.
  function KeyMethod(m: Message): Method {
    if m.IsRequest() then m.start.verb else m.cseq.verb
  }

  function ClientKeyOf(m: Message): Option<ClientKey> {
    match Branch(m) case Some(b) => Some(ClientKey(b, KeyMethod(m))) case None => None
  }

  function ServerKeyOf(m: Message): Option<ServerKey> {
    match Branch(m)
    case Some(b) => Some(ServerKey(b, KeyMethod(m), m.via[0].host, m.via[0].port))
    case None => None
  }

  /* ----- Receiving ----- */

  // Where a message came from: the transport, the address as text, the port.
  datatype Source = Source(transport: string, host: string, port: nat)

  function Annotated(v: Via, from: Source): Via {
    var p1 := if from.host != v.host then v.params["received" := from.host] else v.params;
    var p2 := if from.port != v.port then p1["rport" := Decimal(from.port)] else p1;
    v.(params := p2)
  }

  // `update_via`: WebSocket requests and responses are left alone.
  function UpdateVia(m: Message, from: Source): Message {
    if m.IsRequest() && from.transport != "wss" && from.transport != "ws" && m.via != [] then
      m.(via := [Annotated(m.via[0], from)] + m.via[1..])
    else m
  }

  // What travels: routing hints stay behind.
  function OnWire(m: Message): Message {
    m.(target := None, source := None, sourcePeer := None)
  }

  // A message as it reaches the transaction layer.
  function Received(m: Message, from: Source, transport: string): Message {
    UpdateVia(m, from).(source := Some(transport), sourcePeer := Some((from.host, from.port)))
  }

  // Of `Message.validate`, the check that transactions rest on.
  predicate MatchingCSeq(m: Message) {
    m.IsRequest() ==> m.cseq.verb == m.start.verb
  }

  /* ----- Building responses and ACKs ----- */

  // `to_response`, with the random tag as a parameter.
  function ToResponse(q: Request, code: StatusCode, tag: string): Response {
    var to := if code > 100 && "tag" !in q.to.params then q.to.(params := q.to.params["tag" := tag]) else q.to;
    Message(StatusLine(code), q.via, q.from, to, q.callId, q.cseq, None, None, q.recordRoute, "", None, None, None)
  }

  // `build_ack`: the request again, with the tag of the response it answers.
  function BuildAck(q: Request, last: Response): Request {
    var to := if "tag" in last.to.params then q.to.(params := q.to.params["tag" := last.to.params["tag"]]) else q.to;
    Message(RequestLine(Ack, q.start.uri), q.via, q.from, to, q.callId, CSeq(q.cseq.sequence, Ack),
            Some(70), q.route, None, "", None, None, None)
  }

  // `ensure_response_target`: back through the transport the request came on.
  function EnsureTarget(r: Response, q: Request): Response {
    if r.target == None && q.source.Some? then
      var s := r.(sourcePeer := q.sourcePeer);
      if r.via == [] then s
      else
        var v := r.via[0];
        var host := if "received" in v.params then v.params["received"] else v.host;
        var port := if "rport" in v.params && v.params["rport"] != "" then Rport(v.params["rport"]) else Declared(v.port);
        s.(target := Some(Target(q.source.value, host, port)))
    else r
  }

  /* ----- Keys survive ----- */

  // Rewriting the Via changes neither key.
  lemma KeysSurviveReceipt(m: Message, from: Source, transport: string)
    ensures ServerKeyOf(Received(m, from, transport)) == ServerKeyOf(m)
    ensures ClientKeyOf(Received(m, from, transport)) == ClientKeyOf(m)
    ensures Received(m, from, transport).start == m.start && Received(m, from, transport).cseq == m.cseq
  {
  }

  lemma KeysSurviveTheWire(m: Message)
    ensures ServerKeyOf(OnWire(m)) == ServerKeyOf(m) && ClientKeyOf(OnWire(m)) == ClientKeyOf(m)
    ensures OnWire(OnWire(m)) == OnWire(m) && OnWire(m).start == m.start
  {
  }

  // A response leads back to the transactions of the request it answers, on
  // both sides, wherever the request was received from; To gets a tag of the
  // answering side's, unless it has one or the response is 100.
  lemma ResponseFindsBothTransactions(q: Request, from: Source, transport: string, code: StatusCode, tag: string)
    requires MatchingCSeq(q)
    ensures var r := ToResponse(Received(q, from, transport), code, tag);
            && ServerKeyOf(r) == ServerKeyOf(Received(q, from, transport)) == ServerKeyOf(q)
            && ClientKeyOf(r) == ClientKeyOf(q)
            && r.Class() == code / 100 && r.body == "" && r.recordRoute == q.recordRoute
            && r.via == Received(q, from, transport).via && r.from == q.from && r.callId == q.callId
            && r.to.(params := map[]) == q.to.(params := map[]) && r.to.params - {"tag"} == q.to.params - {"tag"}
            && ("tag" in q.to.params ==> "tag" in r.to.params && r.to.params["tag"] == q.to.params["tag"])
            && ("tag" !in q.to.params ==> if code == 100 then "tag" !in r.to.params
                                          else "tag" in r.to.params && r.to.params["tag"] == tag)
  {
    KeysSurviveReceipt(q, from, transport);
  }

  // The ACK of a request reaches the alias of its server transaction: the same
  // key but for the method. It matches no client transaction of the INVITE.
  lemma AckFindsAlias(q: Request, last: Response)
    requires ServerKeyOf(q).Some?
    ensures ServerKeyOf(BuildAck(q, last)) == Some(ServerKeyOf(q).value.(verb := Ack))
    ensures MatchingCSeq(BuildAck(q, last)) && BuildAck(q, last).cseq.sequence == q.cseq.sequence
    ensures var ack := BuildAck(q, last);
            && ack.start.uri == q.start.uri && ack.from == q.from && ack.callId == q.callId && ack.route == q.route
            && ack.via == q.via && ack.maxForwards == Some(70) && ack.body == "" && ack.recordRoute.None? && ack.target.None?
    ensures "tag" in last.to.params ==>
              "tag" in BuildAck(q, last).to.params && BuildAck(q, last).to.params["tag"] == last.to.params["tag"]
  {
  }

  // A message of the same dialog attempt: who calls whom, and its number. The
  // tag of To is the answering side's.
  predicate SameDialog(m: Message, n: Message) {
    && m.from == n.from && m.to == n.to && m.callId == n.callId && m.cseq.sequence == n.cseq.sequence
  }

  // The ACK for a refusal names the dialog the refusal names, though it is built
  // from the client's request and the refusal from what the server received, with
  // a tag in To from the first or a new one.
  lemma AckMatchesRefusal(q: Request, from: Source, transport: string, code: StatusCode, tag: string)
    requires code > 100
    ensures var r := OnWire(ToResponse(Received(OnWire(q), from, transport), code, tag));
            var ack := BuildAck(q, r);
            SameDialog(ack, r) && "tag" in ack.to.params && ("tag" !in q.to.params ==> ack.to.params["tag"] == tag)
  {
    var r := ToResponse(Received(OnWire(q), from, transport), code, tag);
    assert BuildAck(q, r).to.params == r.to.params;
  }

  predicate Final(m: Message) {
    m.start.StatusLine? && m.start.code >= 200
  }

  // A final response that is no success.
  predicate Refusal(m: Message) {
    m.start.StatusLine? && m.start.code >= 300
  }

  // Routing hints do not change what a message is.
  lemma StartsStay(r: Response, q: Request)
    ensures EnsureTarget(r, q).start == r.start == OnWire(r).start && OnWire(OnWire(r)) == OnWire(r)
  {
  }

  // Receipt changes nothing that travels but the Via.
  lemma ReceivedBody(q: Request, from: Source, transport: string)
    ensures var got := OnWire(Received(OnWire(q), from, transport)); got == OnWire(q).(via := got.via)
  {
  }

  // A response sent again goes where it went the first time.
  lemma TargetIsSettled(r: Response, q: Request)
    ensures EnsureTarget(EnsureTarget(r, q), q) == EnsureTarget(r, q)
    ensures OnWire(EnsureTarget(r, q)) == OnWire(r)
    ensures ServerKeyOf(EnsureTarget(r, q)) == ServerKeyOf(r) && ClientKeyOf(EnsureTarget(r, q)) == ClientKeyOf(r)
  {
  }

  // Over WebSocket the Via stays as the client wrote it; otherwise the router
  // notes where the request came from when the Via says something else.
  predicate Annotates(from: Source) {
    from.transport != "ws" && from.transport != "wss"
  }

  // The hints of a request agree with where it really came from: the address and
  // the port are noted because the Via says otherwise, or the hint the sender put
  // itself, failing that the Via, is right.
  predicate HonestVia(v: Via, from: Source) {
    && ((Annotates(from) && from.host != v.host)
        || (if "received" in v.params then v.params["received"] else v.host) == from.host)
    && ((Annotates(from) && from.port != v.port)
        || (if "rport" in v.params && v.params["rport"] != "" then v.params["rport"] == Decimal(from.port)
            else v.port == from.port))
  }

  predicate Reaches(t: Target, transport: string, from: Source) {
    t.transport == transport && t.host == from.host
    && match t.port case Declared(p) => p == from.port case Rport(text) => text == Decimal(from.port)
  }

  // A response goes back to the very address and port the request came from
  // exactly when the request's own hints do not say otherwise; it knows the peer of
  // the connection in any case.
  lemma ResponseGoesBack(q: Request, from: Source, transport: string, code: StatusCode, tag: string)
    requires q.via != []
    ensures var p := Received(q, from, transport);
            var r := EnsureTarget(ToResponse(p, code, tag), p);
            && r.target.Some? && (Reaches(r.target.value, transport, from) <==> HonestVia(q.via[0], from))
            && r.sourcePeer == Some((from.host, from.port))
  {
    DecimalIsRead(from.port);
  }
}
