/**
 * The transaction-correlation state of a STUN socket as a value, and one function
 * per operation that takes the state before the operation to the state after it.
 * The class in module Sockets keeps this state in fields and is specified by
 * these functions; the lemmas of module Properties are stated over them.
 */
module Transactions {
  import opened Wrappers
  import opened Wire
  import opened Packets

  /** The error a transport send callback reports. */
  datatype SendError = SendError(reason: string)

  /** The errors the socket throws synchronously. */
  datatype SocketError =
    | InvalidSocketParams
    | UndefinedCallbackHandlers
    | MessageTooShort(length: nat)
    | UnhandledMessageType
    | NoResponseHandler(tid: Uint32)

  /**
   * The state of a deferred result handed back to a caller. It is settled at most
   * once: resolving or rejecting a settled completion leaves it as it was.
   */
  datatype Completion<T> = Pending | Resolved(value: T) | Rejected(error: SendError)

  function Resolve<T>(c: Completion<T>, v: T): (r: Completion<T>) {
    if c.Pending? then Resolved(v) else c
  }

  function Reject<T>(c: Completion<T>, e: SendError): (r: Completion<T>) {
    if c.Pending? then Rejected(e) else c
  }

  /** One request sent so far: the key it was filed under and its completion. */
  datatype OutboundRequest = OutboundRequest(tid: Uint32, completion: Completion<Packet>)

  /** A call the socket makes on its datagram transport. */
  datatype TransportCall = Bind | Send(message: seq<Byte>, port: int, host: string)

  /** What the socket is constructed with: the server endpoint and the packet codec. */
  datatype Params = Params(host: string, port: int, decode: seq<Byte> -> Option<Packet>)

  /**
   * pending: the response-callback table, from transaction key to the index in
   * requests of the request whose completion the callback settles;
   * requests: the completion of every request sent, in order;
   * events: the notifications emitted; transport: the transport calls made.
   */
  datatype SocketState = SocketState(
    pending: map<Uint32, nat>,
    requests: seq<OutboundRequest>,
    events: seq<Event>,
    transport: seq<TransportCall>)

  /** The value an operation returns or throws, and the state it leaves. */
  datatype Step<T> = Step(out: T, next: SocketState)

  /** Every table entry designates a request filed under that same key. */
  predicate Valid(s: SocketState) {
    forall t :: t in s.pending ==> s.pending[t] < |s.requests| && s.requests[s.pending[t]].tid == t
  }

  /** The state of a newly constructed socket. */
  function Fresh(): (s: SocketState)
    ensures Valid(s) && s.pending == map[] && s.requests == [] && s.events == [] && s.transport == []
  {
    SocketState(map[], [], [], [])
  }

  /** Listening binds the transport, after checking that both callbacks are given. */
  function Listen(s: SocketState, onSuccessDefined: bool, onFailureDefined: bool): (r: Step<Result<(), SocketError>>)
    ensures r.out.Failure? <==> !onSuccessDefined || !onFailureDefined
    ensures r.out.Failure? ==> r.out.error == UndefinedCallbackHandlers && r.next == s
    ensures r.out.Success? ==> r.next == s.(transport := s.transport + [Bind])
  {
    if !onSuccessDefined || !onFailureDefined then Step(Failure(UndefinedCallbackHandlers), s)
    else Step(Success(()), s.(transport := s.transport + [Bind]))
  }

  /**
   * Sending a request files a new completion under the message's key, replacing
   * any entry for that key, and hands the message to the transport; a send error
   * rejects the new completion and leaves its entry in the table. The value
   * returned is the index of the new request.
   */
  function SendRequest(p: Params, s: SocketState, message: seq<Byte>, sendError: Option<SendError>)
    : (r: Step<Result<nat, SocketError>>)
    ensures r.out.Failure? <==> |message| < HeaderLength
    ensures r.out.Failure? ==> r.out.error == MessageTooShort(|message|) && r.next == s
    ensures r.out.Success? ==>
      var tid := DecodeUint32BE(message[KeyOffset..HeaderLength]);
      && r.out.value == |s.requests|
      && r.next.pending == s.pending[tid := |s.requests|]
      && |r.next.requests| == |s.requests| + 1
      && r.next.requests[..|s.requests|] == s.requests
      && r.next.requests[|s.requests|].tid == tid
      && r.next.requests[|s.requests|]
         == OutboundRequest(tid, if sendError.Some? then Rejected(sendError.value) else Pending)
      && r.next.events == s.events
      && r.next.transport == s.transport + [Send(message, p.port, p.host)]
    ensures Valid(s) ==> Valid(r.next)
  {
    match TransactionKey(message)
    case None => Step(Failure(MessageTooShort(|message|)), s)
    case Some(tid) =>
      var h := |s.requests|;
      var c := if sendError.Some? then Reject(Pending, sendError.value) else Pending;
      Step(Success(h), SocketState(
        s.pending[tid := h],
        s.requests + [OutboundRequest(tid, c)],
        s.events,
        s.transport + [Send(message, p.port, p.host)]))
  }

  /**
   * Sending an indication hands the message to the transport and touches nothing
   * else; its completion resolves exactly when the send reports no error.
   */
  function SendIndication(p: Params, s: SocketState, message: seq<Byte>, sendError: Option<SendError>)
    : (r: Step<Completion<()>>)
    ensures r.out.Resolved? <==> sendError.None?
    ensures r.out.Rejected? <==> sendError.Some?
    ensures r.out.Rejected? ==> r.out.error == sendError.value
    ensures r.next.pending == s.pending && r.next.requests == s.requests && r.next.events == s.events
    ensures r.next.transport == s.transport + [Send(message, p.port, p.host)]
  {
    var c := if sendError.Some? then Reject(Pending, sendError.value) else Resolve(Pending, ());
    Step(c, s.(transport := s.transport + [Send(message, p.port, p.host)]))
  }

  /**
   * A response settles the request filed under its key and removes that one entry;
   * a response with no entry is an error and changes nothing.
   */
  function IncomingResponse(s: SocketState, packet: Packet): (r: Step<Result<(), SocketError>>)
    requires Valid(s)
    ensures Valid(r.next)
    ensures r.out.Success? <==> packet.tid in s.pending
    ensures r.out.Failure? ==> r.out.error == NoResponseHandler(packet.tid) && r.next == s
    ensures r.out.Success? ==>
      var h := s.pending[packet.tid];
      && r.next.pending == s.pending - {packet.tid}
      && |r.next.requests| == |s.requests|
      && r.next.requests[h].tid == packet.tid
      && (s.requests[h].completion.Pending? ==> r.next.requests[h].completion == Resolved(packet))
      && (!s.requests[h].completion.Pending? ==> r.next.requests[h] == s.requests[h])
      && (forall i :: 0 <= i < |s.requests| && i != h ==> r.next.requests[i] == s.requests[i])
    ensures r.next.events == s.events && r.next.transport == s.transport
  {
    if packet.tid in s.pending then
      var h := s.pending[packet.tid];
      var req := s.requests[h];
      Step(Success(()), s.(
        pending := s.pending - {packet.tid},
        requests := s.requests[h := req.(completion := Resolve(req.completion, packet))]))
    else
      Step(Failure(NoResponseHandler(packet.tid)), s)
  }

  /**
   * An inbound datagram: undecodable bytes become a message event, an indication an
   * indication event, a response goes to the table, and any other class is an error.
   */
  function Incoming(p: Params, s: SocketState, msg: seq<Byte>, rinfo: RemoteInfo): (r: Step<Result<(), SocketError>>)
    requires Valid(s)
    ensures Valid(r.next)
    ensures r.next.transport == s.transport
    ensures r.out.Failure? ==> r.next == s
    ensures p.decode(msg).None? ==>
      r.out.Success? && r.next == s.(events := s.events + [MessageEvent(msg, rinfo)])
    ensures p.decode(msg).Some? && p.decode(msg).value.kind == Indication ==>
      r.out.Success? && r.next == s.(events := s.events + [IndicationEvent(p.decode(msg).value, rinfo)])
    ensures p.decode(msg).Some? && p.decode(msg).value.kind == Request ==>
      r.out == Failure(UnhandledMessageType)
    ensures p.decode(msg).Some? && IsResponse(p.decode(msg).value.kind) ==>
      r == IncomingResponse(s, p.decode(msg).value)
  {
    match p.decode(msg)
    case None => Step(Success(()), s.(events := s.events + [MessageEvent(msg, rinfo)]))
    case Some(packet) =>
      match packet.kind
      case SuccessResponse => IncomingResponse(s, packet)
      case ErrorResponse => IncomingResponse(s, packet)
      case Indication => Step(Success(()), s.(events := s.events + [IndicationEvent(packet, rinfo)]))
      case Request => Step(Failure(UnhandledMessageType), s)
  }

  /** One call on the socket, or one datagram arriving at it. */
  datatype Input =
    | ListenCall(onSuccessDefined: bool, onFailureDefined: bool)
    | RequestCall(message: seq<Byte>, sendError: Option<SendError>)
    | IndicationCall(message: seq<Byte>, sendError: Option<SendError>)
    | Arrival(msg: seq<Byte>, rinfo: RemoteInfo)

  function Apply(p: Params, s: SocketState, input: Input): (r: SocketState)
    requires Valid(s)
    ensures Valid(r)
  {
    match input
    case ListenCall(a, b) => Listen(s, a, b).next
    case RequestCall(m, e) => SendRequest(p, s, m, e).next
    case IndicationCall(m, e) => SendIndication(p, s, m, e).next
    case Arrival(m, i) => Incoming(p, s, m, i).next
  }

  /** The state after the inputs, one at a time; an input that throws changes nothing. */
  function Run(p: Params, s: SocketState, inputs: seq<Input>): (r: SocketState)
    requires Valid(s)
    ensures Valid(r)
    ensures |r.requests| >= |s.requests|
    decreases |inputs|
  {
    if inputs == [] then s else Run(p, Apply(p, s, inputs[0]), inputs[1..])
  }
}
