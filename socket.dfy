/**
 * The STUN client socket: a response-callback table it updates in place, the
 * completions of the requests it has sent, the events it has emitted and the
 * calls it has made on its datagram transport. Each method is specified by the
 * matching function of module Transactions.
 */
module Sockets {
  import opened Wrappers
  import opened Wire
  import opened Packets
  import opened Transactions

  class StunSocket {
    const stunHost: string
    const stunPort: int
    /** The packet codec's decode function. */
    const decode: seq<Byte> -> Option<Packet>

    /** From transaction key to the index in requests of the request to settle. */
    var responseCallbacks: map<Uint32, nat>
    var requests: seq<OutboundRequest>
    var events: seq<Event>
    var transport: seq<TransportCall>

    function Settings(): Params
      reads this
    {
      Params(stunHost, stunPort, decode)
    }

    function Model(): SocketState
      reads this
    {
      SocketState(responseCallbacks, requests, events, transport)
    }

    ghost predicate Valid()
      reads this
    {
      Transactions.Valid(Model())
    }

    /** A socket for the given server, with an empty table. */
    constructor (host: string, port: int, decode: seq<Byte> -> Option<Packet>)
      ensures Valid() && Model() == Fresh()
      ensures stunHost == host && stunPort == port && this.decode == decode
    {
      stunHost, stunPort, this.decode := host, port, decode;
      responseCallbacks, requests, events, transport := map[], [], [], [];
    }

    /** Binds the transport once both callbacks are given; throws before binding otherwise. */
    method Listen(onSuccessDefined: bool, onFailureDefined: bool) returns (r: Result<(), SocketError>)
      requires Valid()
      modifies this
      ensures Valid()
      ensures r == Transactions.Listen(old(Model()), onSuccessDefined, onFailureDefined).out
      ensures Model() == Transactions.Listen(old(Model()), onSuccessDefined, onFailureDefined).next
    {
      if !onSuccessDefined || !onFailureDefined {
        return Failure(UndefinedCallbackHandlers);
      }
      transport := transport + [Bind];
      r := Success(());
    }

    /**
     * Files the request's completion under the key at bytes 16..19 and sends it;
     * returns the index of the request, whose completion is requests[index].
     */
    method SendStunRequest(message: seq<Byte>, sendError: Option<SendError>) returns (r: Result<nat, SocketError>)
      requires Valid()
      modifies this
      ensures Valid()
      ensures r == SendRequest(Settings(), old(Model()), message, sendError).out
      ensures Model() == SendRequest(Settings(), old(Model()), message, sendError).next
    {
      if |message| < HeaderLength {
        return Failure(MessageTooShort(|message|));
      }
      var tid := DecodeUint32BE(message[KeyOffset..HeaderLength]);
      var handle := |requests|;
      responseCallbacks := responseCallbacks[tid := handle];
      requests := requests + [OutboundRequest(tid, Pending)];
      transport := transport + [Send(message, stunPort, stunHost)];
      if sendError.Some? {
        requests := requests[handle := requests[handle].(completion := Reject(requests[handle].completion, sendError.value))];
      }
      r := Success(handle);
    }

    /** Sends an indication; its completion says whether the send succeeded. */
    method SendStunIndication(message: seq<Byte>, sendError: Option<SendError>) returns (c: Completion<()>)
      requires Valid()
      modifies this
      ensures Valid()
      ensures c == SendIndication(Settings(), old(Model()), message, sendError).out
      ensures Model() == SendIndication(Settings(), old(Model()), message, sendError).next
    {
      transport := transport + [Send(message, stunPort, stunHost)];
      c := Pending;
      if sendError.Some? {
        c := Reject(c, sendError.value);
      } else {
        c := Resolve(c, ());
      }
    }

    /** Decodes an inbound datagram and hands it to the handler for its class. */
    method OnIncomingMessage(msg: seq<Byte>, rinfo: RemoteInfo) returns (r: Result<(), SocketError>)
      requires Valid()
      modifies this
      ensures Valid()
      ensures r == Incoming(Settings(), old(Model()), msg, rinfo).out
      ensures Model() == Incoming(Settings(), old(Model()), msg, rinfo).next
    {
      var stunPacket := decode(msg);
      if stunPacket.Some? {
        match stunPacket.value.kind
        case SuccessResponse =>
          r := OnIncomingStunResponse(stunPacket.value, rinfo);
        case ErrorResponse =>
          r := OnIncomingStunResponse(stunPacket.value, rinfo);
        case Indication =>
          OnIncomingStunIndication(stunPacket.value, rinfo);
          r := Success(());
        case Request =>
          r := Failure(UnhandledMessageType);
      } else {
        OnOtherIncomingMessage(msg, rinfo);
        r := Success(());
      }
    }

    /** Settles and removes the entry for the response's key, or throws if there is none. */
    method OnIncomingStunResponse(stunPacket: Packet, rinfo: RemoteInfo) returns (r: Result<(), SocketError>)
      requires Valid()
      modifies this
      ensures Valid()
      ensures r == IncomingResponse(old(Model()), stunPacket).out
      ensures Model() == IncomingResponse(old(Model()), stunPacket).next
    {
      if stunPacket.tid in responseCallbacks {
        var handle := responseCallbacks[stunPacket.tid];
        requests := requests[handle := requests[handle].(completion := Resolve(requests[handle].completion, stunPacket))];
        responseCallbacks := responseCallbacks - {stunPacket.tid};
        r := Success(());
      } else {
        r := Failure(NoResponseHandler(stunPacket.tid));
      }
    }

    /** Emits an indication event. */
    method OnIncomingStunIndication(stunPacket: Packet, rinfo: RemoteInfo)
      modifies this
      ensures Model() == old(Model()).(events := old(events) + [IndicationEvent(stunPacket, rinfo)])
    {
      events := events + [IndicationEvent(stunPacket, rinfo)];
    }

    /** Emits a message event for traffic that is not a STUN packet. */
    method OnOtherIncomingMessage(msg: seq<Byte>, rinfo: RemoteInfo)
      modifies this
      ensures Model() == old(Model()).(events := old(events) + [MessageEvent(msg, rinfo)])
    {
      events := events + [MessageEvent(msg, rinfo)];
    }
  }

  /** Constructs a socket; throws when the server host or port is undefined. */
  method Create(host: Option<string>, port: Option<int>, decode: seq<Byte> -> Option<Packet>)
    returns (r: Result<StunSocket, SocketError>)
    ensures r.Failure? <==> host.None? || port.None?
    ensures r.Failure? ==> r.error == InvalidSocketParams
    ensures r.Success? ==> fresh(r.value) && r.value.Valid() && r.value.Model() == Fresh()
    ensures r.Success? ==> r.value.Settings() == Params(host.value, port.value, decode)
  {
    if port.None? || host.None? {
      return Failure(InvalidSocketParams);
    }
    var socket := new StunSocket(host.value, port.value, decode);
    r := Success(socket);
  }
}
