/**
 * What the packet codec hands the socket, and what the socket hands its listeners.
 * The codec itself is not part of this model: the socket receives its decode
 * function as a parameter.
 */
module Packets {
  import opened Wire

  /** The four STUN message classes the codec distinguishes. */
  datatype MessageClass = Request | Indication | SuccessResponse | ErrorResponse

  /** A decoded STUN packet: its class, the transaction key and the opaque rest. */
  datatype Packet = Packet(kind: MessageClass, tid: Uint32, body: seq<Byte>)

  /** Sender information of an inbound datagram. */
  datatype RemoteInfo = RemoteInfo(address: string, port: int, family: string, size: nat)

  /** The notifications the socket emits. */
  datatype Event =
    | IndicationEvent(packet: Packet, rinfo: RemoteInfo)
    | MessageEvent(msg: seq<Byte>, rinfo: RemoteInfo)

  predicate IsResponse(kind: MessageClass) {
    kind == SuccessResponse || kind == ErrorResponse
  }
}
