# StunSocket transaction correlation and dispatch, in Dafny

This project models the client side of the STUN exchange in `StunSocket` (stun-js,
`src/stun_socket.js`). It covers three things:

- How the socket files each outgoing request under a transaction key in its
  response-callback table.
- How it settles a request when the matching success or error response arrives.
- How it sorts every inbound datagram into one of four outcomes: a response, an
  indication, a raw message or an error.

The message structure is that of section 6 of RFC 5389. A message has a 20-byte
header, and bytes 8..19 hold the 96-bit transaction ID. The socket keys requests by
the big-endian unsigned 32-bit number at bytes 16..19 only.

Modules:

- `Wrappers`: `Option` and `Result`.
- `Wire`: bytes, unsigned 32-bit integers and the transaction key. The key
  (`TransactionKey`) is proved to be the exact inverse of the 4-byte big-endian
  encoding of bytes 16..19.
- `Packets`: the decoded packet (class, key, body), sender info and the two events.
- `Transactions`: the socket's state as a value (`SocketState`). It holds the
  table, the completion of every request sent, the emitted events and the transport
  calls made. There is one function per operation from the state before to the state
  after, and `Run` applies a sequence of calls and arrivals. The invariant `Valid`
  says every table entry designates a request filed under that same key.
- `Properties`: lemmas over several operations. An overwritten entry's request is
  never settled afterwards. Responses with distinct keys settle their own requests,
  and the final state is the same in any order. A duplicate response settles once
  and then throws. A send error followed by a response leaves the request rejected.
  Non-response traffic does not depend on or change the table.
- `Sockets`: the class `StunSocket`, whose fields the methods update in place. Each
  method's contract ties the new state to the matching `Transactions` function of the
  old state. `Create` is the throwing constructor.

Promises (Q deferreds) are modelled as `Completion` values: `Pending`, `Resolved(v)`
or `Rejected(e)`. Settling an already-settled completion changes nothing, so the
first settlement wins. The promise `sendStunRequestP` returns is `requests[i]`, where
`i` is the index the method returns. The codec's `Packet.decode` is a function value
the socket is constructed with. A transport send is one step, and its callback's
error is a parameter of that step. A `throw` is a `Failure` result that leaves the
state unchanged.

## Model

| member | source | states |
|---|---|---|
| Wire.TransactionKey | src/stun_socket.js:84 | The key is absent (a range error) exactly when the message is shorter than the 20-byte header. Otherwise its 4-byte big-endian encoding equals bytes 16..19. |
| Wire.DecodeEncode | src/stun_socket.js:84 | Decoding the big-endian encoding of a 32-bit number gives that number back. |
| Wire.EncodeDecode | src/stun_socket.js:84 | Encoding the number four bytes stand for gives those bytes back. |
| Wire.SameKeyIff | src/stun_socket.js:84 | Two messages get the same key exactly when their bytes 16..19 agree. The first 64 bits of the transaction ID are ignored. |
| Transactions.Fresh | src/stun_socket.js:19 | A new socket has an empty table, no requests, no events and no transport calls, and it satisfies the table invariant. |
| Transactions.Listen | src/stun_socket.js:35-39 | Listening throws exactly when either callback handler is undefined, and then makes no bind. Otherwise it issues one bind and changes nothing else. |
| Transactions.SendRequest | src/stun_socket.js:81-98 | A message shorter than the header throws and changes nothing. Otherwise the table maps the key to the new request and replaces any earlier entry for that key. Earlier requests are kept as they were. The new request is filed under that key with a completion that stays pending when the send succeeds and is rejected with the send's error when it fails. The entry stays either way. The message is sent to the configured host and port. The table invariant is preserved. |
| Transactions.SendIndication | src/stun_socket.js:111-121 | The completion resolves exactly when the send reports no error and otherwise is rejected with that error. The table, requests and events are unchanged, and one send is made. |
| Transactions.IncomingResponse | src/stun_socket.js:158-169 | Succeeds exactly when the key is in the table. It then removes exactly that key, resolves that request with the packet if it was pending, and leaves every other request unchanged. Otherwise it throws a no-handler error and changes nothing. |
| Transactions.Incoming | src/stun_socket.js:128-155 | An undecodable datagram appends a message event. An indication appends an indication event. A response goes to IncomingResponse. A request-class packet throws with the state unchanged. The transport log never changes, and the invariant is preserved. |
| Properties.OrphanNeverSettled | src/stun_socket.js:86-89 | A request that no table entry designates keeps its completion through any later calls and arrivals. |
| Properties.ReusedKeyOrphansEarlier | src/stun_socket.js:84-89 | After a second request with the same bytes 16..19, the table designates the second request. The first request's completion stays as the first send left it (pending, or rejected) through any later inputs. |
| Properties.EachResponseSettlesItsOwn | src/stun_socket.js:158-163 | Responses with distinct keys that are all in the table each resolve their own request if it is pending. Exactly their keys leave the table, and all other requests, events and transport calls are unchanged. |
| Properties.ArrivalsAreResponses | src/stun_socket.js:136-142 | Datagrams that decode to success or error responses, arriving in sequence, leave the socket exactly as those responses handed straight to the response handler would. So the results about responses below hold for inbound datagrams too. |
| Properties.ResponseOrderIrrelevant | src/stun_socket.js:158-163 | Any reordering of such responses leaves the socket in the same state. |
| Properties.DuplicateResponse | src/stun_socket.js:160-168 | A response for a key in the table settles its request and removes the key. The same response delivered again throws a no-handler error and leaves the state as it was. |
| Properties.RejectedThenResponse | src/stun_socket.js:89-96 | A send error rejects the new request but keeps its entry. A later matching response removes the entry, and the completion stays rejected. |
| Properties.NonResponseIgnoresTable | src/stun_socket.js:143-153 | For an undecodable datagram, an indication or a request-class packet, the outcome and the events do not depend on the table. The table and the requests are left unchanged. |
| Sockets.Create | src/stun_socket.js:10-19 | Construction fails with the invalid-parameters error exactly when the host or the port is undefined. Otherwise the socket is new, has an empty table and keeps the given host, port and codec. |
| Sockets.StunSocket.constructor | src/stun_socket.js:16-19 | The fields hold the host, the port and the codec, and the table, requests, events and transport log are empty. |
| Sockets.StunSocket.Listen | src/stun_socket.js:33-47 | The result and the new state are those of Transactions.Listen on the old state. |
| Sockets.StunSocket.SendStunRequest | src/stun_socket.js:81-98 | The result and the new state are those of Transactions.SendRequest on the old state, and the invariant is kept. |
| Sockets.StunSocket.SendStunIndication | src/stun_socket.js:111-121 | The completion and the new state are those of Transactions.SendIndication on the old state. |
| Sockets.StunSocket.OnIncomingMessage | src/stun_socket.js:128-155 | The result and the new state are those of Transactions.Incoming on the old state. |
| Sockets.StunSocket.OnIncomingStunResponse | src/stun_socket.js:158-169 | The result and the new state are those of Transactions.IncomingResponse on the old state. |
| Sockets.StunSocket.OnIncomingStunIndication | src/stun_socket.js:172-174 | Appends an indication event with the packet and sender info, and changes nothing else. |
| Sockets.StunSocket.OnOtherIncomingMessage | src/stun_socket.js:177-179 | Appends a message event with the raw bytes and sender info, and changes nothing else. |

## Left out

- Unsolicited responses: the code throws on a response whose key is not in the table (src/stun_socket.js:164-168). Logging and dropping such a response is the usual alternative design. The model follows the code.
- Process-level effect of a throw: inside the datagram `message` listener, a throw is an uncaught exception in Node.js. The model returns the error and leaves the socket state unchanged. What then happens to the process is not modelled.
- The datagram socket itself (`createSocket`, the bind and its listening address, `address`, `close`, `send`): this is OS I/O. Binds and sends are only recorded in the transport log. `listenP`'s completion, which resolves with the bound address, is not modelled.
- Bind options: `args = args | {}` (src/stun_socket.js:34, 51) is a bitwise OR. It yields a number (0 when args is undefined or an object), and a number has no `address` or `port`. The bind therefore always gets an undefined address and port. The model's `Bind` carries no options.
- The callback adapters `sendStunRequest`, `sendStunIndication` and the `then`/`catch` in `listen` (src/stun_socket.js:40-46, 71-79, 101-109) are not modelled. They only forward a settled completion to `onSuccess`/`onFailure`.
- Timing of the send callback: it is taken to fire in the same step as the send. A response that overtakes its own send callback is not modelled.
- `Packet.decode` and `Packet.TYPE` (src/packet.js is not part of this model): decode is an arbitrary function value, and a packet has exactly the four classes REQUEST, INDICATION, SUCCESS_RESPONSE and ERROR_RESPONSE.
- The socket error handler `onFailure` (src/stun_socket.js:182-188) just rethrows a runtime I/O error.
- Logging, event-listener registration and the EventEmitter inheritance: emitted events are an appended sequence.
- Table keys are JavaScript object property names, that is, the decimal strings of the keys. That mapping is injective on 32-bit numbers, so the model keys the table by the number.
- The truthiness test on the stored callback (src/stun_socket.js:161) is always true for a stored entry, so the model tests membership instead.
- src/transports/tcp.js: `StunSocket` does not use it. Its drain and close behaviour rests entirely on Node's `net` module.
