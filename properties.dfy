/**
 * What the socket's transaction table guarantees over several operations: a
 * request whose entry is overwritten is never settled, responses for distinct
 * keys each settle their own request whatever their order, a duplicate response
 * settles once and then throws, and traffic other than responses neither reads
 * nor changes the table.
 */
module Properties {
  import opened Wrappers
  import opened Wire
  import opened Packets
  import opened Transactions

  /** Some table entry designates request h. */
  ghost predicate Referenced(s: SocketState, h: nat) {
    exists t :: t in s.pending && s.pending[t] == h
  }

  lemma ApplyLeavesUnreferenced(p: Params, s: SocketState, input: Input, h: nat)
    requires Valid(s) && h < |s.requests| && !Referenced(s, h)
    ensures var s' := Apply(p, s, input);
      h < |s'.requests| && s'.requests[h] == s.requests[h] && !Referenced(s', h)
  {
    var s' := Apply(p, s, input);
    match input
    case ListenCall(a, b) =>
    case IndicationCall(m, e) =>
    case RequestCall(m, e) =>
      if |m| >= HeaderLength {
        assert s'.requests[..|s.requests|] == s.requests;
        assert s'.requests[h] == s'.requests[..|s.requests|][h];
        forall t | t in s'.pending ensures s'.pending[t] != h {
          if t != TransactionKey(m).value {
            assert t in s.pending;
          }
        }
      }
    case Arrival(m, i) =>
      var d := p.decode(m);
      if d.Some? && IsResponse(d.value.kind) && d.value.tid in s.pending {
        assert h != s.pending[d.value.tid];
      }
      forall t | t in s'.pending ensures s'.pending[t] != h {
        assert t in s.pending;
      }
  }

  /**
   * A request no table entry designates keeps its completion, whatever the socket
   * is asked to do or receives afterwards.
   */
  lemma {:induction false} OrphanNeverSettled(p: Params, s: SocketState, inputs: seq<Input>, h: nat)
    requires Valid(s) && h < |s.requests| && !Referenced(s, h)
    ensures h < |Run(p, s, inputs).requests| && Run(p, s, inputs).requests[h] == s.requests[h]
    decreases |inputs|
  {
    if inputs != [] {
      ApplyLeavesUnreferenced(p, s, inputs[0], h);
      OrphanNeverSettled(p, Apply(p, s, inputs[0]), inputs[1..], h);
    }
  }

  /**
   * When a second request is filed under the key of a first one still in the
   * table, the first request's completion is orphaned: it stays as the first send
   * left it (pending, or rejected by a send error) for ever after, and the table
   * designates the second request.
   */
  lemma ReusedKeyOrphansEarlier(
    p: Params, s: SocketState,
    m1: seq<Byte>, e1: Option<SendError>, m2: seq<Byte>, e2: Option<SendError>,
    later: seq<Input>)
    requires Valid(s)
    requires |m1| >= HeaderLength && |m2| >= HeaderLength
    requires m1[KeyOffset..HeaderLength] == m2[KeyOffset..HeaderLength]
    ensures
      var first := SendRequest(p, s, m1, e1);
      var second := SendRequest(p, first.next, m2, e2);
      var h1 := first.out.value;
      var tid := TransactionKey(m1).value;
      && first.out.Success? && second.out.Success?
      && second.next.pending[tid] == second.out.value != h1
      && h1 < |Run(p, second.next, later).requests|
      && Run(p, second.next, later).requests[h1].completion
         == (if e1.Some? then Rejected(e1.value) else Pending)
  {
    var first := SendRequest(p, s, m1, e1);
    var second := SendRequest(p, first.next, m2, e2);
    var h1 := first.out.value;
    var tid := TransactionKey(m1).value;
    SameKeyIff(m1, m2);
    assert second.next.requests[..|first.next.requests|] == first.next.requests;
    assert second.next.requests[h1] == first.next.requests[h1];
    forall t | t in second.next.pending ensures second.next.pending[t] != h1 {
      if t != tid {
        assert t in s.pending;
      }
    }
    OrphanNeverSettled(p, second.next, later, h1);
  }

  /** Responses delivered one after another, each to the response handler. */
  function DeliverResponses(s: SocketState, ps: seq<Packet>): (r: SocketState)
    requires Valid(s)
    ensures Valid(r)
    decreases |ps|
  {
    if ps == [] then s else DeliverResponses(IncomingResponse(s, ps[0]).next, ps[1..])
  }

  /**
   * Datagrams that decode to responses, arriving one after another, are handled
   * exactly as those responses delivered straight to the response handler.
   */
  lemma {:induction false} ArrivalsAreResponses(
    p: Params, s: SocketState, inputs: seq<Input>, ps: seq<Packet>)
    requires Valid(s) && |inputs| == |ps|
    requires forall i :: 0 <= i < |inputs| ==>
      inputs[i].Arrival? && p.decode(inputs[i].msg) == Some(ps[i]) && IsResponse(ps[i].kind)
    ensures Run(p, s, inputs) == DeliverResponses(s, ps)
    decreases |inputs|
  {
    if inputs != [] {
      var s1 := Apply(p, s, inputs[0]);
      assert s1 == IncomingResponse(s, ps[0]).next;
      ArrivalsAreResponses(p, s1, inputs[1..], ps[1..]);
    }
  }

  /** No two packets of ps carry the same key. */
  ghost predicate DistinctKeys(ps: seq<Packet>) {
    forall i, j :: 0 <= i < j < |ps| ==> ps[i].tid != ps[j].tid
  }

  /** Every packet of ps carries a key the table holds. */
  ghost predicate AllPending(s: SocketState, ps: seq<Packet>) {
    forall i :: 0 <= i < |ps| ==> ps[i].tid in s.pending
  }

  /** The keys of ps. */
  ghost function Keys(ps: seq<Packet>): set<Uint32> {
    set i | 0 <= i < |ps| :: ps[i].tid
  }

  /** The requests the table designates for the keys of ps. */
  ghost function Handles(s: SocketState, ps: seq<Packet>): set<nat>
    requires AllPending(s, ps)
  {
    set i | 0 <= i < |ps| :: s.pending[ps[i].tid]
  }

  /** Within a valid table, distinct keys designate distinct requests. */
  lemma DistinctHandles(s: SocketState, t1: Uint32, t2: Uint32)
    requires Valid(s) && t1 in s.pending && t2 in s.pending && t1 != t2
    ensures s.pending[t1] != s.pending[t2]
  {
    assert s.requests[s.pending[t1]].tid == t1 && s.requests[s.pending[t2]].tid == t2;
  }

  /** What delivering the first of ps leaves for the rest of ps. */
  lemma FirstResponseFacts(s: SocketState, ps: seq<Packet>)
    requires Valid(s) && DistinctKeys(ps) && AllPending(s, ps) && ps != []
    ensures var s1 := IncomingResponse(s, ps[0]).next;
      var rest := ps[1..];
      var h0 := s.pending[ps[0].tid];
      && DistinctKeys(rest)
      && AllPending(s1, rest)
      && (forall i :: 0 <= i < |rest| ==> s1.pending[rest[i].tid] == s.pending[rest[i].tid] != h0)
      && Keys(ps) == {ps[0].tid} + Keys(rest)
      && Handles(s, ps) == {h0} + Handles(s1, rest)
      && h0 !in Handles(s1, rest)
  {
    var s1 := IncomingResponse(s, ps[0]).next;
    var rest := ps[1..];
    var h0 := s.pending[ps[0].tid];
    forall i | 0 <= i < |rest|
      ensures rest[i].tid in s1.pending && s1.pending[rest[i].tid] == s.pending[rest[i].tid] != h0
    {
      assert rest[i] == ps[i + 1];
      DistinctHandles(s, rest[i].tid, ps[0].tid);
    }
    assert DistinctKeys(rest) by {
      forall i, j | 0 <= i < j < |rest| ensures rest[i].tid != rest[j].tid {
        assert rest[i] == ps[i + 1] && rest[j] == ps[j + 1];
      }
    }
    assert Keys(ps) == {ps[0].tid} + Keys(rest) by {
      forall t | t in Keys(ps) ensures t in {ps[0].tid} + Keys(rest) {
        var i :| 0 <= i < |ps| && ps[i].tid == t;
        if i > 0 { assert rest[i - 1] == ps[i]; }
      }
      forall t | t in Keys(rest) ensures t in Keys(ps) {
        var i :| 0 <= i < |rest| && rest[i].tid == t;
        assert ps[i + 1] == rest[i];
      }
    }
    assert Handles(s, ps) == {h0} + Handles(s1, rest) by {
      forall h | h in Handles(s, ps) ensures h in {h0} + Handles(s1, rest) {
        var i :| 0 <= i < |ps| && s.pending[ps[i].tid] == h;
        if i > 0 { assert rest[i - 1] == ps[i]; }
      }
      forall h | h in Handles(s1, rest) ensures h in Handles(s, ps) {
        var i :| 0 <= i < |rest| && s1.pending[rest[i].tid] == h;
        assert ps[i + 1] == rest[i];
      }
    }
  }

  /**
   * Responses with distinct keys, all in the table, delivered in the order given:
   * each settles its own request (resolving it if it was still pending), exactly
   * their keys leave the table, and every other request is as it was.
   */
  lemma {:induction false} EachResponseSettlesItsOwn(s: SocketState, ps: seq<Packet>)
    requires Valid(s) && DistinctKeys(ps) && AllPending(s, ps)
    ensures var r := DeliverResponses(s, ps);
      && r.pending == s.pending - Keys(ps)
      && |r.requests| == |s.requests|
      && (forall i :: 0 <= i < |ps| ==>
            r.requests[s.pending[ps[i].tid]]
            == OutboundRequest(ps[i].tid, Resolve(s.requests[s.pending[ps[i].tid]].completion, ps[i])))
      && (forall h :: 0 <= h < |s.requests| && h !in Handles(s, ps) ==> r.requests[h] == s.requests[h])
      && r.events == s.events && r.transport == s.transport
    decreases |ps|
  {
    if ps != [] {
      var s1 := IncomingResponse(s, ps[0]).next;
      var rest := ps[1..];
      var h0 := s.pending[ps[0].tid];
      FirstResponseFacts(s, ps);
      EachResponseSettlesItsOwn(s1, rest);
      var r := DeliverResponses(s1, rest);
      assert r == DeliverResponses(s, ps);
      forall i | 0 <= i < |ps|
        ensures r.requests[s.pending[ps[i].tid]]
          == OutboundRequest(ps[i].tid, Resolve(s.requests[s.pending[ps[i].tid]].completion, ps[i]))
      {
        if i > 0 {
          assert ps[i] == rest[i - 1];
        }
      }
    }
  }

  /** Two arrangements of the same packets have the same keys and designate the same requests. */
  lemma SamePackets(s: SocketState, ps: seq<Packet>, qs: seq<Packet>)
    requires AllPending(s, ps) && multiset(ps) == multiset(qs)
    ensures AllPending(s, qs)
    ensures forall i :: 0 <= i < |ps| ==> ps[i] in qs
    ensures Keys(ps) == Keys(qs) && Handles(s, ps) == Handles(s, qs)
  {
    forall j | 0 <= j < |qs| ensures exists i :: 0 <= i < |ps| && ps[i] == qs[j] {
      assert qs[j] in multiset(qs);
    }
    forall i | 0 <= i < |ps| ensures ps[i] in qs {
      assert ps[i] in multiset(ps);
    }
  }

  /**
   * Responses with distinct keys, all in the table, leave the socket in the same
   * state in whichever order they arrive.
   */
  lemma ResponseOrderIrrelevant(s: SocketState, ps: seq<Packet>, qs: seq<Packet>)
    requires Valid(s) && DistinctKeys(ps) && DistinctKeys(qs) && AllPending(s, ps)
    requires multiset(ps) == multiset(qs)
    ensures DeliverResponses(s, ps) == DeliverResponses(s, qs)
  {
    SamePackets(s, ps, qs);
    EachResponseSettlesItsOwn(s, ps);
    EachResponseSettlesItsOwn(s, qs);
    var a, b := DeliverResponses(s, ps), DeliverResponses(s, qs);
    forall h | 0 <= h < |s.requests| ensures a.requests[h] == b.requests[h] {
      if h in Handles(s, ps) {
        var i :| 0 <= i < |ps| && s.pending[ps[i].tid] == h;
        var j :| 0 <= j < |qs| && qs[j] == ps[i];
      }
    }
    assert a.requests == b.requests;
  }

  /**
   * A response for a key in the table settles its request and removes the entry;
   * the same response arriving again throws and leaves the socket as it was.
   */
  lemma DuplicateResponse(p: Params, s: SocketState, msg: seq<Byte>, rinfo: RemoteInfo)
    requires Valid(s)
    requires p.decode(msg).Some? && IsResponse(p.decode(msg).value.kind)
    requires p.decode(msg).value.tid in s.pending
    ensures
      var packet := p.decode(msg).value;
      var h := s.pending[packet.tid];
      var first := Incoming(p, s, msg, rinfo);
      var second := Incoming(p, first.next, msg, rinfo);
      && first.out.Success?
      && packet.tid !in first.next.pending
      && first.next.requests[h].completion == Resolve(s.requests[h].completion, packet)
      && second.out == Failure(NoResponseHandler(packet.tid))
      && second.next == first.next
  {
  }

  /**
   * A request whose send failed stays in the table with a rejected completion; a
   * later matching response removes the entry and the completion stays rejected.
   */
  lemma RejectedThenResponse(
    p: Params, s: SocketState, message: seq<Byte>, e: SendError, packet: Packet)
    requires Valid(s)
    requires |message| >= HeaderLength
    requires packet.tid == TransactionKey(message).value && IsResponse(packet.kind)
    ensures
      var sent := SendRequest(p, s, message, Some(e));
      var h := sent.out.value;
      var answered := IncomingResponse(sent.next, packet);
      && sent.out.Success?
      && sent.next.pending[packet.tid] == h
      && sent.next.requests[h].completion == Rejected(e)
      && answered.out.Success?
      && packet.tid !in answered.next.pending
      && answered.next.requests[h].completion == Rejected(e)
  {
    var sent := SendRequest(p, s, message, Some(e));
    assert sent.next.requests[sent.out.value].completion == Rejected(e);
  }

  /**
   * An undecodable datagram, an indication or a packet of another class is handled
   * the same way whatever the table holds, and leaves the table and the requests
   * as they were.
   */
  lemma NonResponseIgnoresTable(
    p: Params, s1: SocketState, s2: SocketState, msg: seq<Byte>, rinfo: RemoteInfo)
    requires Valid(s1) && Valid(s2) && s1.events == s2.events
    requires p.decode(msg).None? || !IsResponse(p.decode(msg).value.kind)
    ensures Incoming(p, s1, msg, rinfo).out == Incoming(p, s2, msg, rinfo).out
    ensures Incoming(p, s1, msg, rinfo).next.events == Incoming(p, s2, msg, rinfo).next.events
    ensures Incoming(p, s1, msg, rinfo).next.pending == s1.pending
    ensures Incoming(p, s1, msg, rinfo).next.requests == s1.requests
  {
  }
}
