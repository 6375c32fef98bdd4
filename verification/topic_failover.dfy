/**
 Topic-addressed send with randomized failover (`asyncSendMessageByTopic` and
 its `TopicStatus::onResponse` retry state machine). The random generator is
 an oracle `choose`: the k-th draw picks index `choose(k) % |pool|`. The
 transport's answer for an active peer is an oracle `transport`. The
 registry does not change while a failover runs.
 */
module TopicFailover {
  import opened Base
  import opened P2PTypes
  import opened P2PService

  /** What one hop to `peer` reports back: the transport's reply when the peer is active, `Disconnect` otherwise. */
  function Answer(sessions: map<NodeId, Session>, peer: NodeId, transport: NodeId -> TransportReply): Delivery
  {
    if peer in sessions && sessions[peer].active then
      Delivery(transport(peer).err, Some(sessions[peer]), transport(peer).reply)
    else
      Delivery(Disconnect, None, None)
  }

  /** The test the retry state machine applies to a callback: error code 0 from a peer it has drawn. */
  predicate Accepted(current: NodeId, d: Delivery)
  {
    d.err == NoError && current != NullNode
  }

  /**
   A hop to `peer` ends the search: only a non-null peer with an active
   session whose transport answers with error code 0 does.
   */
  function Succeeds(sessions: map<NodeId, Session>, peer: NodeId, transport: NodeId -> TransportReply): (b: bool)
    ensures b <==> peer != NullNode && peer in sessions && sessions[peer].active && transport(peer).err == NoError
  {
    Accepted(peer, Answer(sessions, peer, transport))
  }

  /** The state after a failover: service, peers tried in order, and the one callback invocation (if any). */
  datatype Run = Run(svc: Service, tried: seq<NodeId>, delivered: Option<Delivery>)

  /** The failover as written can also stop by dereferencing an absent message. */
  datatype WrittenRun = Finished(run: Run) | NullMessage(tried: seq<NodeId>)

  function RemoveAt(pool: seq<NodeId>, i: nat): (rest: seq<NodeId>)
    requires i < |pool|
    ensures |rest| == |pool| - 1
    ensures multiset(rest) + multiset{pool[i]} == multiset(pool)
  {
    assert pool == pool[..i] + [pool[i]] + pool[i + 1..];
    pool[..i] + pool[i + 1..]
  }

  /** What one hop leaves behind: the service, the callback's arguments, and the message as the send left it. */
  datatype HopResult = HopResult(svc: Service, answer: Delivery, sent: Message)

  /** One hop: send `msg` to `peer` and take what comes back, with the message as the send left it. */
  function Hop(svc: Service, peer: NodeId, msg: Message, transport: NodeId -> TransportReply): (h: HopResult)
    ensures h.answer == Answer(svc.sessions, peer, transport)
    ensures h.svc.sessions == svc.sessions
    ensures h.sent.payload == msg.payload
  {
    var Step(next, out) := AsyncSendByNodeId(svc, peer, msg, true);
    if out.Transmitted? then
      HopResult(next, Delivery(transport(peer).err, Some(out.session), transport(peer).reply), out.msg)
    else
      HopResult(next, out.notified.value, msg)
  }

  /**
   The retry test passes on a hop's callback exactly when the drawn peer is
   a non-null node that is connected and whose transport answers with error
   code 0.
   */
  lemma HopAccepted(svc: Service, peer: NodeId, msg: Message, transport: NodeId -> TransportReply)
    ensures Accepted(peer, Hop(svc, peer, msg, transport).answer) <==>
      peer != NullNode && IsConnected(svc, peer) && transport(peer).err == NoError
  {
  }

  /** Every tried peer failed except the last, which succeeded and whose answer was delivered. */
  predicate SucceededLast(sessions: map<NodeId, Session>, r: Run, transport: NodeId -> TransportReply)
  {
    && |r.tried| > 0
    && Succeeds(sessions, r.tried[|r.tried| - 1], transport)
    && r.delivered == Some(Answer(sessions, r.tried[|r.tried| - 1], transport))
    && (forall i :: 0 <= i < |r.tried| - 1 ==> !Succeeds(sessions, r.tried[i], transport))
  }

  /** Every candidate of the pool was tried and failed, and the callback got no error and no message. */
  predicate Exhausted(sessions: map<NodeId, Session>, pool: seq<NodeId>, r: Run, transport: NodeId -> TransportReply)
  {
    && multiset(r.tried) == multiset(pool)
    && (forall i :: 0 <= i < |r.tried| ==> !Succeeds(sessions, r.tried[i], transport))
    && r.delivered.Some? && r.delivered.value.err == NoError && r.delivered.value.msg == None
  }

  /**
   The retry state machine, resending the caller's message on every hop.
   `current` is the peer tried last (`NullNode` before the first hop) and
   `last` what that hop delivered; `k` counts the hops made so far. Each hop
   removes its peer from the pool, the first accepted answer is passed to the
   callback, and an exhausted pool calls back once with no error and no
   message.
   */
  function Failover(svc: Service, pool: seq<NodeId>, current: NodeId, last: Delivery, msg: Message, k: nat,
                    choose: nat -> nat, transport: NodeId -> TransportReply): (r: Run)
    decreases |pool|
    ensures r.svc.sessions == svc.sessions
    ensures multiset(r.tried) <= multiset(pool) && |r.tried| <= |pool|
    ensures r.delivered.Some?
    ensures Accepted(current, last) ==> r.tried == [] && r.delivered == Some(last)
    ensures !Accepted(current, last) ==>
      SucceededLast(svc.sessions, r, transport) || Exhausted(svc.sessions, pool, r, transport)
  {
    if Accepted(current, last) then
      Run(svc, [], Some(last))
    else if |pool| == 0 then
      Run(svc, [], Some(Delivery(NoError, last.session, None)))
    else
      var i := choose(k) % |pool|;
      var peer := pool[i];
      var h := Hop(svc, peer, msg, transport);
      var rest := RemoveAt(pool, i);
      var sub := Failover(h.svc, rest, peer, h.answer, h.sent, k + 1, choose, transport);
      ExtendRun(svc.sessions, pool, i, sub, transport);
      Run(sub.svc, [peer] + sub.tried, sub.delivered)
  }

  /** Prepending a hop to the run of the remaining pool keeps the run's outcome properties. */
  lemma {:induction false} ExtendRun(sessions: map<NodeId, Session>, pool: seq<NodeId>, i: nat, sub: Run,
                                     transport: NodeId -> TransportReply)
    requires i < |pool|
    requires multiset(sub.tried) <= multiset(RemoveAt(pool, i)) && |sub.tried| <= |pool| - 1
    requires Accepted(pool[i], Answer(sessions, pool[i], transport)) ==>
      sub.tried == [] && sub.delivered == Some(Answer(sessions, pool[i], transport))
    requires !Accepted(pool[i], Answer(sessions, pool[i], transport)) ==>
      SucceededLast(sessions, sub, transport) || Exhausted(sessions, RemoveAt(pool, i), sub, transport)
    ensures multiset([pool[i]] + sub.tried) <= multiset(pool) && |[pool[i]] + sub.tried| <= |pool|
    ensures SucceededLast(sessions, Run(sub.svc, [pool[i]] + sub.tried, sub.delivered), transport)
         || Exhausted(sessions, pool, Run(sub.svc, [pool[i]] + sub.tried, sub.delivered), transport)
  {
    var peer := pool[i];
    WithinPool(pool, i, sub.tried);
    if Succeeds(sessions, peer, transport) {
      assert [peer] + sub.tried == [peer];
    } else if SucceededLast(sessions, sub, transport) {
      PrependFailure(sessions, peer, sub, transport);
    } else {
      PrependExhausted(sessions, pool, i, sub, transport);
    }
  }

  /** A failed hop in front of an exhausted run over the rest of the pool gives an exhausted run over the pool. */
  lemma PrependExhausted(sessions: map<NodeId, Session>, pool: seq<NodeId>, i: nat, sub: Run,
                         transport: NodeId -> TransportReply)
    requires i < |pool|
    requires !Succeeds(sessions, pool[i], transport)
    requires Exhausted(sessions, RemoveAt(pool, i), sub, transport)
    ensures Exhausted(sessions, pool, Run(sub.svc, [pool[i]] + sub.tried, sub.delivered), transport)
  {
    PrependFailure(sessions, pool[i], sub, transport);
    assert multiset([pool[i]] + sub.tried) == multiset{pool[i]} + multiset(sub.tried);
  }

  /** A failed hop in front of a run keeps it a success-at-the-end run, or an all-failed run. */
  lemma {:induction false} PrependFailure(sessions: map<NodeId, Session>, peer: NodeId, sub: Run,
                                          transport: NodeId -> TransportReply)
    requires !Succeeds(sessions, peer, transport)
    ensures SucceededLast(sessions, sub, transport) ==>
      SucceededLast(sessions, Run(sub.svc, [peer] + sub.tried, sub.delivered), transport)
    ensures (forall i :: 0 <= i < |sub.tried| ==> !Succeeds(sessions, sub.tried[i], transport)) ==>
      forall i :: 0 <= i < |[peer] + sub.tried| ==> !Succeeds(sessions, ([peer] + sub.tried)[i], transport)
  {
    var t := [peer] + sub.tried;
    assert forall j :: 1 <= j < |t| ==> t[j] == sub.tried[j - 1];
  }

  /**
   The retry state machine as written: a retry resends the message that came
   back with the failed answer, not the caller's message. After a
   `Disconnect` failure that message is absent, and handing it to an active
   peer dereferences it.
   */
  function FailoverAsWritten(svc: Service, pool: seq<NodeId>, current: NodeId, last: Delivery,
                             msg: Option<Message>, k: nat, choose: nat -> nat,
                             transport: NodeId -> TransportReply): (r: WrittenRun)
    decreases |pool|
    ensures r.Finished? ==> multiset(r.run.tried) <= multiset(pool) && r.run.delivered.Some?
    ensures r.NullMessage? ==> 0 < |r.tried| <= |pool| && IsConnected(svc, r.tried[|r.tried| - 1])
  {
    if Accepted(current, last) then
      Finished(Run(svc, [], Some(last)))
    else if |pool| == 0 then
      Finished(Run(svc, [], Some(Delivery(NoError, last.session, None))))
    else
      var i := choose(k) % |pool|;
      var peer := pool[i];
      if !IsConnected(svc, peer) then
        var d := Delivery(Disconnect, None, None);
        var sub := FailoverAsWritten(svc, RemoveAt(pool, i), peer, d, d.msg, k + 1, choose, transport);
        PrependHop(svc, pool, i, sub)
      else if msg.None? then
        NullMessage([peer])
      else
        var h := Hop(svc, peer, msg.value, transport);
        var sub := FailoverAsWritten(h.svc, RemoveAt(pool, i), peer, h.answer, h.answer.msg, k + 1, choose, transport);
        PrependHop(svc, pool, i, sub)
  }

  /** Puts the hop to `pool[i]` in front of the as-written run over the rest of the pool. */
  function PrependHop(svc: Service, pool: seq<NodeId>, i: nat, sub: WrittenRun): (r: WrittenRun)
    requires i < |pool|
    requires sub.Finished? ==> multiset(sub.run.tried) <= multiset(RemoveAt(pool, i)) && sub.run.delivered.Some?
    requires sub.NullMessage? ==> 0 < |sub.tried| <= |pool| - 1 && IsConnected(svc, sub.tried[|sub.tried| - 1])
    ensures r.Finished? ==> multiset(r.run.tried) <= multiset(pool) && r.run.delivered.Some?
    ensures r.NullMessage? ==> 0 < |r.tried| <= |pool| && IsConnected(svc, r.tried[|r.tried| - 1])
  {
    match sub
    case Finished(run) =>
      WithinPool(pool, i, run.tried);
      Finished(Run(run.svc, [pool[i]] + run.tried, run.delivered))
    case NullMessage(t) =>
      assert ([pool[i]] + t)[|t|] == t[|t| - 1];
      NullMessage([pool[i]] + t)
  }

  /** Candidates drawn from the rest of the pool, behind the candidate drawn now, are still drawn from the pool. */
  lemma WithinPool(pool: seq<NodeId>, i: nat, t: seq<NodeId>)
    requires i < |pool|
    requires multiset(t) <= multiset(RemoveAt(pool, i))
    ensures multiset([pool[i]] + t) <= multiset(pool)
  {
    assert multiset([pool[i]] + t) == multiset{pool[i]} + multiset(t);
  }

  /** Some registered session lists `topic`. */
  predicate HasSubscriber(sessions: map<NodeId, Session>, topic: string)
  {
    exists n :: n in sessions && topic in sessions[n].topics
  }

  /** No registered session lists `topic` twice. */
  predicate ListedOnce(sessions: map<NodeId, Session>, topic: string)
  {
    forall n :: n in sessions ==> multiset(sessions[n].topics)[topic] <= 1
  }

  /** Every element of a sub-multiset of a repetition-free pool occurs once. */
  lemma {:induction false} SubPoolDistinct(tried: seq<NodeId>, pool: seq<NodeId>)
    requires multiset(tried) <= multiset(pool)
    requires forall n :: multiset(pool)[n] <= 1
    ensures forall i, j :: 0 <= i < j < |tried| ==> tried[i] != tried[j]
  {
    forall i, j | 0 <= i < j < |tried|
      ensures tried[i] != tried[j]
    {
      var x := tried[j];
      assert tried == tried[..j] + [x] + tried[j + 1..];
      assert tried[i] in tried[..j];
      assert multiset(tried)[x] == multiset(tried[..j])[x] + 1 + multiset(tried[j + 1..])[x];
      assert multiset(tried)[x] <= multiset(pool)[x] <= 1;
      assert x !in tried[..j];
    }
  }

  /**
   Sends `msg` to one subscriber of `topic` with failover. With no
   subscriber the callback is never invoked. Otherwise exactly one callback
   follows: the first accepted answer, or, once every candidate has failed,
   one with no error and no message. When some subscriber would answer, the
   send ends with a successful hop. No candidate entry is tried twice.
   */
  method AsyncSendByTopic(svc: Service, topic: string, msg: Message, choose: nat -> nat,
                          transport: NodeId -> TransportReply)
    returns (r: Run)
    ensures !HasSubscriber(svc.sessions, topic) ==> r == Run(svc, [], None)
    ensures HasSubscriber(svc.sessions, topic) ==> r.delivered.Some? && |r.tried| > 0
    ensures forall n :: multiset(r.tried)[n] <= TopicCount(svc.sessions, n, topic)
    ensures forall n :: n in r.tried ==> n in svc.sessions && topic in svc.sessions[n].topics
    ensures forall i :: 0 <= i < |r.tried| - 1 ==> !Succeeds(svc.sessions, r.tried[i], transport)
    ensures |r.tried| > 0 && Succeeds(svc.sessions, r.tried[|r.tried| - 1], transport) ==>
      r.delivered == Some(Answer(svc.sessions, r.tried[|r.tried| - 1], transport))
    ensures |r.tried| > 0 && !Succeeds(svc.sessions, r.tried[|r.tried| - 1], transport) ==>
      (forall n :: multiset(r.tried)[n] == TopicCount(svc.sessions, n, topic))
      && r.delivered.value.err == NoError && r.delivered.value.msg == None
    ensures ListedOnce(svc.sessions, topic) ==> forall i, j :: 0 <= i < j < |r.tried| ==> r.tried[i] != r.tried[j]
    ensures forall n :: n in svc.sessions && topic in svc.sessions[n].topics && Succeeds(svc.sessions, n, transport) ==>
      |r.tried| > 0 && Succeeds(svc.sessions, r.tried[|r.tried| - 1], transport)
  {
    var peers := GetPeersByTopic(svc.sessions, topic);
    if |peers| == 0 {
      return Run(svc, [], None);
    }
    r := StartFailover(svc, peers, msg, choose, transport);
    SubscribersTried(svc.sessions, topic, peers, r.tried);
    if ListedOnce(svc.sessions, topic) {
      SubPoolDistinct(r.tried, peers);
    }
  }

  /**
   Starts the retry state machine on a non-empty candidate pool: no peer
   tried yet, no error, the caller's message. Exactly one callback follows:
   the answer of the only successful hop, which is the last, or, after every
   candidate failed, one with no error and no message.
   */
  method StartFailover(svc: Service, pool: seq<NodeId>, msg: Message, choose: nat -> nat,
                       transport: NodeId -> TransportReply)
    returns (r: Run)
    requires |pool| > 0
    ensures r.svc.sessions == svc.sessions
    ensures multiset(r.tried) <= multiset(pool)
    ensures r.delivered.Some? && |r.tried| > 0
    ensures forall i :: 0 <= i < |r.tried| - 1 ==> !Succeeds(svc.sessions, r.tried[i], transport)
    ensures Succeeds(svc.sessions, r.tried[|r.tried| - 1], transport) ==>
      r.delivered == Some(Answer(svc.sessions, r.tried[|r.tried| - 1], transport))
    ensures !Succeeds(svc.sessions, r.tried[|r.tried| - 1], transport) ==>
      multiset(r.tried) == multiset(pool) && r.delivered.value.err == NoError && r.delivered.value.msg == None
    ensures forall p :: p in pool && Succeeds(svc.sessions, p, transport) ==>
      Succeeds(svc.sessions, r.tried[|r.tried| - 1], transport)
  {
    r := Failover(svc, pool, NullNode, Delivery(NoError, None, Some(msg)), msg, 0, choose, transport);
    RunOutcome(svc.sessions, pool, r, transport);
    forall p | p in pool && Succeeds(svc.sessions, p, transport)
      ensures Succeeds(svc.sessions, r.tried[|r.tried| - 1], transport)
    {
      DeliversWhenReachable(svc, pool, NullNode, Delivery(NoError, None, Some(msg)), msg, 0, choose, transport, p);
    }
  }

  /** Peers drawn from the subscriber list are subscribers, each drawn at most as often as it is listed. */
  lemma SubscribersTried(sessions: map<NodeId, Session>, topic: string, peers: seq<NodeId>, tried: seq<NodeId>)
    requires forall n :: multiset(peers)[n] == TopicCount(sessions, n, topic)
    requires multiset(tried) <= multiset(peers)
    ensures forall n :: multiset(tried)[n] <= TopicCount(sessions, n, topic)
    ensures forall n :: n in tried ==> n in sessions && topic in sessions[n].topics
  {
    forall n | n in tried
      ensures n in sessions && topic in sessions[n].topics
    {
      assert multiset(tried)[n] > 0;
      assert multiset(sessions[n].topics)[topic] > 0;
    }
  }

  /**
   What a finished failover over a non-empty pool tells the caller: every hop
   before the last failed; a successful last hop was delivered; a failed last
   hop means the whole pool was tried and the callback got no error and no
   message.
   */
  lemma RunOutcome(sessions: map<NodeId, Session>, pool: seq<NodeId>, r: Run, transport: NodeId -> TransportReply)
    requires SucceededLast(sessions, r, transport) || Exhausted(sessions, pool, r, transport)
    ensures |pool| > 0 ==> |r.tried| > 0
    ensures forall i :: 0 <= i < |r.tried| - 1 ==> !Succeeds(sessions, r.tried[i], transport)
    ensures |r.tried| > 0 && Succeeds(sessions, r.tried[|r.tried| - 1], transport) ==>
      r.delivered == Some(Answer(sessions, r.tried[|r.tried| - 1], transport))
    ensures |r.tried| > 0 && !Succeeds(sessions, r.tried[|r.tried| - 1], transport) ==>
      && multiset(r.tried) == multiset(pool)
      && r.delivered.Some? && r.delivered.value.err == NoError && r.delivered.value.msg == None
  {
    if !SucceededLast(sessions, r, transport) && |pool| > 0 {
      assert pool[0] in multiset(r.tried);
    }
  }

  /**
   The as-written second hop: after a `Disconnect` failure the message to
   resend is absent, and the next candidate is active.
   */
  lemma SecondHopDereferences(svc: Service, inactive: NodeId, active: NodeId, k: nat,
                              choose: nat -> nat, transport: NodeId -> TransportReply)
    requires IsConnected(svc, active)
    ensures FailoverAsWritten(svc, [active], inactive, Delivery(Disconnect, None, None), None, k, choose, transport)
            == NullMessage([active])
  {
    assert choose(k) % |[active]| == 0;
  }

  /**
   The as-written failover over an inactive candidate and an active one,
   drawing the inactive one first: the first hop fails with `Disconnect` and
   no message, and the retry hands that absent message to the active peer.
   */
  lemma RetryResendsAbsentMessage(svc: Service, inactive: NodeId, active: NodeId, msg: Message,
                                  choose: nat -> nat, transport: NodeId -> TransportReply)
    requires !IsConnected(svc, inactive) && IsConnected(svc, active)
    requires choose(0) % 2 == 0
    ensures FailoverAsWritten(svc, [inactive, active], NullNode, Delivery(NoError, None, Some(msg)), Some(msg), 0,
                              choose, transport)
            == NullMessage([inactive, active])
  {
    assert RemoveAt([inactive, active], 0) == [active];
    SecondHopDereferences(svc, inactive, active, 1, choose, transport);
  }

  /** A pool holding a candidate that succeeds cannot be tried out without success. */
  lemma NotExhaustedWithSuccess(sessions: map<NodeId, Session>, pool: seq<NodeId>, r: Run,
                                transport: NodeId -> TransportReply, p: NodeId)
    requires p in pool && Succeeds(sessions, p, transport)
    ensures !Exhausted(sessions, pool, r, transport)
  {
    if multiset(r.tried) == multiset(pool) {
      assert p in multiset(r.tried);
      assert p in r.tried;
    }
  }

  /**
   Whenever some candidate of the pool would succeed, the failover ends with
   a successful hop and delivers that hop's answer.
   */
  lemma {:induction false} DeliversWhenReachable(svc: Service, pool: seq<NodeId>, current: NodeId, last: Delivery,
                                                 msg: Message, k: nat, choose: nat -> nat,
                                                 transport: NodeId -> TransportReply, p: NodeId)
    requires !Accepted(current, last)
    requires p in pool && Succeeds(svc.sessions, p, transport)
    ensures
      var r := Failover(svc, pool, current, last, msg, k, choose, transport);
      && |r.tried| > 0
      && Succeeds(svc.sessions, r.tried[|r.tried| - 1], transport)
      && r.delivered == Some(Answer(svc.sessions, r.tried[|r.tried| - 1], transport))
  {
    var r := Failover(svc, pool, current, last, msg, k, choose, transport);
    NotExhaustedWithSuccess(svc.sessions, pool, r, transport, p);
  }

  /**
   On the input of the finding, the corrected failover delivers the active
   peer's answer, whichever candidate is drawn first.
   */
  lemma CorrectedFailoverDelivers(svc: Service, inactive: NodeId, active: NodeId, msg: Message,
                                  choose: nat -> nat, transport: NodeId -> TransportReply)
    requires !IsConnected(svc, inactive) && IsConnected(svc, active) && active != NullNode
    requires transport(active).err == NoError
    ensures
      var r :=
        Failover(svc, [inactive, active], NullNode, Delivery(NoError, None, Some(msg)), msg, 0, choose, transport);
      r.tried[|r.tried| - 1] == active && r.delivered == Some(Answer(svc.sessions, active, transport))
  {
    var pool := [inactive, active];
    var r := Failover(svc, pool, NullNode, Delivery(NoError, None, Some(msg)), msg, 0, choose, transport);
    DeliversWhenReachable(svc, pool, NullNode, Delivery(NoError, None, Some(msg)), msg, 0, choose, transport, active);
    var final := r.tried[|r.tried| - 1];
    assert final in multiset(r.tried);
    assert final in multiset(pool);
  }

  /** Two subscribers of "t": node 1 is registered but inactive, node 2 is active. */
  const ExampleConn := Connection(0, SocketEndpoint("127.0.0.1", 30300))
  const ExampleInactive := Session(0, ExampleConn, 1, false, ["t"])
  const ExampleActive := Session(1, ExampleConn, 2, true, ["t"])
  const ExampleService := Service(7, true, map[1 := ExampleInactive, 2 := ExampleActive], map[], map[], map[], 0, 2)

  /**
   A concrete input for the finding: both nodes subscribe to "t", every
   draw picks index 0, and node 2 answers. As written the retry hands node 2
   an absent message; corrected, node 2's answer is delivered.
   */
  lemma ExampleShowsFinding(msg: Message)
    ensures
      var choose := (k: nat) => 0;
      var transport := (n: NodeId) => TransportReply(NoError, Some(msg));
      && FailoverAsWritten(ExampleService, [1, 2], NullNode, Delivery(NoError, None, Some(msg)), Some(msg), 0,
                           choose, transport)
         == NullMessage([1, 2])
      && Failover(ExampleService, [1, 2], NullNode, Delivery(NoError, None, Some(msg)), msg, 0,
                  choose, transport).delivered
         == Some(Delivery(NoError, Some(ExampleActive), Some(msg)))
  {
    var choose := (k: nat) => 0;
    var transport := (n: NodeId) => TransportReply(NoError, Some(msg));
    assert !IsConnected(ExampleService, 1) && IsConnected(ExampleService, 2);
    RetryResendsAbsentMessage(ExampleService, 1, 2, msg, choose, transport);
    CorrectedFailoverDelivers(ExampleService, 1, 2, msg, choose, transport);
  }
}
