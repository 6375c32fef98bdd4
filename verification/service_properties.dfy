/**
 Properties that relate several service transitions: connection and
 reconnection, disconnection of replaced sessions, sends after a
 disconnect, sequence numbering, and handler registration.
 */
module ServiceProperties {
  import opened Base
  import opened P2PTypes
  import opened P2PService

  /**
   Two connections for one node id, the first still active: the second is
   refused with `DuplicatePeer` and the registry keeps the first session.
   */
  lemma SecondConnectRefused(svc: Service, nodeId: NodeId, first: Connection, second: Connection)
    requires OnConnect(svc, NoError, nodeId, first).outcome.Established?
    ensures
      var Step(s1, o1) := OnConnect(svc, NoError, nodeId, first);
      var Step(s2, o2) := OnConnect(s1, NoError, nodeId, second);
      && o2 == Refused(second, DuplicatePeer)
      && s2.sessions == s1.sessions
      && s2.sessions[nodeId] == o1.session
  {
  }

  /** A connection this node initiated or accepted from a configured endpoint is not redialled while it lives. */
  lemma ConnectedPeerNotRedialled(svc: Service, host: HostInfo, nodeId: NodeId, conn: Connection)
    requires OnConnect(svc, NoError, nodeId, conn).outcome.Established?
    requires nodeId != NullNode
    requires StaticEndpoint(conn) in svc.staticNodes
    ensures
      var next := OnConnect(svc, NoError, nodeId, conn).svc;
      StaticEndpoint(conn) in next.staticNodes && !Reconnectable(next, host, StaticEndpoint(conn))
  {
  }

  /**
   Once the registered session of a configured peer disconnects, the static
   entry still names the peer, the peer is no longer connected, and the next
   heartbeat redials it (unless it is this node or has no address).
   */
  lemma DisconnectedPeerRedialled(svc: Service, host: HostInfo, s: Session, ep: Endpoint)
    requires Valid(svc)
    requires s.nodeId in svc.sessions && svc.sessions[s.nodeId].id == s.id
    requires ep in svc.staticNodes && svc.staticNodes[ep] == s.nodeId
    requires s.nodeId != svc.localId && ep.address != ""
    requires !(ep.address == host.address && ep.tcpPort == host.listenPort)
    ensures
      var next := OnDisconnect(svc, s);
      !IsConnected(next, s.nodeId) && ep in next.staticNodes && next.staticNodes[ep] == s.nodeId
      && Reconnectable(next, host, ep)
  {
  }

  /**
   An inactive session replaced by a new connection reports its disconnect
   late: the registry keeps the new session, because only the very session
   registered is erased.
   */
  lemma LateDisconnectKeepsReplacement(svc: Service, stale: Session, conn: Connection)
    requires Valid(svc)
    requires stale.nodeId in svc.sessions && svc.sessions[stale.nodeId] == stale && !stale.active
    requires stale.nodeId != svc.localId
    ensures
      var Step(next, outcome) := OnConnect(svc, NoError, stale.nodeId, conn);
      && outcome.Established?
      && OnDisconnect(next, stale) == next
      && IsConnected(OnDisconnect(next, stale), stale.nodeId)
  {
  }

  /** After the registered session of a node disconnects, a send to that node fails with one `Disconnect` callback. */
  lemma SendAfterDisconnectFails(svc: Service, s: Session, msg: Message)
    requires s.nodeId in svc.sessions && svc.sessions[s.nodeId].id == s.id
    ensures
      var next := OnDisconnect(svc, s);
      AsyncSendByNodeId(next, s.nodeId, msg, true) == Step(next, Failed(Some(Delivery(Disconnect, None, None))))
  {
  }

  /** Two unnumbered messages sent one after the other get distinct, increasing sequence numbers. */
  lemma SequenceNumbersDistinct(svc: Service, a: NodeId, b: NodeId, m1: Message, m2: Message)
    requires IsConnected(svc, a) && IsConnected(svc, b)
    requires m1.seqNo == 0 && m2.seqNo == 0
    ensures
      var Step(s1, o1) := AsyncSendByNodeId(svc, a, m1, true);
      var Step(s2, o2) := AsyncSendByNodeId(s1, b, m2, true);
      o1.Transmitted? && o2.Transmitted? && 0 < o1.msg.seqNo < o2.msg.seqNo
  {
  }

  /** A message that already carries a sequence number keeps it on every resend. */
  lemma ResendKeepsSequence(svc: Service, a: NodeId, b: NodeId, msg: Message)
    requires IsConnected(svc, a) && IsConnected(svc, b)
    ensures
      var Step(s1, o1) := AsyncSendByNodeId(svc, a, msg, true);
      var Step(s2, o2) := AsyncSendByNodeId(s1, b, o1.msg, true);
      o2.Transmitted? && o2.msg == o1.msg && s2 == s1
  {
  }

  /** Registering the same protocol handler twice is the same as registering it once. */
  lemma RegisterProtocolIdempotent(svc: Service, protocolId: int, h: Handler)
    ensures RegisterHandlerByProtocolId(RegisterHandlerByProtocolId(svc, protocolId, h), protocolId, h)
            == RegisterHandlerByProtocolId(svc, protocolId, h)
  {
    RegisterProtocolLastWins(svc, protocolId, h, h);
  }

  /** A later registration for a protocol id replaces the earlier one. */
  lemma RegisterProtocolLastWins(svc: Service, protocolId: int, h1: Handler, h2: Handler)
    ensures RegisterHandlerByProtocolId(RegisterHandlerByProtocolId(svc, protocolId, h1), protocolId, h2)
            == RegisterHandlerByProtocolId(svc, protocolId, h2)
  {
  }

  /** A later registration for a topic replaces the earlier one. */
  lemma RegisterTopicLastWins(svc: Service, topic: string, h1: Handler, h2: Handler)
    ensures RegisterHandlerByTopic(RegisterHandlerByTopic(svc, topic, h1), topic, h2)
            == RegisterHandlerByTopic(svc, topic, h2)
  {
  }

  /**
   A request for a registered protocol id goes to the handler registered
   last, unless that handler is empty, in which case the request is dropped.
   */
  lemma RegisteredHandlerReceivesRequest(svc: Service, h: Handler, msg: Message, s: Session)
    requires msg.isRequest
    ensures OnMessage(RegisterHandlerByProtocolId(svc, msg.protocolId, h), NoError, msg, s).outcome
            == if h.Callback? then Dispatched(h, s, msg) else DroppedNoHandler
  {
  }
}
