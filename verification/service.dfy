/**
 The bookkeeping of the peer-to-peer `Service`: the session registry, the
 static-node table, the two handler tables and the sequence counter, with one
 pure transition per event. Locks, timers and the thread pool are not
 modelled; every transition is one atomic step.
 */
module P2PService {
  import opened Base
  import opened P2PTypes

  /** Fixed size of a P2P message header, in bytes. */
  const HeaderLength: nat := 12

  /** Message lengths are stored in a 32-bit unsigned field. */
  const Uint32Range: nat := 0x1_0000_0000

  datatype Service = Service(
    localId: NodeId,
    running: bool,
    sessions: map<NodeId, Session>,
    staticNodes: map<Endpoint, NodeId>,
    protocolHandlers: map<int, Handler>,
    topicHandlers: map<string, Handler>,
    lastSeq: nat,
    nextSessionId: nat)

  /** Where this node listens; a static entry at this address and TCP port is the node itself. */
  datatype HostInfo = HostInfo(address: string, listenPort: nat)

  /** A transition's result: the service afterwards and what the event led to. */
  datatype Step<O> = Step(svc: Service, outcome: O)

  datatype ConnectOutcome =
    | ConnectFailed(err: NetErr)
    | Refused(conn: Connection, reason: DisconnectReason)
    | Established(session: Session)

  datatype MessageAction =
    | TornDown(reason: DisconnectReason)
    | KeptOnDuplicateSession
    | Dispatched(handler: Handler, session: Session, msg: Message)
    | DroppedNoHandler
    | DroppedResponse

  datatype SendOutcome =
    | Transmitted(session: Session, msg: Message)
    | Failed(notified: Option<Delivery>)

  /** Every registry entry is filed under its own node id and carries an id already handed out. */
  ghost predicate Valid(svc: Service)
  {
    forall n :: n in svc.sessions ==> svc.sessions[n].nodeId == n && svc.sessions[n].id < svc.nextSessionId
  }

  /**
   A node counts as connected when its registry entry exists and is active.
   In a well-formed registry that is the same as some active session in the
   registry belonging to the node.
   */
  function IsConnected(svc: Service, nodeId: NodeId): (b: bool)
    ensures Valid(svc) ==> (b <==> exists s :: s in svc.sessions.Values && s.nodeId == nodeId && s.active)
  {
    ActiveSessionOf(svc, nodeId);
    nodeId in svc.sessions && svc.sessions[nodeId].active
  }

  /** The session filed under a node is the only one in a well-formed registry that can belong to it. */
  lemma ActiveSessionOf(svc: Service, nodeId: NodeId)
    ensures Valid(svc) ==>
      ((nodeId in svc.sessions && svc.sessions[nodeId].active) <==>
       exists s :: s in svc.sessions.Values && s.nodeId == nodeId && s.active)
  {
    if Valid(svc) && nodeId in svc.sessions && svc.sessions[nodeId].active {
      assert svc.sessions[nodeId] in svc.sessions.Values;
    }
    if Valid(svc) && exists s :: s in svc.sessions.Values && s.nodeId == nodeId && s.active {
      var s :| s in svc.sessions.Values && s.nodeId == nodeId && s.active;
      var n :| n in svc.sessions && svc.sessions[n] == s;
    }
  }

  /** The static-table key a connection's socket maps to: its address, with the port as both UDP and TCP port. */
  function StaticEndpoint(conn: Connection): Endpoint
  {
    Endpoint(conn.remote.address, conn.remote.port, conn.remote.port)
  }

  /** Records `nodeId` for the connection's endpoint, but only when that endpoint is already configured. */
  function UpdateStaticNodes(table: map<Endpoint, NodeId>, conn: Connection, nodeId: NodeId): (t: map<Endpoint, NodeId>)
    ensures t.Keys == table.Keys
    ensures StaticEndpoint(conn) in table ==> t[StaticEndpoint(conn)] == nodeId
    ensures forall ep :: ep in table && ep != StaticEndpoint(conn) ==> t[ep] == table[ep]
  {
    var ep := StaticEndpoint(conn);
    if ep in table then table[ep := nodeId] else table
  }

  /**
   A finished connection handshake. An error leaves everything as it is; a
   node id that already has an active session, and this node's own id, are
   refused with `DuplicatePeer`; otherwise a fresh, active session replaces
   whatever was filed under the node id.
   */
  function OnConnect(svc: Service, e: NetErr, nodeId: NodeId, conn: Connection): (r: Step<ConnectOutcome>)
    ensures e != NoError ==> r == Step(svc, ConnectFailed(e))
    ensures e == NoError && IsConnected(svc, nodeId) ==>
      r.outcome == Refused(conn, DuplicatePeer) && r.svc.sessions == svc.sessions
    ensures e == NoError && nodeId == svc.localId ==>
      r.outcome == Refused(conn, DuplicatePeer) && r.svc.sessions == svc.sessions
    ensures e == NoError && !IsConnected(svc, nodeId) && nodeId != svc.localId ==>
      && r.outcome.Established?
      && r.svc.sessions == svc.sessions[nodeId := r.outcome.session]
      && r.outcome.session.nodeId == nodeId && r.outcome.session.conn == conn && r.outcome.session.active
    ensures r.outcome.Established? ==>
      r.outcome.session.id == svc.nextSessionId && r.svc.nextSessionId == svc.nextSessionId + 1
    ensures !r.outcome.Established? ==> r.svc.nextSessionId == svc.nextSessionId
    ensures r.outcome.Established? && Valid(svc) ==>
      forall n :: n in svc.sessions ==> svc.sessions[n].id != r.outcome.session.id
    ensures r.svc.staticNodes.Keys == svc.staticNodes.Keys
    ensures e == NoError && StaticEndpoint(conn) in svc.staticNodes ==>
      r.svc.staticNodes[StaticEndpoint(conn)] == nodeId
    ensures forall ep :: ep in svc.staticNodes && ep != StaticEndpoint(conn) ==>
      r.svc.staticNodes[ep] == svc.staticNodes[ep]
    ensures r.svc.protocolHandlers == svc.protocolHandlers && r.svc.topicHandlers == svc.topicHandlers
    ensures r.svc.localId == svc.localId && r.svc.running == svc.running && r.svc.lastSeq == svc.lastSeq
    ensures Valid(svc) ==> Valid(r.svc)
  {
    if e != NoError then
      Step(svc, ConnectFailed(e))
    else if IsConnected(svc, nodeId) then
      Step(svc.(staticNodes := UpdateStaticNodes(svc.staticNodes, conn, nodeId)), Refused(conn, DuplicatePeer))
    else if nodeId == svc.localId then
      Step(svc.(staticNodes := UpdateStaticNodes(svc.staticNodes, conn, svc.localId)), Refused(conn, DuplicatePeer))
    else
      var s := Session(svc.nextSessionId, conn, nodeId, true, []);
      Step(svc.(sessions := svc.sessions[nodeId := s],
            staticNodes := UpdateStaticNodes(svc.staticNodes, conn, nodeId),
            nextSessionId := svc.nextSessionId + 1),
       Established(s))
  }

  /**
   A session went away. Its registry entry is erased only when the entry is
   that very session; the static table is never changed (the loop meant to
   clear it works on copies of the entries).
   */
  function OnDisconnect(svc: Service, s: Session): (r: Service)
    ensures r.staticNodes == svc.staticNodes
    ensures s.nodeId in svc.sessions && svc.sessions[s.nodeId].id == s.id ==>
      r == svc.(sessions := r.sessions) && s.nodeId !in r.sessions
      && (forall n :: n in svc.sessions && n != s.nodeId ==> n in r.sessions && r.sessions[n] == svc.sessions[n])
      && |r.sessions| == |svc.sessions| - 1
    ensures !(s.nodeId in svc.sessions && svc.sessions[s.nodeId].id == s.id) ==> r == svc
    ensures Valid(svc) ==> Valid(r)
  {
    if s.nodeId in svc.sessions && svc.sessions[s.nodeId].id == s.id then
      svc.(sessions := svc.sessions - {s.nodeId})
    else
      svc
  }

  /**
   An inbound message or stream error on session `s`. An error other than
   `DuplicateSession` stops the session and disconnects it; a request goes to
   the handler registered for its protocol id, if any; a response that
   reaches the service has no waiter and is dropped.
   */
  function OnMessage(svc: Service, e: NetErr, msg: Message, s: Session): (r: Step<MessageAction>)
    ensures e == DuplicateSession ==> r == Step(svc, KeptOnDuplicateSession)
    ensures e != NoError && e != DuplicateSession ==> r == Step(OnDisconnect(svc, s), TornDown(UserReason))
    ensures e == NoError ==> r.svc == svc
    ensures r.outcome.Dispatched? <==>
      e == NoError && msg.isRequest && msg.protocolId in svc.protocolHandlers
      && svc.protocolHandlers[msg.protocolId].Callback?
    ensures r.outcome.Dispatched? ==> r.outcome == Dispatched(svc.protocolHandlers[msg.protocolId], s, msg)
    ensures r.outcome == DroppedNoHandler <==>
      e == NoError && msg.isRequest
      && (msg.protocolId !in svc.protocolHandlers || svc.protocolHandlers[msg.protocolId].NoCallback?)
    ensures r.outcome == DroppedResponse <==> e == NoError && !msg.isRequest
    ensures Valid(svc) ==> Valid(r.svc)
  {
    if e != NoError then
      if e == DuplicateSession then Step(svc, KeptOnDuplicateSession)
      else Step(OnDisconnect(svc, s), TornDown(UserReason))
    else if msg.isRequest then
      if msg.protocolId in svc.protocolHandlers && svc.protocolHandlers[msg.protocolId].Callback? then
        Step(svc, Dispatched(svc.protocolHandlers[msg.protocolId], s, msg))
      else
        Step(svc, DroppedNoHandler)
    else
      Step(svc, DroppedResponse)
  }

  /** The frame length written into a message: header plus payload, truncated to 32 bits. */
  function FrameLength(payload: seq<bv8>): (n: nat)
    ensures n < Uint32Range
    ensures HeaderLength + |payload| < Uint32Range ==> n == HeaderLength + |payload|
    ensures (n - HeaderLength - |payload|) % Uint32Range == 0
  {
    (HeaderLength + |payload|) % Uint32Range
  }

  /**
   Sends `msg` to `nodeId`. An absent or inactive peer fails with exactly
   one `Disconnect` notification when a callback is given, and the message is
   not touched. Otherwise the length is filled in, a fresh sequence number is
   drawn only when the message has none, and the message goes to the peer's
   session.
   */
  function AsyncSendByNodeId(svc: Service, nodeId: NodeId, msg: Message, hasCallback: bool): (r: Step<SendOutcome>)
    ensures !IsConnected(svc, nodeId) ==>
      r.svc == svc && r.outcome == Failed(if hasCallback then Some(Delivery(Disconnect, None, None)) else None)
    ensures IsConnected(svc, nodeId) ==>
      && r.outcome.Transmitted?
      && r.outcome.session == svc.sessions[nodeId]
      && r.outcome.msg.protocolId == msg.protocolId && r.outcome.msg.isRequest == msg.isRequest
      && r.outcome.msg.payload == msg.payload
      && r.outcome.msg.length == FrameLength(msg.payload)
      && (msg.seqNo != 0 ==> r.outcome.msg.seqNo == msg.seqNo && r.svc == svc)
      && (msg.seqNo == 0 ==> r.outcome.msg.seqNo > svc.lastSeq && r.svc == svc.(lastSeq := r.outcome.msg.seqNo))
    ensures r.outcome.Transmitted? ==> r.outcome.msg.seqNo != 0
    ensures r.svc.sessions == svc.sessions && r.svc.lastSeq >= svc.lastSeq
  {
    if IsConnected(svc, nodeId) then
      var sized := msg.(length := FrameLength(msg.payload));
      if sized.seqNo == 0 then
        var issued := svc.lastSeq + 1;
        Step(svc.(lastSeq := issued), Transmitted(svc.sessions[nodeId], sized.(seqNo := issued)))
      else
        Step(svc, Transmitted(svc.sessions[nodeId], sized))
    else
      Step(svc, Failed(if hasCallback then Some(Delivery(Disconnect, None, None)) else None))
  }

  /** The number of times `nodeId` is listed for `topic`: once per matching entry of its topic list. */
  function TopicCount(sessions: map<NodeId, Session>, nodeId: NodeId, topic: string): nat
  {
    if nodeId in sessions then multiset(sessions[nodeId].topics)[topic] else 0
  }

  /**
   Lists the registered peers subscribed to `topic`, each once per matching
   topic entry, in the registry's (unspecified) iteration order. Activity is
   not consulted.
   */
  method GetPeersByTopic(sessions: map<NodeId, Session>, topic: string) returns (peers: seq<NodeId>)
    ensures forall n :: multiset(peers)[n] == TopicCount(sessions, n, topic)
    ensures forall n :: n in peers <==> n in sessions && topic in sessions[n].topics
  {
    peers := [];
    var rest := sessions.Keys;
    while rest != {}
      invariant rest <= sessions.Keys
      invariant forall n :: multiset(peers)[n] == if n in rest then 0 else TopicCount(sessions, n, topic)
      decreases rest
    {
      var n :| n in rest;
      var found := MatchingEntries(n, sessions[n].topics, topic);
      peers := peers + found;
      rest := rest - {n};
    }
    forall n ensures n in peers <==> n in sessions && topic in sessions[n].topics {
      assert n in peers <==> multiset(peers)[n] > 0;
      if n in sessions {
        assert topic in sessions[n].topics <==> multiset(sessions[n].topics)[topic] > 0;
      }
    }
  }

  /** `nodeId` once for every entry of `topics` equal to `topic`. */
  method MatchingEntries(nodeId: NodeId, topics: seq<string>, topic: string) returns (found: seq<NodeId>)
    ensures forall m :: multiset(found)[m] == if m == nodeId then multiset(topics)[topic] else 0
  {
    found := [];
    var i := 0;
    while i < |topics|
      invariant 0 <= i <= |topics|
      invariant forall m :: multiset(found)[m] == if m == nodeId then multiset(topics[..i])[topic] else 0
    {
      assert topics[..i + 1] == topics[..i] + [topics[i]];
      if topics[i] == topic {
        found := found + [nodeId];
      }
      i := i + 1;
    }
    assert topics[..i] == topics;
  }

  /** Reconnect decision for one static entry: every skip rule of the heartbeat fails. */
  predicate Reconnectable(svc: Service, host: HostInfo, ep: Endpoint)
    requires ep in svc.staticNodes
  {
    && !(ep.address == host.address && ep.tcpPort == host.listenPort)
    && svc.staticNodes[ep] != svc.localId
    && !(svc.staticNodes[ep] != NullNode && IsConnected(svc, svc.staticNodes[ep]))
    && ep.address != ""
  }

  /**
   One heartbeat tick: the static endpoints that get a connection attempt.
   Skipped are this node's own endpoint, entries naming this node, entries
   whose known node is connected, and entries without an address.
   */
  method HeartBeat(svc: Service, host: HostInfo) returns (attempts: set<Endpoint>)
    ensures !svc.running ==> attempts == {}
    ensures attempts <= svc.staticNodes.Keys
    ensures forall ep :: ep in attempts ==> !(ep.address == host.address && ep.tcpPort == host.listenPort)
    ensures forall ep :: ep in attempts ==> svc.staticNodes[ep] != svc.localId
    ensures forall ep :: ep in attempts ==> svc.staticNodes[ep] == NullNode || !IsConnected(svc, svc.staticNodes[ep])
    ensures forall ep :: ep in attempts ==> ep.address != ""
    ensures forall ep :: svc.running && ep in svc.staticNodes && Reconnectable(svc, host, ep) ==> ep in attempts
  {
    attempts := {};
    if !svc.running {
      return;
    }
    var rest := svc.staticNodes.Keys;
    while rest != {}
      invariant rest <= svc.staticNodes.Keys
      invariant forall ep :: ep in attempts <==> ep in svc.staticNodes && ep !in rest && Reconnectable(svc, host, ep)
      decreases rest
    {
      var ep :| ep in rest;
      if Reconnectable(svc, host, ep) {
        attempts := attempts + {ep};
      }
      rest := rest - {ep};
    }
  }

  /** Registers (or replaces) the request handler for a protocol id. */
  function RegisterHandlerByProtocolId(svc: Service, protocolId: int, handler: Handler): (r: Service)
    ensures r.protocolHandlers.Keys == svc.protocolHandlers.Keys + {protocolId}
    ensures r.protocolHandlers[protocolId] == handler
    ensures forall p :: p in svc.protocolHandlers && p != protocolId ==>
      r.protocolHandlers[p] == svc.protocolHandlers[p]
    ensures r == svc.(protocolHandlers := r.protocolHandlers)
  {
    svc.(protocolHandlers := svc.protocolHandlers[protocolId := handler])
  }

  /** Registers (or replaces) the handler for a topic. */
  function RegisterHandlerByTopic(svc: Service, topic: string, handler: Handler): (r: Service)
    ensures r.topicHandlers.Keys == svc.topicHandlers.Keys + {topic}
    ensures r.topicHandlers[topic] == handler
    ensures forall t :: t in svc.topicHandlers && t != topic ==> r.topicHandlers[t] == svc.topicHandlers[t]
    ensures r == svc.(topicHandlers := r.topicHandlers)
  {
    svc.(topicHandlers := svc.topicHandlers[topic := handler])
  }
}
