# P2P service and JSON-RPC transaction helpers, modelled in Dafny

This project models two parts of a permissioned ledger node.

The first part is the bookkeeping core of the peer-to-peer `Service` (`libp2p/Service.cpp`). It covers:

- the session registry: connect, disconnect, and the duplicate-peer and self-connection checks;
- the static-node table and the heartbeat's reconnect decision;
- dispatch of inbound messages to protocol handlers;
- unicast send by node id, with frame length and sequence numbering;
- the topic subscriber list and the randomized failover send by topic (`TopicStatus::onResponse`);
- handler registration by protocol id and by topic.

The second part is the transaction conversions of the JSON-RPC layer (`librpc/JsonHelper.cpp`):

- `toTransactionSkeleton` decodes a JSON request into a transaction skeleton;
- `toJson` renders a transaction.

Each event handler becomes a pure transition on an immutable `Service` value. Locks, timers and the thread pool are not modelled: each handler is one atomic step. A transition returns a `Step`: the service afterwards and what the event led to.

The files are:

| file | module | contents |
|---|---|---|
| `base.dfy` | `Base` | `Option` |
| `types.dfy` | `P2PTypes` | node ids, endpoints, connections, error codes, messages, sessions |
| `service.dfy` | `P2PService` | the service state and its transitions |
| `topic_failover.dfy` | `TopicFailover` | send by topic: the corrected state machine and the one as written |
| `service_properties.dfy` | `ServiceProperties` | lemmas that relate several transitions |
| `json_helper.dfy` | `JsonHelper` | the JSON value model, the skeleton decoder, the transaction renderer |

## How the code's behaviour is represented

Foreign or unseen behaviour enters as parameters or stated assumptions:

- **Session identity.** A `shared_ptr` comparison becomes a comparison of an explicit session `id`. The ids come from a counter in the service state.
- **Sequence numbers.** The allocator `P2PMessageFactory::newSeq` is not part of this model. It is modelled as "last issued plus one", unbounded.
- **Header size.** `P2PMessage::HEADER_LENGTH` is taken to be 12 bytes. The 32-bit length field is truncated explicitly.
- **Random draws.** The generator behind the failover is an oracle `choose: nat -> nat`. The k-th draw picks index `choose(k) % |pool|`.
- **Transport replies.** What the transport answers for an active peer is an oracle `transport: NodeId -> TransportReply`. It fixes each peer's answer for a whole failover, whatever message is sent. So a peer listed twice that fails once fails again, and "a candidate that would succeed" in the failover contracts means one whose fixed answer has error code 0.
- **Error codes.** `NetErr` names the codes the service tells apart. `NoError` is code 0, the only success code. `OtherError` carries any other non-zero code, that is, one that is not the code of `Disconnect` or `DuplicateSession`. So code 0 is always `NoError`, and the service's numeric comparison with the duplicate-session code (`libp2p/Service.cpp:254`) agrees with the constructor test the model makes.
- **Handlers.** A registered `CallbackFuncWithSession` is either `Callback(tag)`, a callback known only by a tag, or `NoCallback`, an empty function object. The service drops a request whose handler is empty, as it drops one with no handler.
- **JSON conversions.** The `jsTo*` conversions and the `toJS` renderers are function parameters. A conversion that throws returns `None`.
- **Skeleton defaults.** `TransactionSkeleton` is not part of this model. Its defaults are taken to be: no creation, zero addresses, zero value, empty data, and the all-ones 256-bit marker for nonce, gas, gas price and block limit.

## Behaviour of the code worth knowing

- **Topic subscribers.** `getPeersByTopic` lists every registered session that subscribes to the topic, active or not. A node is listed once per matching topic entry (`libp2p/Service.cpp:699-707`).
- **Disconnect and the static table.** `onDisconnect` never changes the static-node table. Its clearing loop iterates over copies of the entries (`libp2p/Service.cpp:232-238`).
- **Failed connects and the static table.** A failed connection attempt does not update the static-node table. `onConnect` returns before doing so (`libp2p/Service.cpp:172-177`).
- **Exhausted failover.** When every candidate has failed, the caller's callback receives error code 0 and no message (`libp2p/Service.cpp:494-499`).
- **Repeated peers.** A topic send can try a peer twice when that peer's session lists the topic twice. `AsyncSendByTopic` proves "no peer repeated" only under `ListedOnce`.

## Model

| member | source | states |
|---|---|---|
| P2PService.IsConnected | libp2p/Service.cpp:719-735 | in a well-formed registry, a node is connected iff some active registered session belongs to it |
| P2PService.ActiveSessionOf | libp2p/Service.cpp:719-735 | in a well-formed registry, the entry filed under a node is active iff some active registered session belongs to that node |
| P2PService.UpdateStaticNodes | libp2p/Service.cpp:152-166 | the connection's endpoint gets the node id only if that endpoint is already configured; no endpoint is added, and every other entry keeps its node id |
| P2PService.OnConnect | libp2p/Service.cpp:168-217 | an error changes nothing; a node with an active session, or this node itself, is refused as a duplicate peer and the registry is unchanged; otherwise a new active session replaces the node's entry, with the id the session counter issues next, and the counter advances; in a well-formed registry that id differs from every id already registered; the configured endpoint records the node id; well-formedness of the registry is preserved |
| P2PService.OnDisconnect | libp2p/Service.cpp:219-241 | the registry entry is erased only if it is the very session reported, and every other entry stays; the static table never changes; a stale report changes nothing |
| P2PService.OnMessage | libp2p/Service.cpp:243-296 | a duplicate-session error keeps the session; any other error tears the session down; a message is dispatched exactly when it is an error-free request whose protocol id has a non-empty handler, and then to that handler; requests with no handler or an empty one, and all responses, are dropped |
| P2PService.FrameLength | libp2p/Service.cpp:367 | the frame length is the header plus the payload, reduced modulo 2^32, and equals the exact sum whenever that fits |
| P2PService.AsyncSendByNodeId | libp2p/Service.cpp:356-414 | an absent or inactive peer gets nothing, and a caller with a callback receives one Disconnect notification; an active peer gets the message with its length set and its payload unchanged; an existing sequence number is kept, and a zero one is replaced by one above every number issued before |
| P2PService.GetPeersByTopic | libp2p/Service.cpp:692-717 | each registered node appears exactly as many times as its session lists the topic, so a node appears iff it is registered and subscribes |
| P2PService.MatchingEntries | libp2p/Service.cpp:701-707 | one session's contribution: its node id, once per topic entry equal to the topic, and nothing else |
| P2PService.HeartBeat | libp2p/Service.cpp:88-137 | a stopped service dials nothing; a running one dials exactly the configured endpoints that are not this node's own listen address, do not name this node, do not name a connected node, and have an address |
| P2PService.RegisterHandlerByProtocolId | libp2p/Service.cpp:612-624 | the protocol id's handler is inserted or replaced; other protocol handlers and the rest of the state are unchanged |
| P2PService.RegisterHandlerByTopic | libp2p/Service.cpp:626-638 | the topic's handler is inserted or replaced; other topic handlers and the rest of the state are unchanged |
| TopicFailover.Succeeds | libp2p/Service.cpp:486 | a hop ends the search exactly when the drawn peer is a non-null node with an active session whose transport answers with error code 0 |
| TopicFailover.HopAccepted | libp2p/Service.cpp:356-414 | the retry test passes on the callback of a send exactly when the peer is a non-null, connected node whose transport answers with error code 0; a send to an unconnected peer never passes it |
| TopicFailover.RemoveAt | libp2p/Service.cpp:507-508 | removing the drawn candidate leaves a pool one shorter, holding exactly the other candidates |
| TopicFailover.Hop | libp2p/Service.cpp:516-519 | one failover hop reports the transport's answer from an active peer, or Disconnect with no message otherwise; the registry and the payload are unchanged |
| TopicFailover.Failover | libp2p/Service.cpp:484-526 | with the corrected retry (see Findings), the retry state machine never tries more candidates than the pool holds, nor any candidate more often than it is listed; it calls back exactly once: with the first accepted answer after failed hops only, or, if every candidate fails, with no error and no message |
| TopicFailover.ExtendRun | libp2p/Service.cpp:494-519 | putting one hop in front of the run over the remaining pool keeps it a run over the whole pool that ends in success or in exhaustion |
| TopicFailover.PrependFailure | libp2p/Service.cpp:486-508 | a failed hop in front of a run that succeeds last, or that fails throughout, keeps that shape |
| TopicFailover.PrependExhausted | libp2p/Service.cpp:494-508 | a failed hop in front of a run that tried out the rest of the pool gives a run that tried out the whole pool |
| TopicFailover.WithinPool | libp2p/Service.cpp:505-508 | the drawn candidate followed by candidates drawn from the rest of the pool are still drawn from the pool |
| TopicFailover.NotExhaustedWithSuccess | libp2p/Service.cpp:494-499 | a pool holding a candidate that would succeed never ends in the all-failed callback |
| TopicFailover.DeliversWhenReachable | libp2p/Service.cpp:484-526 | whenever some candidate in the pool would succeed, the failover ends with a successful hop and delivers that hop's answer, whatever the draws |
| TopicFailover.FailoverAsWritten | libp2p/Service.cpp:510-519 | the state machine as written retries with the failed reply's message; it either finishes within the pool or stops when an active peer would be handed an absent message |
| TopicFailover.PrependHop | libp2p/Service.cpp:505-519 | putting the drawn candidate in front of the as-written run over the rest keeps it within the pool, and keeps a run that stopped on an absent message ending at an active peer |
| TopicFailover.SecondHopDereferences | libp2p/Service.cpp:365-367 | as written, the retry to an active peer after a Disconnect failure is handed an absent message |
| TopicFailover.RetryResendsAbsentMessage | libp2p/Service.cpp:516 | as written, with one inactive and one active candidate and the inactive one drawn first, the second hop hands an absent message to the active peer |
| TopicFailover.CorrectedFailoverDelivers | libp2p/Service.cpp:484-526 | corrected, the same input delivers the active peer's answer, and the active peer is the last one tried, whatever the draws |
| TopicFailover.ExampleShowsFinding | libp2p/Service.cpp:516 | concretely: node 1 is registered but inactive, node 2 is active, both subscribe to "t", and every draw picks index 0; as written, node 2 is handed an absent message; corrected, node 2's answer is delivered |
| TopicFailover.SubPoolDistinct | libp2p/Service.cpp:474 | a general multiset fact used where `asyncSendMessageByTopic` builds its pool from the subscriber list: peers drawn from a pool without repetitions are themselves free of repetitions, which gives "no peer tried twice" under `ListedOnce` |
| TopicFailover.StartFailover | libp2p/Service.cpp:536-543 | with the corrected retry (see Findings), the first call on a non-empty pool leads to exactly one callback: the answer of the only successful hop, which is the last, or, once all candidates fail, no error and no message; it ends in success whenever some candidate would succeed |
| TopicFailover.SubscribersTried | libp2p/Service.cpp:474 | peers drawn from the subscriber list are subscribers, each drawn at most as often as it is listed |
| TopicFailover.RunOutcome | libp2p/Service.cpp:494-524 | a finished run over a non-empty pool tried someone; every hop before the last failed; a successful last hop was delivered; a failed last hop means the whole pool was tried and the callback got no error and no message |
| TopicFailover.AsyncSendByTopic | libp2p/Service.cpp:469-544 | with the corrected retry (see Findings): with no subscriber, no callback is made; otherwise there is exactly one callback; only subscribers are tried, each at most as often as it is listed; the callback gets the answer of the only successful hop, which is the last one, or, once all fail, no error and no message; the send succeeds whenever some subscriber would answer; no peer is tried twice when no session lists the topic twice |
| ServiceProperties.SecondConnectRefused | libp2p/Service.cpp:180-187 | a second connection for a node whose first session is active is refused as a duplicate peer, and the first session stays registered |
| ServiceProperties.ConnectedPeerNotRedialled | libp2p/Service.cpp:121-126 | after a configured peer connects, its endpoint names it and the heartbeat does not redial it |
| ServiceProperties.DisconnectedPeerRedialled | libp2p/Service.cpp:219-241 | after a configured peer's session disconnects, the peer is not connected, its static entry still names it, and the heartbeat redials it |
| ServiceProperties.LateDisconnectKeepsReplacement | libp2p/Service.cpp:222-223 | a late disconnect from an inactive session already replaced by a new connection leaves the new session registered and connected |
| ServiceProperties.SendAfterDisconnectFails | libp2p/Service.cpp:386-411 | after a node's registered session disconnects, a send to it fails with one Disconnect notification and changes nothing |
| ServiceProperties.SequenceNumbersDistinct | libp2p/Service.cpp:368-371 | two unnumbered messages sent in turn get non-zero, strictly increasing sequence numbers |
| ServiceProperties.ResendKeepsSequence | libp2p/Service.cpp:368 | resending a numbered message keeps its sequence number and draws no new one |
| ServiceProperties.RegisterProtocolIdempotent | libp2p/Service.cpp:612-624 | registering the same protocol handler twice equals registering it once |
| ServiceProperties.RegisterProtocolLastWins | libp2p/Service.cpp:612-624 | the later of two registrations for a protocol id wins |
| ServiceProperties.RegisterTopicLastWins | libp2p/Service.cpp:626-638 | the later of two registrations for a topic wins |
| ServiceProperties.RegisteredHandlerReceivesRequest | libp2p/Service.cpp:266-285 | a request whose protocol id was just registered is dispatched to that handler, or dropped when the handler registered is empty |
| JsonHelper.AsString | librpc/JsonHelper.cpp:59 | reading a value as a string throws iff the value is an array or an object |
| JsonHelper.Optional | librpc/JsonHelper.cpp:66-73 | an empty member is skipped; a present one throws iff reading or converting it fails, and otherwise gives the converted text |
| JsonHelper.Recipient | librpc/JsonHelper.cpp:60-64 | "to" asks for a creation iff it is missing, empty, "" or "0x"; otherwise it names the address its text converts to, or throws |
| JsonHelper.DataField | librpc/JsonHelper.cpp:75-76 | "data" is read only when it is a string, and then gives its converted bytes or throws |
| JsonHelper.ReadFields | librpc/JsonHelper.cpp:58-86 | the decoder throws iff some field read throws; otherwise every field holds what its own reader gives |
| JsonHelper.ToTransactionSkeleton | librpc/JsonHelper.cpp:52-89 | a non-object or empty value decodes to the default skeleton; otherwise decoding throws iff a field fails; the result is a creation iff "to" asks for one, and each field is its converted member or the default; "code" overrides "data"; the nonce comes from "randomid"; the definition `JsonHelper.Assemble`, which fills the fields read into the default skeleton, is what this contract is proved through |
| JsonHelper.ToJson | librpc/JsonHelper.cpp:31-50 | a null transaction renders as null; any other renders as an object with exactly the eleven transaction keys, where "to" is null iff it is a creation and otherwise the rendered recipient |
| JsonHelper.ToJsonRenders | librpc/JsonHelper.cpp:37-47 | each of the other ten keys holds its field, rendered by the renderer for its kind |
| JsonHelper.RenderedQuantity | librpc/JsonHelper.cpp:66-67 | a rendered quantity decodes back to itself when the conversion inverts the renderer |
| JsonHelper.RenderedOmits | librpc/JsonHelper.cpp:34-48 | a rendered transaction has no "data", "code", "randomid" or "blockLimit" member |
| JsonHelper.DecodeRendered | librpc/JsonHelper.cpp:31-89 | decoding a rendered transaction succeeds and keeps the creation flag, sender, recipient, value, gas and gas price, provided the conversions invert the renderers; nonce, data and block limit come back as defaults, because the renderer writes "nonce" and "input" while the decoder reads "randomid" and "data" |

## Left out

- Service start and stop, the heartbeat timer and its rescheduling (`libp2p/Service.cpp:47-87`, `139-148`): the model has no clock. `running` stands for `m_run`.
- Locking and the thread pool: each handler is one atomic step, and dispatch is reported as `Dispatched` rather than queued.
- `sendMessageByNodeID` and `sendMessageByTopic`: these blocking wrappers park a thread on a mutex until the asynchronous send calls back. They add nothing to the state.
- Multicast, broadcast, `isSessionInNodeIDList`, `sessionInfos` and `sessionInfosByProtocolID`: these are outside the modelled core.
- The transport: connection handshakes, socket I/O, message encoding and `P2PSession::start`/`stop` are not part of this model. A new session is assumed active with an empty topic list. Stopping a session is reported as `TornDown`.
- P2PService.UpdateStaticNodes: assumes the remote address is IPv4. The endpoint is built with `to_v4()` (`libp2p/Service.cpp:155`), which throws for an IPv6 remote, including an IPv4-mapped address on a dual-stack socket. The model's update is total and never throws.
- P2PService.OnConnect: assumes the remote address is IPv4, so the throw from `updateStaticNodes` never escapes. In the source it would escape `onConnect`. On the duplicate-peer and self paths (`libp2p/Service.cpp:184-185`, `192-193`), the refused session would then never be disconnected. On the accepting path, it escapes after `start()` (`libp2p/Service.cpp:203`) and before the registry update (`205-213`), so a started session would never be registered. The model always returns `Refused` or `Established` in these cases.
- P2PService.AsyncSendByNodeId: the sequence counter is unbounded, because the width and wrap-around of `newSeq` are not part of this model.
- TopicFailover.Failover: assumes the service outlives the failover. The branch where the weak pointer has expired and the state machine silently stops (`libp2p/Service.cpp:510-511`) is not modelled.
- TopicFailover.Failover: assumes a non-null caller callback and a registry that does not change while the failover runs.
- JsonHelper: hex decoding, hashing and sender recovery are foreign. They enter as conversion and renderer parameters, with no properties beyond those a lemma assumes.
- JsonHelper.ToTransactionSkeleton: the skeleton's default values are an assumption; `TransactionSkeleton` is not part of this model.

## Findings

| source | as written | input that shows it | evidently intended | confidence | as-written member | corrected member |
|---|---|---|---|---|---|---|
| libp2p/Service.cpp:516 | a failover retry resends `msg`, the message that came back with the failed answer; after a Disconnect failure that message is null (`libp2p/Service.cpp:409-410`), and the next active peer dereferences it at `libp2p/Service.cpp:367` | topic "t", node 1 registered but inactive, node 2 active, both subscribing, first draw picks node 1 | resend the caller's message `m_message` on every hop | not executed | TopicFailover.FailoverAsWritten (counterexample TopicFailover.RetryResendsAbsentMessage) | TopicFailover.Failover (TopicFailover.CorrectedFailoverDelivers and TopicFailover.ExampleShowsFinding on the same input) |
