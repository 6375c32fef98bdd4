/**
 Value types shared by the peer-to-peer service model: node identities,
 endpoints, transport connections, error codes, messages and sessions.
 Everything here is immutable; object identity (a shared pointer in the
 C++ service) is carried by an explicit `id` where the service compares it.
 */
module P2PTypes {
  import opened Base

  /** A 512-bit node identifier read as a number; 0 is the empty `NodeID()`. */
  type NodeId = nat

  const NullNode: NodeId := 0

  /** A `NodeIPEndpoint`: the key of the static-node table. */
  datatype Endpoint = Endpoint(address: string, udpPort: nat, tcpPort: nat)

  /** The remote side of a socket, as the transport reports it; the address is taken to be IPv4. */
  datatype SocketEndpoint = SocketEndpoint(address: string, port: nat)

  /** A transport session (`SessionFace`), known only by a handle and its socket's remote end. */
  datatype Connection = Connection(handle: nat, remote: SocketEndpoint)

  /** A non-zero error code: code 0 always means success. */
  type ErrorCode = c: int | c != 0 witness 1

  /**
   The error code of a `NetworkException`. `NoError` is code 0, the only
   success code; `OtherError` carries a failure code other than 0 and other
   than the codes of `Disconnect` and `DuplicateSession`.
   */
  datatype NetErr = NoError | Disconnect | DuplicateSession | OtherError(code: ErrorCode)

  /** Why a transport session is closed. */
  datatype DisconnectReason = DuplicatePeer | UserReason | ClientQuit

  /** A `P2PMessage`: the sender fills in `length` and, when it is 0, `seqNo`. */
  datatype Message = Message(protocolId: int, isRequest: bool, seqNo: nat, payload: seq<bv8>, length: nat)

  /**
   A `P2PSession`. `id` stands for the object's identity: two sessions are
   the same session exactly when their ids agree.
   */
  datatype Session = Session(id: nat, conn: Connection, nodeId: NodeId, active: bool, topics: seq<string>)

  /**
   A registered `CallbackFuncWithSession`: a callback known only by a tag,
   or an empty function object, which the service treats as no handler.
   */
  datatype Handler = Callback(tag: nat) | NoCallback

  /** One invocation of a caller's send callback: error, responding session, response. */
  datatype Delivery = Delivery(err: NetErr, session: Option<Session>, msg: Option<Message>)

  /** What the transport hands back for a message it was given to send. */
  datatype TransportReply = TransportReply(err: NetErr, reply: Option<Message>)
}
