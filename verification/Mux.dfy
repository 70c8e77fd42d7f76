/** The stream multiplexing protocol: what one endpoint does on each event. The client and the
  * server are written independently; they agree on all but the branches that take a role. */
module Mux {
  datatype Role = Client | Server

  datatype SocketState = Idle | Auth | Closing | CloseWait | Closed
  datatype StreamState = SOpen | SClosing | SCloseWait | SClosed

  type Payload = seq<nat>

  /** What is put on the socket, in order. Fin is the end of the websocket. */
  datatype Item =
    | AuthMsg
    | Goaway(lastStream: nat, errorCode: nat)
    | Data(id: nat, payload: Payload)
    | Close(id: nat)
    | Reset(id: nat, errorCode: nat)
    | Ping
    | Pong
    | Fin

  /** The callbacks of a stream. A close notes whether a close frame caused it, or the end of
    * the socket. */
  datatype Call = OnData(payload: Payload) | OnClose(byFrame: bool) | OnError(errorCode: nat)

  /** A stream object, with the callbacks made on it so far. */
  datatype Stream = Stream(state: StreamState, calls: seq<Call>)

  /** `streams` has every stream object ever made, `active` those the socket still knows; `out`
    * is all that was put on the socket. */
  datatype Endpoint = Endpoint(state: SocketState, streams: map<nat, Stream>, active: set<nat>,
                               watermark: nat, next: nat, out: seq<Item>)

  /** Clients open odd streams, servers even ones. */
  function Parity(role: Role): nat {
    if role.Client? then 1 else 0
  }

  function Initial(role: Role): Endpoint {
    Endpoint(Idle, map[], {}, 0, if role.Client? then 1 else 2, [])
  }

  // ------------------------------------------------------------------------------------------
  // Stream automaton, driven by the socket
  // ------------------------------------------------------------------------------------------

  function OnStreamClose(s: Stream, byFrame: bool): Stream {
    match s.state
    case SClosed => s
    case SCloseWait => s
    case SOpen => Stream(SCloseWait, s.calls + [OnClose(byFrame)])
    case SClosing => Stream(SClosed, s.calls + [OnClose(byFrame)])
  }

  /** What onStreamClose returns: whether the stream is over. */
  predicate NowOver(s: Stream) {
    s.state == SClosed || s.state == SClosing
  }

  function OnStreamError(s: Stream, errorCode: nat): Stream {
    if s.state == SClosed then s else Stream(SClosed, s.calls + [OnError(errorCode)])
  }

  function OnStreamData(s: Stream, payload: Payload): Stream {
    match s.state
    case SClosed => s
    case SCloseWait => s
    case SClosing => s.(calls := s.calls + [OnData(payload)])
    case SOpen => s.(calls := s.calls + [OnData(payload)])
  }

  // ------------------------------------------------------------------------------------------
  // Stream automaton, driven by its user
  // ------------------------------------------------------------------------------------------

  /** A socket puts stream frames on the wire in these states. */
  predicate CanSend(state: SocketState) {
    state == Auth || state == CloseWait
  }

  function SetStream(e: Endpoint, id: nat, state: StreamState): Endpoint
    requires id in e.streams
  {
    e.(streams := e.streams[id := e.streams[id].(state := state)])
  }

  /** streamClose of the socket. */
  function SocketStreamClose(e: Endpoint, id: nat, nowClosed: bool): Endpoint {
    if CanSend(e.state)
    then e.(out := e.out + [Close(id)], active := if nowClosed then e.active - {id} else e.active)
    else e
  }

  /** streamError of the socket. */
  function SocketStreamError(e: Endpoint, id: nat, errorCode: nat): Endpoint {
    if CanSend(e.state) then e.(out := e.out + [Reset(id, errorCode)], active := e.active - {id}) else e
  }

  /** streamSend of the socket. */
  function SocketStreamSend(e: Endpoint, id: nat, payload: Payload): Endpoint {
    if CanSend(e.state) then e.(out := e.out + [Data(id, payload)]) else e
  }

  function StreamClose(e: Endpoint, id: nat): Endpoint
    requires id in e.streams
  {
    match e.streams[id].state
    case SClosing => e
    case SClosed => e
    case SOpen => SocketStreamClose(SetStream(e, id, SClosing), id, false)
    case SCloseWait => SocketStreamClose(SetStream(e, id, SClosed), id, true)
  }

  function StreamError(e: Endpoint, id: nat, errorCode: nat): Endpoint
    requires id in e.streams
  {
    match e.streams[id].state
    case SClosed => e
    case SClosing => SetStream(e, id, SClosed)
    case SOpen => SocketStreamError(SetStream(e, id, SClosed), id, errorCode)
    case SCloseWait => SocketStreamError(SetStream(e, id, SClosed), id, errorCode)
  }

  function StreamSend(e: Endpoint, id: nat, payload: Payload): Endpoint
    requires id in e.streams
  {
    match e.streams[id].state
    case SClosing => e
    case SClosed => e
    case SOpen => SocketStreamSend(e, id, payload)
    case SCloseWait => SocketStreamSend(e, id, payload)
  }

  // ------------------------------------------------------------------------------------------
  // Socket automaton
  // ------------------------------------------------------------------------------------------

  /** Every active stream is told that the socket is in error. */
  function ErrorActive(e: Endpoint, errorCode: nat): map<nat, Stream> {
    map id | id in e.streams :: if id in e.active then OnStreamError(e.streams[id], errorCode) else e.streams[id]
  }

  /** Every active stream is told that the socket has ended. */
  function CloseActive(e: Endpoint): map<nat, Stream> {
    map id | id in e.streams :: if id in e.active then OnStreamClose(e.streams[id], false) else e.streams[id]
  }

  /** close() on each stream of `order`, one after the other. */
  function CloseEach(e: Endpoint, order: seq<nat>): Endpoint
    requires forall k :: 0 <= k < |order| ==> order[k] in e.streams
    decreases |order|
  {
    if order == [] then e
    else
      var e' := StreamClose(e, order[0]);
      assert e'.streams.Keys == e.streams.Keys;
      CloseEach(e', order[1..])
  }

  function OpenStream(e: Endpoint): Endpoint {
    if e.state == Auth
    then e.(streams := e.streams[e.next := Stream(SOpen, [])], active := e.active + {e.next}, next := e.next + 2)
    else e
  }

  /** closeSocket; `order` is the order in which the active streams are visited. */
  function CloseSocket(e: Endpoint, order: seq<nat>): Endpoint
    requires forall k :: 0 <= k < |order| ==> order[k] in e.streams
  {
    match e.state
    case Closing => e
    case Closed => e
    case Idle => e.(active := {}, state := Closed, out := e.out + [Fin])
    case CloseWait =>
      var e' := CloseEach(e, order);
      e'.(active := {}, state := Closed, out := e'.out + [Fin])
    case Auth =>
      var e' := CloseEach(e, order);
      e'.(state := Closing, out := e'.out + [Fin])
  }

  function LastStream(e: Endpoint): nat {
    if e.next < 2 then e.watermark else if e.next - 2 > e.watermark then e.next - 2 else e.watermark
  }

  /** errorSocket. A server also tells its peer when it is still idle. */
  function ErrorSocket(role: Role, e: Endpoint, errorCode: nat): Endpoint {
    if e.state == Closing || e.state == Closed || (role.Client? && e.state == Idle)
    then e.(active := {}, state := Closed)
    else e.(streams := ErrorActive(e, errorCode), active := {}, state := Closed,
            out := e.out + [Goaway(LastStream(e), errorCode), Fin])
  }

  /** sendAuth of the client: at the start, and again whenever the timer fires. */
  function SendAuth(e: Endpoint): Endpoint {
    if e.state == Idle || e.state == Auth then e.(state := Auth, out := e.out + [AuthMsg]) else e
  }

  function SendPing(e: Endpoint): Endpoint {
    if CanSend(e.state) then e.(out := e.out + [Ping]) else e
  }

  function OnSocketClose(e: Endpoint): Endpoint {
    match e.state
    case CloseWait => e
    case Closed => e
    case Idle => e.(streams := CloseActive(e), state := CloseWait)
    case Auth => e.(streams := CloseActive(e), state := CloseWait)
    case Closing => e.(streams := CloseActive(e), active := {}, state := Closed)
  }

  function OnSocketError(e: Endpoint, errorCode: nat): Endpoint {
    if e.state == Closed then e
    else e.(streams := ErrorActive(e, errorCode), active := {}, state := Closed)
  }

  function Answer(e: Endpoint): Endpoint {
    if CanSend(e.state) then e.(out := e.out + [Pong]) else e
  }

  predicate Fresh(role: Role, e: Endpoint, id: nat) {
    id !in e.active && e.state == Auth && id % 2 != Parity(role) && id > e.watermark
  }

  function OnDataMsg(role: Role, e: Endpoint, id: nat, payload: Payload): Endpoint {
    if id in e.active && id in e.streams then e.(streams := e.streams[id := OnStreamData(e.streams[id], payload)])
    else if Fresh(role, e, id) then
      e.(watermark := id, active := e.active + {id},
         streams := e.streams[id := OnStreamData(Stream(SOpen, []), payload)])
    else e
  }

  function OnCloseMsg(e: Endpoint, id: nat): Endpoint {
    if id in e.active && id in e.streams then
      e.(streams := e.streams[id := OnStreamClose(e.streams[id], true)],
         active := if NowOver(e.streams[id]) then e.active - {id} else e.active)
    else e
  }

  /** A reset stream is over. Only the client also forgets it. */
  function OnResetMsg(role: Role, e: Endpoint, id: nat, errorCode: nat): Endpoint {
    if id in e.active && id in e.streams then
      e.(streams := e.streams[id := OnStreamError(e.streams[id], errorCode)],
         active := if role.Client? then e.active - {id} else e.active)
    else e
  }

  /** onSocketMessage. `verified` is the outcome of checking an auth message. */
  function OnSocketMessage(role: Role, e: Endpoint, msg: Item, verified: bool): Endpoint
    requires !msg.Fin?
  {
    match e.state
    case CloseWait => e
    case Closed => e
    case Idle =>
      if role.Client? then e
      else (
        match msg
        case AuthMsg => if verified then e.(state := Auth) else ErrorSocket(role, e, 1002)
        case Goaway(_, code) => OnSocketError(e, code)
        case Data(_, _) => OnSocketError(e, 1001)
        case Close(_) => OnSocketError(e, 1001)
        case Reset(_, _) => OnSocketError(e, 1001)
        case Ping => e
        case Pong => e
      )
    case _ =>
      match msg
      case AuthMsg => if role.Server? && !verified then ErrorSocket(role, e, 1002) else e
      case Goaway(_, code) => OnSocketError(e, code)
      case Data(id, payload) => OnDataMsg(role, e, id, payload)
      case Close(id) => OnCloseMsg(e, id)
      case Reset(id, code) => OnResetMsg(role, e, id, code)
      case Ping => Answer(e)
      case Pong => e
  }

  function Receive(role: Role, e: Endpoint, item: Item, verified: bool): Endpoint {
    if item.Fin? then OnSocketClose(e) else OnSocketMessage(role, e, item, verified)
  }
}
