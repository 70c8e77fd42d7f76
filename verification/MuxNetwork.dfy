/** A client and a server joined by two FIFO channels, and what holds in every run. A channel is
  * all that its sender put on the socket together with how much the receiver has taken. */
module MuxNetwork {
  import opened Mux
  import opened MuxSafety

  datatype World = World(client: Endpoint, server: Endpoint, atClient: nat, atServer: nat)

  datatype Action =
    | Open
    | CloseSock(order: seq<nat>)
    | ErrorSock(errorCode: nat)
    | Authenticate
    | SendPing
    | CloseStream(id: nat)
    | ErrorStream(id: nat, errorCode: nat)
    | Send(id: nat, payload: Payload)
    | Break(errorCode: nat)
    | Arrive(verified: bool)

  datatype Event = Event(role: Role, action: Action)

  function Other(role: Role): Role {
    if role.Client? then Server else Client
  }

  /** `order` visits each active stream once. */
  predicate Visits(order: seq<nat>, active: set<nat>) {
    && (forall k :: 0 <= k < |order| ==> order[k] in active)
    && (forall id :: id in active ==> id in order)
    && (forall j, k :: 0 <= j < k < |order| ==> order[j] != order[k])
  }

  /** What an endpoint does of its own accord. Only clients authenticate and ping. */
  function Act(role: Role, e: Endpoint, action: Action): Endpoint {
    match action
    case Open => OpenStream(e)
    case CloseSock(order) =>
      if Visits(order, e.active) && e.active <= e.streams.Keys then CloseSocket(e, order) else e
    case ErrorSock(code) => ErrorSocket(role, e, code)
    case Authenticate => if role.Client? then SendAuth(e) else e
    case SendPing => if role.Client? then Mux.SendPing(e) else e
    case CloseStream(id) => if id in e.streams then StreamClose(e, id) else e
    case ErrorStream(id, code) => if id in e.streams then StreamError(e, id, code) else e
    case Send(id, payload) => if id in e.streams then StreamSend(e, id, payload) else e
    case Break(code) => OnSocketError(e, code)
    case Arrive(_) => e
  }

  function Step(w: World, ev: Event): World {
    match ev
    case Event(Client, Arrive(verified)) =>
      if w.atClient < |w.server.out|
      then w.(client := Receive(Client, w.client, w.server.out[w.atClient], verified), atClient := w.atClient + 1)
      else w
    case Event(Server, Arrive(verified)) =>
      if w.atServer < |w.client.out|
      then w.(server := Receive(Server, w.server, w.client.out[w.atServer], verified), atServer := w.atServer + 1)
      else w
    case Event(Client, action) => w.(client := Act(Client, w.client, action))
    case Event(Server, action) => w.(server := Act(Server, w.server, action))
  }

  /** The world after a run. */
  function Run(events: seq<Event>): World {
    if events == [] then World(Initial(Client), Initial(Server), 0, 0)
    else Step(Run(Init(events)), Last(events))
  }

  // ------------------------------------------------------------------------------------------
  // Wires only grow
  // ------------------------------------------------------------------------------------------

  /** No stream object is lost or replaced, no callback is undone, and a stream that is over
    * stays as it is. */
  ghost predicate Keeps(e: Endpoint, e': Endpoint) {
    forall id :: id in e.streams ==>
      && id in e'.streams && e.streams[id].calls <= e'.streams[id].calls
      && (e.streams[id].state == SClosed ==> e'.streams[id] == e.streams[id])
  }

  ghost predicate Grows(e: Endpoint, e': Endpoint) {
    e.out <= e'.out && Keeps(e, e')
  }

  lemma KeepsChains(e: Endpoint, e': Endpoint, e'': Endpoint)
    requires Grows(e, e') && Grows(e', e'')
    ensures Grows(e, e'')
  {
  }

  lemma StreamCloseGrows(e: Endpoint, id: nat)
    requires id in e.streams
    ensures Grows(e, StreamClose(e, id))
  {
  }

  lemma {:induction false} CloseEachGrows(e: Endpoint, order: seq<nat>)
    requires forall k :: 0 <= k < |order| ==> order[k] in e.streams
    ensures var e' := CloseEach(e, order);
      e.out <= e'.out && Keeps(e, e') && e'.state == e.state && (AuthMsg in e'.out ==> AuthMsg in e.out)
    decreases |order|
  {
    if order != [] {
      var e' := StreamClose(e, order[0]);
      assert e'.state == e.state && e'.streams.Keys == e.streams.Keys && (AuthMsg in e'.out ==> AuthMsg in e.out);
      StreamCloseGrows(e, order[0]);
      CloseEachGrows(e', order[1..]);
      KeepsChains(e, e', CloseEach(e, order));
    }
  }

  lemma ErrorActiveGrows(e: Endpoint, errorCode: nat)
    ensures Keeps(e, e.(streams := ErrorActive(e, errorCode)))
  {
  }

  lemma OpenGrows(role: Role, e: Endpoint)
    requires EndpointOk(role, e)
    ensures Grows(e, OpenStream(e))
  {
    hide WireOk, CallsOk, ActiveOk;
  }

  lemma CloseSocketGrows(role: Role, e: Endpoint, order: seq<nat>)
    requires forall k :: 0 <= k < |order| ==> order[k] in e.streams
    ensures Grows(e, CloseSocket(e, order))
  {
    CloseEachGrows(e, order);
  }

  lemma ErrorSocketGrows(role: Role, e: Endpoint, errorCode: nat)
    ensures Grows(e, ErrorSocket(role, e, errorCode)) && Grows(e, OnSocketError(e, errorCode))
  {
    ErrorActiveGrows(e, errorCode);
  }

  lemma StreamErrorGrows(e: Endpoint, id: nat, errorCode: nat)
    requires id in e.streams
    ensures Grows(e, StreamError(e, id, errorCode))
  {
  }

  lemma StreamSendGrows(e: Endpoint, id: nat, payload: Payload)
    requires id in e.streams
    ensures Grows(e, StreamSend(e, id, payload))
  {
  }

  lemma ActGrows(role: Role, e: Endpoint, action: Action)
    requires EndpointOk(role, e)
    ensures Grows(e, Act(role, e, action))
  {
    hide EndpointOk, OpenStream, CloseSocket, ErrorSocket, OnSocketError, StreamClose, StreamError, StreamSend, Visits;
    match action {
      case Open => OpenGrows(role, e);
      case CloseSock(order) =>
        if Visits(order, e.active) && e.active <= e.streams.Keys {
          VisitsExist(order, e);
          CloseSocketGrows(role, e, order);
        }
      case ErrorSock(code) => ErrorSocketGrows(role, e, code);
      case CloseStream(id) => if id in e.streams { StreamCloseGrows(e, id); }
      case ErrorStream(id, code) => if id in e.streams { StreamErrorGrows(e, id, code); }
      case Send(id, payload) => if id in e.streams { StreamSendGrows(e, id, payload); }
      case Break(code) => ErrorSocketGrows(role, e, code);
      case _ =>
    }
  }

  lemma OnSocketCloseGrows(e: Endpoint)
    ensures Grows(e, OnSocketClose(e))
  {
  }

  lemma AnswerGrows(e: Endpoint)
    ensures Grows(e, Answer(e)) && Grows(e, e)
    ensures Grows(e, e.(state := Auth))
  {
  }

  lemma DataMsgGrows(role: Role, e: Endpoint, id: nat, payload: Payload)
    requires IdsOk(role, e)
    ensures Grows(e, OnDataMsg(role, e, id, payload))
  {
    assert Fresh(role, e, id) ==> id !in e.streams;
  }

  lemma CloseMsgGrows(e: Endpoint, id: nat)
    ensures Grows(e, OnCloseMsg(e, id))
  {
  }

  lemma ResetMsgGrows(role: Role, e: Endpoint, id: nat, errorCode: nat)
    ensures Grows(e, OnResetMsg(role, e, id, errorCode))
  {
  }

  lemma ReceiveGrows(role: Role, e: Endpoint, i: Item, verified: bool)
    requires IdsOk(role, e)
    ensures Grows(e, Receive(role, e, i, verified))
  {
    hide Grows, IdsOk, OnSocketClose, ErrorSocket, OnSocketError, OnDataMsg, OnCloseMsg, OnResetMsg;
    AnswerGrows(e);
    match i {
      case Fin => OnSocketCloseGrows(e);
      case AuthMsg => ErrorSocketGrows(role, e, 1002);
      case Goaway(_, code) => ErrorSocketGrows(role, e, code);
      case Data(id, payload) => DataMsgGrows(role, e, id, payload); ErrorSocketGrows(role, e, 1001);
      case Close(id) => CloseMsgGrows(e, id); ErrorSocketGrows(role, e, 1001);
      case Reset(id, code) => ResetMsgGrows(role, e, id, code); ErrorSocketGrows(role, e, 1001);
      case _ =>
    }
  }

  // ------------------------------------------------------------------------------------------
  // Wires
  // ------------------------------------------------------------------------------------------

  /** A longer wire: more frames, but no more data of a stream that has ended. */
  lemma {:induction false} WireGrows(wire: seq<Item>, k: nat, id: nat)
    requires k <= |wire| && Tame(wire)
    ensures Tame(wire[..k]) && Named(wire[..k]) <= Named(wire)
    ensures DataOf(wire[..k], id) <= DataOf(wire, id)
    ensures id in Ended(wire[..k]) ==> id in Ended(wire) && DataOf(wire[..k], id) == DataOf(wire, id)
  {
    if k == |wire| {
      assert wire[..k] == wire;
    } else {
      WireGrows(Init(wire), k, id);
      assert Init(wire)[..k] == wire[..k];
    }
  }

  lemma {:induction false} DataNamed(wire: seq<Item>, id: nat)
    requires DataOf(wire, id) != []
    ensures id in Named(wire)
  {
    if !(Last(wire).Data? && Last(wire).id == id) {
      DataNamed(Init(wire), id);
    }
  }

  lemma {:induction false} FrameNamed(wire: seq<Item>, k: nat)
    requires k < |wire| && IsStreamFrame(wire[k])
    ensures wire[k].id in Named(wire)
  {
    if k < |wire| - 1 {
      FrameNamed(Init(wire), k);
    }
  }

  lemma TakeOne(wire: seq<Item>, k: nat)
    requires k < |wire|
    ensures wire[..k + 1] == wire[..k] + [wire[k]]
  {
  }

  // ------------------------------------------------------------------------------------------
  // The invariant of the pair
  // ------------------------------------------------------------------------------------------

  /** One side of the pair: what arrived is what the peer sent first. */
  ghost predicate SideOk(role: Role, me: Endpoint, peer: Endpoint, taken: nat) {
    taken <= |peer.out| && Ok(role, me, peer.out[..taken])
  }

  /** An endpoint was authenticated. */
  ghost predicate Awake(e: Endpoint) {
    e.streams != map[] || Listening(e.state)
  }

  /** A server that was ever authenticated has taken an auth message, which a client that is
    * still idle has not sent. */
  ghost predicate Handshake(w: World) {
    && (AuthMsg in w.client.out ==> w.client.state != Idle)
    && (Awake(w.server) ==> AuthMsg in w.client.out)
  }

  ghost predicate WorldOk(w: World) {
    && SideOk(Client, w.client, w.server, w.atClient)
    && SideOk(Server, w.server, w.client, w.atServer)
    && Handshake(w)
  }

  /** Whatever the peer sends about one of my streams, I have that stream. */
  lemma PeerNamesMine(role: Role, me: Endpoint, peer: Endpoint, atMe: nat, atPeer: nat, id: nat)
    requires SideOk(role, me, peer, atMe) && SideOk(Other(role), peer, me, atPeer)
    requires id in Named(peer.out) && id % 2 == Parity(role)
    ensures id in me.streams
  {
    assert id in peer.streams;
    assert StreamDelivery(Other(role), peer, me.out[..atPeer], id);
    DataNamed(me.out[..atPeer], id);
    WireGrows(me.out, atPeer, id);
  }

  lemma NextUnseen(role: Role, me: Endpoint, peer: Endpoint, atMe: nat, atPeer: nat)
    requires SideOk(role, me, peer, atMe) && SideOk(Other(role), peer, me, atPeer)
    ensures DataOf(peer.out[..atMe], me.next) == []
  {
    if DataOf(peer.out[..atMe], me.next) != [] {
      DataNamed(peer.out[..atMe], me.next);
      WireGrows(peer.out, atMe, me.next);
      PeerNamesMine(role, me, peer, atMe, atPeer, me.next);
    }
  }

  lemma ActOk(role: Role, me: Endpoint, arrived: seq<Item>, action: Action)
    requires Ok(role, me, arrived) && DataOf(arrived, me.next) == []
    ensures Ok(role, Act(role, me, action), arrived)
  {
    hide Ok, Visits;
    match action {
      case Open => OpenStreamOk(role, me, arrived);
      case CloseSock(order) =>
        if Visits(order, me.active) && me.active <= me.streams.Keys {
          VisitsExist(order, me);
          CloseSocketOk(role, me, arrived, order);
        }
      case ErrorSock(code) => ErrorSocketOk(role, me, arrived, code);
      case Authenticate => SendAuthOk(role, me, arrived);
      case SendPing => if CanSend(me.state) { PlainSendOk(role, me, arrived, Ping); }
      case CloseStream(id) => if id in me.streams { StreamCloseOk(role, me, arrived, id); }
      case ErrorStream(id, code) => if id in me.streams { StreamErrorOk(role, me, arrived, id, code); }
      case Send(id, payload) => if id in me.streams { StreamSendOk(role, me, arrived, id, payload); }
      case Break(code) => OnSocketErrorOk(role, me, arrived, code);
      case Arrive(_) =>
    }
  }

  lemma VisitsExist(order: seq<nat>, e: Endpoint)
    requires Visits(order, e.active) && e.active <= e.streams.Keys
    ensures forall k :: 0 <= k < |order| ==> order[k] in e.streams
  {
  }

  /** One side acts, the other only sees a longer wire. */
  lemma SideActs(role: Role, me: Endpoint, peer: Endpoint, atMe: nat, atPeer: nat, action: Action)
    requires SideOk(role, me, peer, atMe) && SideOk(Other(role), peer, me, atPeer)
    ensures var me' := Act(role, me, action);
      SideOk(role, me', peer, atMe) && SideOk(Other(role), peer, me', atPeer)
  {
    hide Act, Ok, Grows, EndpointOk, DataOf;
    NextUnseen(role, me, peer, atMe, atPeer);
    SideEndpointOk(role, me, peer, atMe);
    ActOk(role, me, peer.out[..atMe], action);
    ActGrows(role, me, action);
    SamePrefix(me, Act(role, me, action), atPeer);
  }

  /** One side takes the next item. */
  lemma SideReceives(role: Role, me: Endpoint, peer: Endpoint, atMe: nat, atPeer: nat, verified: bool)
    requires SideOk(role, me, peer, atMe) && SideOk(Other(role), peer, me, atPeer) && atMe < |peer.out|
    requires role.Client? && me.state == Idle ==> !peer.out[atMe].Data?
    ensures var me' := Receive(role, me, peer.out[atMe], verified);
      SideOk(role, me', peer, atMe + 1) && SideOk(Other(role), peer, me', atPeer)
  {
    hide Receive, Ok, Grows, EndpointOk, Named, Ended, Tame, DataOf, IdsOk;
    var i := peer.out[atMe];
    TakeOne(peer.out, atMe);
    SideEndpointOk(role, me, peer, atMe);
    EndpointIds(role, me);
    SideEndpointOk(Other(role), peer, me, atPeer);
    EndpointTame(Other(role), peer);
    WireGrows(peer.out, atMe + 1, 0);
    if i.Data? && i.id % 2 == Parity(role) {
      FrameNamed(peer.out, atMe);
      PeerNamesMine(role, me, peer, atMe, atPeer, i.id);
    }
    ReceiveOk(role, me, peer.out[..atMe], i, verified);
    ReceiveGrows(role, me, i, verified);
    SamePrefix(me, Receive(role, me, i, verified), atPeer);
  }

  lemma EndpointTame(role: Role, e: Endpoint)
    requires EndpointOk(role, e)
    ensures Tame(e.out)
  {
  }

  lemma SamePrefix(e: Endpoint, e': Endpoint, at: nat)
    requires Grows(e, e') && at <= |e.out|
    ensures at <= |e'.out| && e'.out[..at] == e.out[..at]
  {
  }

  lemma IdleClientHearsNothing(w: World)
    requires WorldOk(w) && w.client.state == Idle && w.atClient < |w.server.out|
    ensures !w.server.out[w.atClient].Data?
  {
    if w.server.out[w.atClient].Data? {
      FrameNamed(w.server.out, w.atClient);
    }
  }

  lemma {:induction false} CloseEachSnoc(e: Endpoint, order: seq<nat>, id: nat)
    requires id in e.streams && forall k :: 0 <= k < |order| ==> order[k] in e.streams
    ensures CloseEach(e, order).streams.Keys == e.streams.Keys
    ensures CloseEach(e, order + [id]) == StreamClose(CloseEach(e, order), id)
    decreases |order|
  {
    if order == [] {
      assert [id][1..] == [];
    } else {
      assert (order + [id])[1..] == order[1..] + [id];
      CloseEachSnoc(StreamClose(e, order[0]), order[1..], id);
    }
  }

  // The handshake

  lemma {:induction false} CloseEachKeys(e: Endpoint, order: seq<nat>)
    requires forall k :: 0 <= k < |order| ==> order[k] in e.streams
    ensures CloseEach(e, order).streams.Keys == e.streams.Keys && CloseEach(e, order).state == e.state
    decreases |order|
  {
    if order != [] {
      CloseEachKeys(StreamClose(e, order[0]), order[1..]);
    }
  }

  /** Only sendAuth puts an auth message on the wire, and only from a state it leaves behind; no
    * other step brings a client out of Idle but to stay out. */
  lemma ClientHandshake(role: Role, e: Endpoint, action: Action)
    requires AuthMsg in e.out ==> e.state != Idle
    ensures var e' := Act(role, e, action); AuthMsg in e'.out ==> e'.state != Idle
  {
    if action.CloseSock? && Visits(action.order, e.active) && e.active <= e.streams.Keys {
      CloseEachGrows(e, action.order);
    }
  }

  lemma ClientHandshakeReceive(role: Role, e: Endpoint, i: Item, verified: bool)
    requires AuthMsg in e.out ==> e.state != Idle
    ensures var e' := Receive(role, e, i, verified); AuthMsg in e'.out ==> e'.state != Idle
  {
  }

  /** An idle server wakes only by an auth message. */
  lemma WakesByAuth(e: Endpoint, i: Item, verified: bool)
    requires !Awake(e) && Awake(Receive(Server, e, i, verified))
    ensures i == AuthMsg
  {
    assert e.streams == map[];
  }

  lemma WakesNotAlone(e: Endpoint, action: Action)
    requires !Awake(e)
    ensures !Awake(Act(Server, e, action))
  {
  }

  lemma HandshakeKept(w: World, ev: Event)
    requires WorldOk(w)
    ensures Handshake(Step(w, ev))
  {
    hide Act, Receive, Ok, Awake, Keeps, EndpointOk, DeliveryOk;
    match ev {
      case Event(Client, Arrive(verified)) =>
        if w.atClient < |w.server.out| {
          SideEndpointOk(Client, w.client, w.server, w.atClient);
          ClientHandshakeReceive(Client, w.client, w.server.out[w.atClient], verified);
          ReceiveGrows(Client, w.client, w.server.out[w.atClient], verified);
        }
      case Event(Server, Arrive(verified)) =>
        if w.atServer < |w.client.out| && !Awake(w.server) && Awake(Step(w, ev).server) {
          WakesByAuth(w.server, w.client.out[w.atServer], verified);
        }
      case Event(Client, action) =>
        SideEndpointOk(Client, w.client, w.server, w.atClient);
        ClientHandshake(Client, w.client, action);
        ActGrows(Client, w.client, action);
      case Event(Server, action) =>
        if !Awake(w.server) { WakesNotAlone(w.server, action); }
    }
  }

  lemma SideEndpointOk(role: Role, me: Endpoint, peer: Endpoint, taken: nat)
    requires SideOk(role, me, peer, taken)
    ensures EndpointOk(role, me)
  {
  }

  lemma StepOk(w: World, ev: Event)
    requires WorldOk(w)
    ensures WorldOk(Step(w, ev))
  {
    hide SideOk, Handshake, Act, Receive;
    HandshakeKept(w, ev);
    match ev {
      case Event(Client, Arrive(verified)) =>
        if w.atClient < |w.server.out| {
          if w.client.state == Idle { IdleClientHearsNothing(w); }
          SideReceives(Client, w.client, w.server, w.atClient, w.atServer, verified);
        }
      case Event(Server, Arrive(verified)) =>
        if w.atServer < |w.client.out| {
          SideReceives(Server, w.server, w.client, w.atServer, w.atClient, verified);
        }
      case Event(Client, action) => SideActs(Client, w.client, w.server, w.atClient, w.atServer, action);
      case Event(Server, action) => SideActs(Server, w.server, w.client, w.atServer, w.atClient, action);
    }
  }

  /** Every reachable world satisfies the invariant. */
  lemma {:induction false} RunOk(events: seq<Event>)
    ensures WorldOk(Run(events))
  {
    if events == [] {
      InitialOk(Client);
      InitialOk(Server);
    } else {
      RunOk(Init(events));
      StepOk(Run(Init(events)), Last(events));
    }
  }

  // ------------------------------------------------------------------------------------------
  // What users of the two sockets can rely on, in every run
  // ------------------------------------------------------------------------------------------

  function Side(role: Role, w: World): Endpoint {
    if role.Client? then w.client else w.server
  }

  function Taken(role: Role, w: World): nat {
    if role.Client? then w.atClient else w.atServer
  }

  lemma RunSide(events: seq<Event>, role: Role)
    ensures SideOk(role, Side(role, Run(events)), Side(Other(role), Run(events)), Taken(role, Run(events)))
  {
    RunOk(events);
  }

  /** Payloads are delivered in the order of sending, without loss, repetition or invention, and
    * completely when a close frame ends the stream. */
  lemma DeliveredInOrder(events: seq<Event>, role: Role, id: nat)
    requires id in Side(role, Run(events)).streams
    ensures var calls := Side(role, Run(events)).streams[id].calls;
      var sent := DataOf(Side(Other(role), Run(events)).out, id);
      && Delivered(calls) <= sent
      && (OnClose(true) in calls ==> Delivered(calls) == sent)
  {
    RunSide(events, role);
    var me, peer, taken := Side(role, Run(events)), Side(Other(role), Run(events)), Taken(role, Run(events));
    RunSide(events, Other(role));
    assert StreamDelivery(role, me, peer.out[..taken], id);
    WireGrows(peer.out, taken, id);
  }

  /** A close frame that reaches a listening socket, for a stream that still expects data, is
    * reported; by then all data of the stream was delivered. */
  lemma CloseFrameReported(events: seq<Event>, role: Role, id: nat, verified: bool)
    requires var me, peer := Side(role, Run(events)), Side(Other(role), Run(events));
      && Taken(role, Run(events)) < |peer.out| && peer.out[Taken(role, Run(events))] == Close(id)
      && Listening(me.state) && id in me.streams
      && (me.streams[id].state == SOpen || me.streams[id].state == SClosing)
    ensures var w := Run(events + [Event(role, Arrive(verified))]);
      && id in Side(role, w).streams
      && Side(role, w).streams[id].calls == Side(role, Run(events)).streams[id].calls + [OnClose(true)]
      && Delivered(Side(role, w).streams[id].calls) == DataOf(Side(Other(role), w).out, id)
  {
    var more := events + [Event(role, Arrive(verified))];
    assert Init(more) == events && Last(more) == Event(role, Arrive(verified));
    assert id in Side(role, Run(events)).active by { RunSide(events, role); }
    assert id in Side(role, Run(more)).streams;
    DeliveredInOrder(more, role, id);
  }

  /** The callbacks of a stream: data, then at most one close, then at most one error. */
  ghost predicate CallPattern(calls: seq<Call>) {
    || AllData(calls)
    || (&& calls != [] && !Last(calls).OnData?
        && (|| AllData(Init(calls))
            || (&& |calls| >= 2 && Last(calls).OnError? && Last(Init(calls)).OnClose? && AllData(Init(Init(calls))))))
  }

  lemma CallbacksInOrder(events: seq<Event>, role: Role, id: nat)
    requires id in Side(role, Run(events)).streams
    ensures CallPattern(Side(role, Run(events)).streams[id].calls)
  {
    RunSide(events, role);
    assert CallsFit(Side(role, Run(events)).streams[id]);
    PhasePattern(Side(role, Run(events)).streams[id].calls);
  }

  /** The frames of one stream on a wire. */
  function FramesOf(wire: seq<Item>, id: nat): seq<Item> {
    if wire == [] then []
    else FramesOf(Init(wire), id) + if IsStreamFrame(Last(wire)) && Last(wire).id == id then [Last(wire)] else []
  }

  predicate DataFrames(frames: seq<Item>) {
    forall k :: 0 <= k < |frames| ==> frames[k].Data?
  }

  lemma FramesSnoc(wire: seq<Item>, id: nat)
    ensures wire == [] ==> FramesOf(wire, id) == []
    ensures wire != [] && IsStreamFrame(Last(wire)) && Last(wire).id == id ==>
      FramesOf(wire, id) == FramesOf(Init(wire), id) + [Last(wire)]
    ensures wire != [] && !(IsStreamFrame(Last(wire)) && Last(wire).id == id) ==>
      FramesOf(wire, id) == FramesOf(Init(wire), id)
  {
  }

  lemma {:induction false} TameFrames(wire: seq<Item>, id: nat)
    requires Tame(wire)
    ensures FramesOf(wire, id) != [] ==> DataFrames(Init(FramesOf(wire, id)))
    ensures id !in Ended(wire) ==> DataFrames(FramesOf(wire, id))
  {
    hide FramesOf, Tame, Ended, DataOf, Named;
    FramesSnoc(wire, id);
    if wire != [] {
      Snoc(Init(wire), Last(wire));
      assert Init(wire) + [Last(wire)] == wire;
      TameFrames(Init(wire), id);
      var before, frames := FramesOf(Init(wire), id), FramesOf(wire, id);
      if frames != before {
        assert Init(frames) == before;
      }
    }
  }

  /** The frames of a stream: data, then at most one close or reset; and nothing at all follows
    * the end of the socket. */
  lemma FramesInOrder(events: seq<Event>, role: Role, id: nat)
    ensures var out := Side(role, Run(events)).out;
      && (FramesOf(out, id) != [] ==> DataFrames(Init(FramesOf(out, id))))
      && (forall k :: 0 <= k < |out| - 1 ==> out[k] != Fin)
  {
    RunSide(events, role);
    TameFrames(Side(role, Run(events)).out, id);
  }

  /** In every run an error of the socket ends every stream that is not over, with one onError
    * as its last callback, and touches no other. */
  lemma SocketErrorEndsAll(events: seq<Event>, role: Role, errorCode: nat, id: nat)
    requires Side(role, Run(events)).state != Closed && id in Side(role, Run(events)).streams
    ensures var e := Side(role, Run(events));
      var e' := Side(role, Run(events + [Event(role, Break(errorCode))]));
      && e'.state == Closed && e'.active == {} && e'.streams.Keys == e.streams.Keys
      && e'.streams[id].state == SClosed
      && e'.streams[id].calls == e.streams[id].calls + if e.streams[id].state == SClosed then [] else [OnError(errorCode)]
  {
    var more := events + [Event(role, Break(errorCode))];
    assert Init(more) == events && Last(more) == Event(role, Break(errorCode));
    hide SideOk, Handshake, OnSocketError, Run;
    RunEndpoint(events, role);
    BreakStep(Run(events), role, errorCode);
    ErrorEnds(role, Side(role, Run(events)), errorCode, id);
  }

  lemma BreakStep(w: World, role: Role, errorCode: nat)
    ensures Side(role, Step(w, Event(role, Break(errorCode)))) == OnSocketError(Side(role, w), errorCode)
  {
  }

  lemma RunEndpoint(events: seq<Event>, role: Role)
    ensures EndpointOk(role, Side(role, Run(events)))
  {
    RunSide(events, role);
  }

  lemma ErrorEnds(role: Role, e: Endpoint, errorCode: nat, id: nat)
    requires e.state != Closed && id in e.streams && ActiveOk(e)
    ensures var e' := OnSocketError(e, errorCode);
      && e'.state == Closed && e'.active == {} && e'.streams.Keys == e.streams.Keys
      && e'.streams[id].state == SClosed
      && e'.streams[id].calls == e.streams[id].calls + if e.streams[id].state == SClosed then [] else [OnError(errorCode)]
  {
    assert ErrorActive(e, errorCode).Keys == e.streams.Keys;
    assert e.streams[id].calls + [] == e.streams[id].calls;
  }

  lemma EndpointIds(role: Role, e: Endpoint)
    requires EndpointOk(role, e)
    ensures IdsOk(role, e)
  {
  }

  lemma StepGrows(w: World, ev: Event, role: Role)
    requires WorldOk(w)
    ensures Grows(Side(role, w), Side(role, Step(w, ev)))
  {
    hide Act, Receive, EndpointOk, Handshake, SideOk, Grows, IdsOk;
    var me, peer, at := Side(role, w), Side(Other(role), w), Taken(role, w);
    SideEndpointOk(role, me, peer, at);
    EndpointIds(role, me);
    AnswerGrows(me);
    ActGrows(role, me, ev.action);
    if at < |peer.out| && ev.action.Arrive? {
      ReceiveGrows(role, me, peer.out[at], ev.action.verified);
    }
  }

  /** A stream, once made, is the same stream for ever: no later event of any run replaces it,
    * undoes a callback or revives it, so that no identifier is used twice. */
  lemma {:induction false} StreamsPersist(events: seq<Event>, more: seq<Event>, role: Role)
    ensures Grows(Side(role, Run(events)), Side(role, Run(events + more)))
  {
    if more == [] {
      assert events + more == events;
    } else {
      StreamsPersist(events, Init(more), role);
      assert Init(events + more) == events + Init(more) && Last(events + more) == Last(more);
      RunOk(events + Init(more));
      StepGrows(Run(events + Init(more)), Last(more), role);
      KeepsChains(Side(role, Run(events)), Side(role, Run(events + Init(more))), Side(role, Run(events + more)));
    }
  }

  /** What a user sends on an open stream is put on the socket, behind all that went before. */
  lemma SentReachesWire(events: seq<Event>, role: Role, id: nat, payload: Payload)
    requires var e := Side(role, Run(events));
      CanSend(e.state) && id in e.streams && (e.streams[id].state == SOpen || e.streams[id].state == SCloseWait)
    ensures var more := events + [Event(role, Send(id, payload))];
      DataOf(Side(role, Run(more)).out, id) == DataOf(Side(role, Run(events)).out, id) + [payload]
  {
    hide Run, Step, DataOf;
    OneMore(events, Event(role, Send(id, payload)), events + [Event(role, Send(id, payload))]);
    SendStep(Run(events), role, id, payload);
    Snoc(Side(role, Run(events)).out, Data(id, payload));
  }

  lemma SendStep(w: World, role: Role, id: nat, payload: Payload)
    ensures Side(role, Step(w, Event(role, Send(id, payload)))) == Act(role, Side(role, w), Send(id, payload))
  {
  }

  /** As long as the socket listens and the stream expects data, all that has arrived for the
    * stream was delivered. */
  lemma NothingHeldBack(events: seq<Event>, role: Role, id: nat)
    requires var e := Side(role, Run(events));
      Listening(e.state) && id in e.streams && (e.streams[id].state == SOpen || e.streams[id].state == SClosing)
    ensures Taken(role, Run(events)) <= |Side(Other(role), Run(events)).out|
    ensures Delivered(Side(role, Run(events)).streams[id].calls)
         == DataOf(Side(Other(role), Run(events)).out[..Taken(role, Run(events))], id)
  {
    RunSide(events, role);
    var me, peer, taken := Side(role, Run(events)), Side(Other(role), Run(events)), Taken(role, Run(events));
    assert StreamDelivery(role, me, peer.out[..taken], id);
  }

  /** Data that arrives at an authenticated socket is on a stream that the socket has afterwards
    * exactly when it had it before, or its identifier is the peer's and above all seen so far. */
  lemma AcceptedExactly(events: seq<Event>, role: Role, id: nat, payload: Payload, verified: bool)
    requires var w := Run(events);
      && Side(role, w).state == Auth && Taken(role, w) < |Side(Other(role), w).out|
      && Side(Other(role), w).out[Taken(role, w)] == Data(id, payload)
    ensures var e, e' := Side(role, Run(events)), Side(role, Run(events + [Event(role, Arrive(verified))]));
      id in e'.streams <==> id in e.streams || (id % 2 != Parity(role) && id > e.watermark)
  {
    hide Run, Step, Receive, OnDataMsg;
    OneMore(events, Event(role, Arrive(verified)), events + [Event(role, Arrive(verified))]);
    ArriveStep(Run(events), role, verified);
    RunEndpoint(events, role);
    DataAccepted(role, Side(role, Run(events)), id, payload, verified);
  }

  lemma ArriveStep(w: World, role: Role, verified: bool)
    requires Taken(role, w) < |Side(Other(role), w).out|
    ensures Side(role, Step(w, Event(role, Arrive(verified))))
         == Receive(role, Side(role, w), Side(Other(role), w).out[Taken(role, w)], verified)
  {
  }

  lemma DataAccepted(role: Role, e: Endpoint, id: nat, payload: Payload, verified: bool)
    requires e.state == Auth && e.active <= e.streams.Keys && ActiveOk(e) && IdsOk(role, e)
    ensures id in Receive(role, e, Data(id, payload), verified).streams
       <==> id in e.streams || (id % 2 != Parity(role) && id > e.watermark)
  {
  }

  function LateOut(first: Payload, second: Payload): seq<Item> {
    [AuthMsg, Data(3, second), Data(1, first)]
  }

  /** Both sides are authenticated and the client has opened two streams. */
  function TwoOpen(): World {
    World(Endpoint(Auth, map[1 := Stream(SOpen, []), 3 := Stream(SOpen, [])], {1, 3}, 0, 5, [AuthMsg]),
          Endpoint(Auth, map[], {}, 0, 2, []), 0, 1)
  }

  function Opening(): seq<Event> {
    [Event(Client, Authenticate), Event(Server, Arrive(true)), Event(Client, Open), Event(Client, Open)]
  }

  lemma TwoOpened()
    ensures Run(Opening()) == TwoOpen()
  {
    OneMore([], Opening()[0], Opening()[..1]);
    assert Run(Opening()[..1]) == World(Endpoint(Auth, map[], {}, 0, 1, [AuthMsg]), Initial(Server), 0, 0);
    OneMore(Opening()[..1], Opening()[1], Opening()[..2]);
    assert Run(Opening()[..2]).server == Endpoint(Auth, map[], {}, 0, 2, []);
    OneMore(Opening()[..2], Opening()[2], Opening()[..3]);
    OneMore(Opening()[..3], Opening()[3], Opening());
  }

  lemma LateSent(first: Payload, second: Payload)
    ensures Run(Opening() + [Event(Client, Send(3, second))] + [Event(Client, Send(1, first))])
         == TwoOpen().(client := TwoOpen().client.(out := LateOut(first, second)))
  {
    hide Run, Opening;
    TwoOpened();
    var e5 := Opening() + [Event(Client, Send(3, second))];
    OneMore(Opening(), Event(Client, Send(3, second)), e5);
    OneMore(e5, Event(Client, Send(1, first)), e5 + [Event(Client, Send(1, first))]);
  }

  lemma LateHistories(first: Payload, second: Payload)
    ensures DataOf(LateOut(first, second), 1) == [first] && Delivered([OnData(second)]) == [second]
  {
    Snoc([], AuthMsg);
    Snoc([AuthMsg], Data(3, second));
    Snoc([AuthMsg, Data(3, second)], Data(1, first));
    assert LateOut(first, second) == ([] + [AuthMsg]) + [Data(3, second)] + [Data(1, first)];
    CallSnoc([], OnData(second));
    assert [] + [OnData(second)] == [OnData(second)];
  }

  /** Two streams whose first data is sent in the order opposite to their opening: the second
    * one to open is received, the first one never. */
  lemma LateStreamLost(first: Payload, second: Payload)
    ensures exists events :: var w := Run(events);
      && 3 in w.server.streams && Delivered(w.server.streams[3].calls) == [second]
      && DataOf(w.client.out, 1) == [first] && w.atServer == |w.client.out|
      && w.server.state == Auth && 1 !in w.server.streams
  {
    hide Run, Opening, DataOf, Delivered;
    LateSent(first, second);
    LateHistories(first, second);
    var e6 := Opening() + [Event(Client, Send(3, second))] + [Event(Client, Send(1, first))];
    var e7 := e6 + [Event(Server, Arrive(true))];
    OneMore(e6, Event(Server, Arrive(true)), e7);
    assert [] + [OnData(second)] == [OnData(second)];
    assert Run(e7).server == Endpoint(Auth, map[3 := Stream(SOpen, [OnData(second)])], {3}, 3, 2, []);
    var e8 := e7 + [Event(Server, Arrive(true))];
    OneMore(e7, Event(Server, Arrive(true)), e8);
    assert Run(e8) == Run(e7).(atServer := 3);
  }

  lemma OneMore(events: seq<Event>, ev: Event, more: seq<Event>)
    requires more == events + [ev]
    ensures Run(more) == Step(Run(events), ev)
    ensures events == [] ==> Run(events) == World(Initial(Client), Initial(Server), 0, 0)
  {
    assert Init(more) == events;
  }
}
