/** What each event does to the streams and to the wire, in every run: which callbacks fire, which
  * frames are put on the socket, and what is left alone. */
module MuxEvents {
  import opened Mux
  import opened MuxSafety
  import opened MuxNetwork

  function Before(events: seq<Event>, role: Role): Endpoint {
    Side(role, Run(events))
  }

  /** The side of `role` after one more event on it. */
  function After(events: seq<Event>, role: Role, action: Action): Endpoint {
    Side(role, Run(events + [Event(role, action)]))
  }

  /** `item` is the next to reach the side of `role`. */
  predicate Arrives(events: seq<Event>, role: Role, item: Item) {
    var w := Run(events);
    Taken(role, w) < |Side(Other(role), w).out| && Side(Other(role), w).out[Taken(role, w)] == item
  }

  lemma ActNext(events: seq<Event>, role: Role, action: Action)
    requires !action.Arrive?
    ensures After(events, role, action) == Act(role, Before(events, role), action)
    ensures EndpointOk(role, Before(events, role))
  {
    hide Run, EndpointOk;
    OneMore(events, Event(role, action), events + [Event(role, action)]);
    RunEndpoint(events, role);
  }

  lemma ArriveNext(events: seq<Event>, role: Role, item: Item, verified: bool)
    requires Arrives(events, role, item)
    ensures After(events, role, Arrive(verified)) == Receive(role, Before(events, role), item, verified)
    ensures EndpointOk(role, Before(events, role))
  {
    hide Run, EndpointOk, Step, Receive;
    OneMore(events, Event(role, Arrive(verified)), events + [Event(role, Arrive(verified))]);
    ArriveStep(Run(events), role, verified);
    RunEndpoint(events, role);
  }

  /** Only stream `id` differs: it is in `state` and has heard `calls` more. */
  ghost predicate OneStream(e: Endpoint, e': Endpoint, id: nat, state: StreamState, calls: seq<Call>) {
    && id in e.streams && e'.streams.Keys == e.streams.Keys
    && (forall j :: j in e.streams && j != id ==> e'.streams[j] == e.streams[j] && (j in e'.active <==> j in e.active))
    && e'.streams[id].state == state && e'.streams[id].calls == e.streams[id].calls + calls
    && e'.next == e.next && e'.watermark == e.watermark
  }

  predicate Expecting(s: Stream) {
    s.state == SOpen || s.state == SClosing
  }

  // ------------------------------------------------------------------------------------------
  // Frames that arrive
  // ------------------------------------------------------------------------------------------

  /** A reset for a stream that is not over fires one onError and ends it. Only a client forgets
    * the stream. */
  lemma ResetReported(events: seq<Event>, role: Role, id: nat, errorCode: nat, verified: bool)
    requires Arrives(events, role, Reset(id, errorCode)) && Listening(Before(events, role).state)
    requires id in Before(events, role).streams && Before(events, role).streams[id].state != SClosed
    ensures var e, e' := Before(events, role), After(events, role, Arrive(verified));
      && OneStream(e, e', id, SClosed, [OnError(errorCode)]) && e'.out == e.out && e'.state == e.state
      && id in e.active && (id in e'.active <==> role.Server?)
  {
    hide Run;
    ArriveNext(events, role, Reset(id, errorCode), verified);
  }

  /** A reset for a stream that is over, or that the socket does not have, is dropped. */
  lemma ResetDropped(events: seq<Event>, role: Role, id: nat, errorCode: nat, verified: bool)
    requires Arrives(events, role, Reset(id, errorCode)) && Listening(Before(events, role).state)
    requires id in Before(events, role).streams ==> Before(events, role).streams[id].state == SClosed
    ensures var e, e' := Before(events, role), After(events, role, Arrive(verified));
      e'.streams == e.streams && e'.out == e.out && e'.state == e.state
  {
    hide Run;
    ArriveNext(events, role, Reset(id, errorCode), verified);
    var e := Before(events, role);
    assert id in e.streams ==> e.streams[id := e.streams[id]] == e.streams;
  }

  /** A close frame for a stream that still expects data fires one onClose. The stream is over,
    * and forgotten, exactly when its user had closed it before. */
  lemma CloseEndsStream(events: seq<Event>, role: Role, id: nat, verified: bool)
    requires Arrives(events, role, Close(id)) && Listening(Before(events, role).state)
    requires id in Before(events, role).streams && Expecting(Before(events, role).streams[id])
    ensures var e, e' := Before(events, role), After(events, role, Arrive(verified));
      var open := e.streams[id].state == SOpen;
      && OneStream(e, e', id, if open then SCloseWait else SClosed, [OnClose(true)])
      && e'.out == e.out && e'.state == e.state && (id in e'.active <==> open)
  {
    hide Run;
    ArriveNext(events, role, Close(id), verified);
  }

  /** Data for a stream that still expects some is handed on. */
  lemma DataHandedOn(events: seq<Event>, role: Role, id: nat, payload: Payload, verified: bool)
    requires Arrives(events, role, Data(id, payload)) && Listening(Before(events, role).state)
    requires id in Before(events, role).streams && Expecting(Before(events, role).streams[id])
    ensures var e, e' := Before(events, role), After(events, role, Arrive(verified));
      && OneStream(e, e', id, e.streams[id].state, [OnData(payload)])
      && e'.out == e.out && e'.state == e.state && id in e'.active
  {
    hide Run;
    ArriveNext(events, role, Data(id, payload), verified);
  }

  /** An authenticated socket answers a ping with one pong; a closing one takes it in silence. */
  lemma PingAnswered(events: seq<Event>, role: Role, verified: bool)
    requires Arrives(events, role, Ping) && Listening(Before(events, role).state)
    ensures var e, e' := Before(events, role), After(events, role, Arrive(verified));
      e' == e.(out := e'.out) && e'.out == e.out + if e.state == Auth then [Pong] else []
  {
    hide Run;
    ArriveNext(events, role, Ping, verified);
    assert Before(events, role).out + [] == Before(events, role).out;
  }

  /** Every stream that is not over hears one onError, as its last callback; nobody is left. */
  ghost predicate AllErred(e: Endpoint, e': Endpoint, errorCode: nat) {
    && e'.state == Closed && e'.active == {} && e'.streams.Keys == e.streams.Keys
    && forall id :: id in e.streams ==>
         if e.streams[id].state == SClosed then e'.streams[id] == e.streams[id]
         else e'.streams[id].state == SClosed && e'.streams[id].calls == e.streams[id].calls + [OnError(errorCode)]
  }

  lemma ErrsAll(e: Endpoint, errorCode: nat)
    requires ActiveOk(e) && e.state != Closed
    ensures AllErred(e, OnSocketError(e, errorCode), errorCode)
    ensures AllErred(e, e.(streams := ErrorActive(e, errorCode), active := {}, state := Closed), errorCode)
  {
    assert ErrorActive(e, errorCode).Keys == e.streams.Keys;
  }

  /** A goaway of the peer ends every stream with its code. */
  lemma GoawayEndsAll(events: seq<Event>, role: Role, last: nat, errorCode: nat, verified: bool)
    requires Arrives(events, role, Goaway(last, errorCode)) && Listening(Before(events, role).state)
    ensures var e, e' := Before(events, role), After(events, role, Arrive(verified));
      AllErred(e, e', errorCode) && e'.out == e.out
  {
    hide Run;
    ArriveNext(events, role, Goaway(last, errorCode), verified);
    ErrsAll(Before(events, role), errorCode);
  }

  /** When the peer ends the websocket, each stream that still expects data hears one onClose that
    * no close frame caused, and no other stream hears anything. */
  lemma FinReported(events: seq<Event>, role: Role, verified: bool)
    requires Arrives(events, role, Fin)
    ensures var e, e' := Before(events, role), After(events, role, Arrive(verified));
      var ended := e.state == CloseWait || e.state == Closed;
      && e'.out == e.out && e'.streams.Keys == e.streams.Keys
      && e'.state == (if ended then e.state else if e.state == Closing then Closed else CloseWait)
      && forall id :: id in e.streams ==>
           if ended || !Expecting(e.streams[id]) then e'.streams[id] == e.streams[id]
           else && e'.streams[id].calls == e.streams[id].calls + [OnClose(false)]
                && e'.streams[id].state == if e.streams[id].state == SOpen then SCloseWait else SClosed
  {
    hide Run;
    ArriveNext(events, role, Fin, verified);
    var e := Before(events, role);
    assert CloseActive(e).Keys == e.streams.Keys;
  }

  /** A server is authenticated by the first auth message that verifies. One that does not verify
    * ends the socket: the peer is told, and every stream hears one onError. */
  lemma AuthTaken(events: seq<Event>, verified: bool)
    requires Arrives(events, Server, AuthMsg)
    requires Before(events, Server).state == Idle || Before(events, Server).state == Auth
    ensures var e, e' := Before(events, Server), After(events, Server, Arrive(verified));
      if verified then e' == e.(state := Auth)
      else
        && AllErred(e, e', 1002)
        && exists last :: IsHighest(e, last) && e'.out == e.out + [Goaway(last, 1002), Fin]
  {
    hide Run, IsHighest;
    ArriveNext(events, Server, AuthMsg, verified);
    var e := Before(events, Server);
    ErrsAll(e, 1002);
    HighestKnown(events, Server);
  }

  /** A server that is not authenticated yet has no streams; a stream frame or a goaway ends it in
    * silence. */
  lemma StrangerRefused(events: seq<Event>, item: Item, verified: bool)
    requires Arrives(events, Server, item) && (IsStreamFrame(item) || item.Goaway?)
    requires Before(events, Server).state == Idle
    ensures var e, e' := Before(events, Server), After(events, Server, Arrive(verified));
      e'.state == Closed && e'.out == e.out && e'.streams == e.streams == map[]
  {
    hide Run;
    ArriveNext(events, Server, item, verified);
    assert forall code :: ErrorActive(Before(events, Server), code) == map[];
  }

  /** What a message is that its socket takes without doing anything. */
  predicate Idles(role: Role, state: SocketState, item: Item) {
    || state == CloseWait || state == Closed
    || (state == Idle && (role.Client? || item.Ping? || item.Pong?))
    || (Listening(state) && (item.Pong? || (item.AuthMsg? && role.Client?)))
  }

  /** Once the peer has ended the websocket, or the socket is closed, no message has an effect; nor
    * on a client that has not sent its auth message. */
  lemma NothingHeard(events: seq<Event>, role: Role, item: Item, verified: bool)
    requires Arrives(events, role, item) && !item.Fin? && Idles(role, Before(events, role).state, item)
    ensures After(events, role, Arrive(verified)) == Before(events, role)
  {
    hide Run;
    ArriveNext(events, role, item, verified);
  }

  // ------------------------------------------------------------------------------------------
  // Calls of the user
  // ------------------------------------------------------------------------------------------

  /** An authenticated socket opens a stream whose identifier was never used, above all its own. */
  lemma OpensFresh(events: seq<Event>, role: Role)
    ensures var e, e' := Before(events, role), After(events, role, Open);
      if e.state != Auth then e' == e
      else exists id: nat ::
        && id !in e.streams && id % 2 == Parity(role)
        && (forall j :: j in e.streams && j % 2 == Parity(role) ==> j < id)
        && e'.streams == e.streams[id := Stream(SOpen, [])] && e'.active == e.active + {id}
        && e'.out == e.out && e'.state == e.state
  {
    hide Run;
    ActNext(events, role, Open);
  }

  /** close() of a stream that can still send puts its close frame on the wire. The stream waits
    * for the peer, unless the peer has closed it before: then it is over and forgotten. */
  lemma CloseSent(events: seq<Event>, role: Role, id: nat)
    requires id in Before(events, role).streams && CanSend(Before(events, role).state)
    requires Before(events, role).streams[id].state == SOpen || Before(events, role).streams[id].state == SCloseWait
    ensures var e, e' := Before(events, role), After(events, role, CloseStream(id));
      var open := e.streams[id].state == SOpen;
      && e'.out == e.out + [Close(id)] && OneStream(e, e', id, if open then SClosing else SClosed, [])
      && e'.state == e.state && (id in e'.active <==> open)
  {
    hide Run;
    ActNext(events, role, CloseStream(id));
  }

  /** error() of a stream that can still send puts one reset on the wire and ends the stream. */
  lemma ErrorSent(events: seq<Event>, role: Role, id: nat, errorCode: nat)
    requires id in Before(events, role).streams && CanSend(Before(events, role).state)
    requires Before(events, role).streams[id].state == SOpen || Before(events, role).streams[id].state == SCloseWait
    ensures var e, e' := Before(events, role), After(events, role, ErrorStream(id, errorCode));
      && e'.out == e.out + [Reset(id, errorCode)] && OneStream(e, e', id, SClosed, [])
      && e'.state == e.state && id !in e'.active
  {
    hide Run;
    ActNext(events, role, ErrorStream(id, errorCode));
  }

  /** error() of a stream whose close frame is out ends it without another frame. It stays active. */
  lemma ErrorAfterClose(events: seq<Event>, role: Role, id: nat, errorCode: nat)
    requires id in Before(events, role).streams && Before(events, role).streams[id].state == SClosing
    ensures var e, e' := Before(events, role), After(events, role, ErrorStream(id, errorCode));
      OneStream(e, e', id, SClosed, []) && e'.out == e.out && e'.state == e.state && e'.active == e.active
  {
    hide Run;
    ActNext(events, role, ErrorStream(id, errorCode));
  }

  /** A stream that is over, and one that waits for the peer's close, are not closed again. */
  lemma CloseOnce(events: seq<Event>, role: Role, id: nat)
    requires id in Before(events, role).streams
    requires Before(events, role).streams[id].state == SClosing || Before(events, role).streams[id].state == SClosed
    ensures After(events, role, CloseStream(id)) == Before(events, role)
  {
    hide Run;
    ActNext(events, role, CloseStream(id));
  }

  /** On a socket that cannot send, close() and error() only move the stream on. */
  lemma SilentClose(events: seq<Event>, role: Role, id: nat)
    requires id in Before(events, role).streams && !CanSend(Before(events, role).state)
    ensures var e, e' := Before(events, role), After(events, role, CloseStream(id));
      OneStream(e, e', id, ClosedState(e.streams[id].state), []) && e'.out == e.out && e'.active == e.active
  {
    hide Run;
    ActNext(events, role, CloseStream(id));
  }

  lemma SilentError(events: seq<Event>, role: Role, id: nat, errorCode: nat)
    requires id in Before(events, role).streams && !CanSend(Before(events, role).state)
    ensures var e, e' := Before(events, role), After(events, role, ErrorStream(id, errorCode));
      OneStream(e, e', id, SClosed, []) && e'.out == e.out && e'.active == e.active
  {
    hide Run;
    ActNext(events, role, ErrorStream(id, errorCode));
  }

  /** What is sent there, or on a stream that is closing or over, is lost. */
  lemma SendLost(events: seq<Event>, role: Role, id: nat, payload: Payload)
    requires id in Before(events, role).streams
    requires !CanSend(Before(events, role).state) || !Closable(Before(events, role).streams[id])
    ensures After(events, role, Send(id, payload)) == Before(events, role)
  {
    hide Run;
    ActNext(events, role, Send(id, payload));
  }

  /** The client puts an auth message on the wire at the start and whenever it repeats it, and a ping
    * while it can send. */
  lemma ClientSpeaks(events: seq<Event>)
    ensures var e, a := Before(events, Client), After(events, Client, Authenticate);
      if e.state == Idle || e.state == Auth then a == e.(state := Auth, out := e.out + [AuthMsg]) else a == e
    ensures var e, p := Before(events, Client), After(events, Client, Action.SendPing);
      p == e.(out := e.out + if CanSend(e.state) then [Ping] else [])
  {
    hide Run;
    ActNext(events, Client, Authenticate);
    ActNext(events, Client, Action.SendPing);
    assert Before(events, Client).out + [] == Before(events, Client).out;
  }

  // ------------------------------------------------------------------------------------------
  // Closing the socket
  // ------------------------------------------------------------------------------------------

  /** The streams that close() of the socket closes. */
  ghost predicate Closable(s: Stream) {
    s.state == SOpen || s.state == SCloseWait
  }

  /** The close frames that CloseEach sends. */
  function Closes(e: Endpoint, order: seq<nat>): seq<Item>
    requires forall k :: 0 <= k < |order| ==> order[k] in e.streams
  {
    if order == [] then []
    else Closes(e, Init(order)) + if e.streams[Last(order)].state == SOpen || e.streams[Last(order)].state == SCloseWait
                                  then [Close(Last(order))] else []
  }

  predicate Unlike(order: seq<nat>) {
    forall j, k :: 0 <= j < k < |order| ==> order[j] != order[k]
  }

  lemma InitOf(order: seq<nat>)
    requires order != [] && Unlike(order)
    ensures order == Init(order) + [Last(order)] && Unlike(Init(order)) && Last(order) !in Init(order)
    ensures forall id :: id in order <==> id in Init(order) || id == Last(order)
  {
  }

  lemma {:induction false} ClosesEach(e: Endpoint, order: seq<nat>)
    requires (forall k :: 0 <= k < |order| ==> order[k] in e.streams) && Unlike(order)
    ensures forall i :: i in Closes(e, order) <==> i.Close? && i.id in order && Closable(e.streams[i.id])
    ensures forall j, k :: 0 <= j < k < |Closes(e, order)| ==> Closes(e, order)[j] != Closes(e, order)[k]
  {
    if order != [] {
      InitOf(order);
      ClosesEach(e, Init(order));
    }
  }

  /** Where close() leaves a stream. */
  function ClosedState(s: StreamState): StreamState {
    match s
    case SOpen => SClosing
    case SCloseWait => SClosed
    case SClosing => SClosing
    case SClosed => SClosed
  }

  /** Closing some streams of a socket that can send. */
  ghost predicate EachClosed(e: Endpoint, e': Endpoint, order: seq<nat>)
    requires forall k :: 0 <= k < |order| ==> order[k] in e.streams
  {
    && e'.out == e.out + Closes(e, order) && e'.state == e.state
    && e'.streams.Keys == e.streams.Keys && e'.next == e.next && e'.watermark == e.watermark
    && forall id :: id in e.streams ==>
         e'.streams[id] == if id in order then e.streams[id].(state := ClosedState(e.streams[id].state)) else e.streams[id]
  }

  lemma {:induction false} CloseEachEffect(e: Endpoint, order: seq<nat>)
    requires (forall k :: 0 <= k < |order| ==> order[k] in e.streams) && Unlike(order) && CanSend(e.state)
    ensures EachClosed(e, CloseEach(e, order), order)
  {
    if order == [] {
      assert e.out + [] == e.out;
    } else {
      InitOf(order);
      CloseEachEffect(e, Init(order));
      CloseEachKeys(e, Init(order));
      CloseEachSnoc(e, Init(order), Last(order));
      OneMoreClosed(e, CloseEach(e, Init(order)), order);
    }
  }

  lemma OneMoreClosed(e: Endpoint, e1: Endpoint, order: seq<nat>)
    requires (forall k :: 0 <= k < |order| ==> order[k] in e.streams) && Unlike(order) && order != []
    requires CanSend(e.state) && EachClosed(e, e1, Init(order))
    ensures Last(order) in e1.streams && EachClosed(e, StreamClose(e1, Last(order)), order)
  {
  }

  /** Closing a socket that can send puts one close frame on the wire for each stream that can
    * still send, in some order, and then the end of the websocket. No callback fires. */
  lemma SocketCloseSent(events: seq<Event>, role: Role, order: seq<nat>)
    requires Visits(order, Before(events, role).active) && CanSend(Before(events, role).state)
    ensures var e, e' := Before(events, role), After(events, role, CloseSock(order));
      && (exists closes :: e'.out == e.out + closes + [Fin] && OnePerStream(e, closes))
      && e'.state == (if e.state == Auth then Closing else Closed)
      && e'.streams.Keys == e.streams.Keys
      && forall id :: id in e.streams ==> e'.streams[id] == e.streams[id].(state := ClosedState(e.streams[id].state))
  {
    hide Run, CloseSocket, OnePerStream, ActiveOk, CallsOk, WireOk;
    ActNext(events, role, CloseSock(order));
    var e := Before(events, role);
    VisitsExist(order, e);
    ClosesAll(e, order);
  }

  lemma ClosesAll(e: Endpoint, order: seq<nat>)
    requires Visits(order, e.active) && CanSend(e.state) && ActiveOk(e)
    requires forall k :: 0 <= k < |order| ==> order[k] in e.streams
    ensures var e' := CloseSocket(e, order);
      && e'.out == e.out + Closes(e, order) + [Fin] && OnePerStream(e, Closes(e, order))
      && e'.state == (if e.state == Auth then Closing else Closed)
      && e'.streams.Keys == e.streams.Keys
      && forall id :: id in e.streams ==> e'.streams[id] == e.streams[id].(state := ClosedState(e.streams[id].state))
  {
    hide CloseEach, Closes;
    CloseEachEffect(e, order);
    ClosesEach(e, order);
  }

  /** One close frame for each stream that can still send, and nothing else. */
  ghost predicate OnePerStream(e: Endpoint, closes: seq<Item>) {
    && (forall i :: i in closes <==> i.Close? && i.id in e.streams && Closable(e.streams[i.id]))
    && (forall j, k :: 0 <= j < k < |closes| ==> closes[j] != closes[k])
  }

  /** A socket that never was authenticated has no streams; closing it only ends the websocket. */
  lemma IdleCloseSent(events: seq<Event>, role: Role, order: seq<nat>)
    requires Visits(order, Before(events, role).active) && Before(events, role).state == Idle
    ensures var e, e' := Before(events, role), After(events, role, CloseSock(order));
      e'.out == e.out + [Fin] && e'.state == Closed && e'.streams == map[] == e.streams
  {
    hide Run;
    ActNext(events, role, CloseSock(order));
  }

  // ------------------------------------------------------------------------------------------
  // Failing the socket
  // ------------------------------------------------------------------------------------------

  /** The highest identifier of any stream the socket ever had; 0 when it had none. */
  ghost predicate IsHighest(e: Endpoint, last: nat) {
    && (forall id :: id in e.streams ==> 0 < id <= last)
    && (last in e.streams || (last == 0 && e.streams == map[]))
  }

  /** The watermark and the counter of the own streams are those of streams that exist. */
  ghost predicate Counted(e: Endpoint) {
    && 0 !in e.streams && 0 < e.next && (e.watermark != 0 ==> e.watermark in e.streams)
    && (e.next > 2 ==> e.next - 2 in e.streams)
  }

  lemma CountedHighest(role: Role, e: Endpoint)
    requires Counted(e) && IdsOk(role, e)
    ensures IsHighest(e, LastStream(e))
  {
    forall id | id in e.streams ensures 0 < id <= LastStream(e) {
      assert id % 2 == e.next % 2 ==> id + 2 <= e.next;
    }
  }

  lemma ActCounted(role: Role, e: Endpoint, action: Action)
    requires Counted(e)
    ensures Counted(Act(role, e, action))
  {
    hide Visits, CloseEach;
    match action {
      case Open =>
      case CloseSock(order) =>
        if Visits(order, e.active) && e.active <= e.streams.Keys {
          VisitsExist(order, e);
          CloseEachCounters(e, order);
        }
      case ErrorSock(code) => assert ErrorActive(e, code).Keys == e.streams.Keys;
      case Break(code) => assert ErrorActive(e, code).Keys == e.streams.Keys;
      case _ =>
    }
  }

  lemma {:induction false} CloseEachCounters(e: Endpoint, order: seq<nat>)
    requires forall k :: 0 <= k < |order| ==> order[k] in e.streams
    ensures var e' := CloseEach(e, order);
      e'.streams.Keys == e.streams.Keys && e'.next == e.next && e'.watermark == e.watermark
    decreases |order|
  {
    if order != [] {
      CloseEachCounters(StreamClose(e, order[0]), order[1..]);
    }
  }

  lemma ReceiveCounted(role: Role, e: Endpoint, i: Item, verified: bool)
    requires Counted(e)
    ensures Counted(Receive(role, e, i, verified))
  {
    hide Counted, OnDataMsg, OnCloseMsg, OnResetMsg, ErrorSocket, OnSocketError, OnSocketClose;
    ErrorCounted(role, e, 1001);
    ErrorCounted(role, e, 1002);
    if i.Goaway? { ErrorCounted(role, e, i.errorCode); }
    if i.Data? || i.Close? || i.Reset? { FrameCounted(role, e, i); }
    StateCounted(e);
  }

  lemma ErrorCounted(role: Role, e: Endpoint, errorCode: nat)
    requires Counted(e)
    ensures Counted(ErrorSocket(role, e, errorCode)) && Counted(OnSocketError(e, errorCode))
  {
    assert ErrorActive(e, errorCode).Keys == e.streams.Keys;
  }

  lemma FrameCounted(role: Role, e: Endpoint, i: Item)
    requires Counted(e)
    ensures i.Data? ==> Counted(OnDataMsg(role, e, i.id, i.payload))
    ensures i.Close? ==> Counted(OnCloseMsg(e, i.id))
    ensures i.Reset? ==> Counted(OnResetMsg(role, e, i.id, i.errorCode))
  {
  }

  lemma StateCounted(e: Endpoint)
    requires Counted(e)
    ensures Counted(OnSocketClose(e)) && Counted(Answer(e)) && Counted(e.(state := Auth))
  {
    assert CloseActive(e).Keys == e.streams.Keys;
  }

  lemma {:induction false} RunCounted(events: seq<Event>)
    ensures Counted(Run(events).client) && Counted(Run(events).server)
  {
    hide Counted, Act, Receive;
    if events == [] {
      InitialCounted();
    } else {
      var w, ev := Run(Init(events)), Last(events);
      RunCounted(Init(events));
      if ev.action.Arrive? {
        if w.atClient < |w.server.out| { ReceiveCounted(Client, w.client, w.server.out[w.atClient], ev.action.verified); }
        if w.atServer < |w.client.out| { ReceiveCounted(Server, w.server, w.client.out[w.atServer], ev.action.verified); }
      } else {
        ActCounted(Client, w.client, ev.action);
        ActCounted(Server, w.server, ev.action);
      }
    }
  }

  lemma InitialCounted()
    ensures Counted(Initial(Client)) && Counted(Initial(Server))
  {
  }

  /** In every run lastStream is the highest identifier of all streams. */
  lemma HighestKnown(events: seq<Event>, role: Role)
    ensures IsHighest(Before(events, role), LastStream(Before(events, role)))
  {
    hide Run, Counted, IsHighest;
    RunCounted(events);
    RunEndpoint(events, role);
    EndpointIds(role, Before(events, role));
    CountedHighest(role, Before(events, role));
  }

  /** Whether errorSocket tells the peer and the streams. */
  predicate Tells(role: Role, state: SocketState) {
    CanSend(state) || (state == Idle && role.Server?)
  }

  /** Failing a socket that is in use ends every stream with one onError, tells the peer the highest
    * identifier and the code, and ends the websocket. One that is not in use falls silent. */
  lemma SocketErrorSent(events: seq<Event>, role: Role, errorCode: nat)
    ensures var e, e' := Before(events, role), After(events, role, ErrorSock(errorCode));
      if Tells(role, e.state) then
        && AllErred(e, e', errorCode)
        && exists last :: IsHighest(e, last) && e'.out == e.out + [Goaway(last, errorCode), Fin]
      else e'.out == e.out && e'.streams == e.streams && e'.state == Closed && e'.active == {}
  {
    hide Run, IsHighest, AllErred;
    ActNext(events, role, ErrorSock(errorCode));
    HighestKnown(events, role);
    var e := Before(events, role);
    if e.state != Closed { ErrsAll(e, errorCode); }
    AllErredOut(e, errorCode, e.out + [Goaway(LastStream(e), errorCode), Fin]);
  }

  lemma AllErredOut(e: Endpoint, errorCode: nat, out: seq<Item>)
    requires ActiveOk(e)
    ensures e.state != Closed ==>
      AllErred(e, e.(streams := ErrorActive(e, errorCode), active := {}, state := Closed, out := out), errorCode)
  {
    assert ErrorActive(e, errorCode).Keys == e.streams.Keys;
  }
}
