/** What every step of an endpoint keeps: which streams are active, the order of the callbacks,
  * the order of the frames on the wire, and how what was delivered relates to what arrived. */
module MuxSafety {
  import opened Mux

  // ------------------------------------------------------------------------------------------
  // Histories
  // ------------------------------------------------------------------------------------------

  function Init<T>(s: seq<T>): seq<T>
    requires s != []
  {
    s[..|s| - 1]
  }

  function Last<T>(s: seq<T>): T
    requires s != []
  {
    s[|s| - 1]
  }

  /** Where a callback history stands in the pattern data* close? error?: 0 while only data,
    * 1 after the close, 2 after the error, 3 when it breaks the pattern. */
  function Phase(calls: seq<Call>): nat {
    if calls == [] then 0
    else
      var p := Phase(Init(calls));
      match Last(calls)
      case OnData(_) => if p == 0 then 0 else 3
      case OnClose(_) => if p == 0 then 1 else 3
      case OnError(_) => if p <= 1 then 2 else 3
  }

  function Delivered(calls: seq<Call>): seq<Payload> {
    if calls == [] then []
    else Delivered(Init(calls)) + if Last(calls).OnData? then [Last(calls).payload] else []
  }

  /** The payloads on the wire for one stream. */
  function DataOf(wire: seq<Item>, id: nat): seq<Payload> {
    if wire == [] then []
    else DataOf(Init(wire), id) + if Last(wire).Data? && Last(wire).id == id then [Last(wire).payload] else []
  }

  predicate IsStreamFrame(i: Item) {
    i.Data? || i.Close? || i.Reset?
  }

  /** The streams with a frame on the wire. */
  function Named(wire: seq<Item>): set<nat> {
    if wire == [] then {} else Named(Init(wire)) + if IsStreamFrame(Last(wire)) then {Last(wire).id} else {}
  }

  /** The streams with a close or a reset on the wire. */
  function Ended(wire: seq<Item>): set<nat> {
    if wire == [] then {}
    else Ended(Init(wire)) + if Last(wire).Close? || Last(wire).Reset? then {Last(wire).id} else {}
  }

  /** No stream frame follows a close or a reset of its stream, and nothing follows Fin. */
  ghost predicate Tame(wire: seq<Item>) {
    wire == [] ||
    (&& Tame(Init(wire)) && Fin !in Init(wire)
     && (IsStreamFrame(Last(wire)) ==> Last(wire).id !in Ended(Init(wire))))
  }

  /** Appending one item to a history. */
  lemma Snoc(wire: seq<Item>, i: Item)
    ensures forall id :: DataOf(wire + [i], id) == if i.Data? && i.id == id then DataOf(wire, id) + [i.payload] else DataOf(wire, id)
    ensures Named(wire + [i]) == Named(wire) + if IsStreamFrame(i) then {i.id} else {}
    ensures Ended(wire + [i]) == Ended(wire) + if i.Close? || i.Reset? then {i.id} else {}
    ensures Tame(wire + [i]) <==> Tame(wire) && Fin !in wire && (IsStreamFrame(i) ==> i.id !in Ended(wire))
  {
    assert Init(wire + [i]) == wire;
    forall id ensures DataOf(wire + [i], id) == if i.Data? && i.id == id then DataOf(wire, id) + [i.payload] else DataOf(wire, id) {
      assert DataOf(wire, id) + [] == DataOf(wire, id);
    }
  }

  lemma CallSnoc(calls: seq<Call>, c: Call)
    ensures Delivered(calls + [c]) == if c.OnData? then Delivered(calls) + [c.payload] else Delivered(calls)
    ensures Phase(calls + [c]) == match c
      case OnData(_) => if Phase(calls) == 0 then 0 else 3
      case OnClose(_) => if Phase(calls) == 0 then 1 else 3
      case OnError(_) => if Phase(calls) <= 1 then 2 else 3
  {
    assert Init(calls + [c]) == calls;
    assert Delivered(calls) + [] == Delivered(calls);
  }

  predicate AllData(calls: seq<Call>) {
    forall k :: 0 <= k < |calls| ==> calls[k].OnData?
  }

  /** A history in phase 0 to 2 is: data, then at most one close, then at most one error. */
  lemma {:induction false} PhasePattern(calls: seq<Call>)
    requires Phase(calls) <= 2
    ensures Phase(calls) == 0 ==> AllData(calls)
    ensures Phase(calls) == 1 ==> calls != [] && AllData(Init(calls)) && Last(calls).OnClose?
    ensures Phase(calls) == 2 ==>
      && calls != [] && Last(calls).OnError?
      && (AllData(Init(calls))
          || (|calls| >= 2 && Last(Init(calls)).OnClose? && AllData(Init(Init(calls)))))
  {
    if calls != [] {
      PhasePattern(Init(calls));
    }
  }

  // ------------------------------------------------------------------------------------------
  // The invariant of one endpoint
  // ------------------------------------------------------------------------------------------

  /** Identifiers are never reused: own streams lie below `next`, the peer's up to the watermark. */
  ghost predicate IdsOk(role: Role, e: Endpoint) {
    && e.next % 2 == Parity(role) && e.active <= e.streams.Keys
    && (forall id :: id in e.streams ==> if id % 2 == Parity(role) then id < e.next else id <= e.watermark)
    && (e.state == Idle ==> e.streams == map[])
  }

  /** While the socket is not closed, a stream that is not over is active; once the peer has ended
    * the socket, no stream expects more data. */
  ghost predicate ActiveOk(e: Endpoint) {
    forall id :: id in e.streams && e.streams[id].state != SClosed ==>
      && (e.state != Closed ==> id in e.active)
      && (e.state == CloseWait ==> e.streams[id].state == SCloseWait)
  }

  ghost predicate CallsOk(e: Endpoint) {
    forall id :: id in e.streams ==> CallsFit(e.streams[id])
  }

  ghost predicate CallsFit(s: Stream) {
    match s.state
    case SOpen => Phase(s.calls) == 0
    case SClosing => Phase(s.calls) == 0
    case SCloseWait => Phase(s.calls) == 1
    case SClosed => Phase(s.calls) <= 2
  }

  ghost predicate WireOk(e: Endpoint) {
    && Tame(e.out) && Named(e.out) <= e.streams.Keys
    && (Fin in e.out ==> e.state == Closing || e.state == Closed)
    && forall id :: id in e.streams && (e.streams[id].state == SOpen || e.streams[id].state == SCloseWait)
         ==> id !in Ended(e.out)
  }

  ghost predicate EndpointOk(role: Role, e: Endpoint) {
    IdsOk(role, e) && ActiveOk(e) && CallsOk(e) && WireOk(e)
  }

  /** An endpoint still takes data in these states. */
  predicate Listening(state: SocketState) {
    state == Auth || state == Closing
  }

  /** How the delivered payloads relate to what has arrived so far. */
  ghost predicate DeliveryOk(role: Role, e: Endpoint, arrived: seq<Item>) {
    && (forall id :: id in e.streams ==> StreamDelivery(role, e, arrived, id))
    && (e.state == Auth || e.state == Idle ==> NothingMissed(role, e, arrived))
  }

  /** Data that arrived for a stream of the peer that does not exist lies below the watermark, so
    * that the stream never comes to exist. */
  ghost predicate NothingMissed(role: Role, e: Endpoint, arrived: seq<Item>) {
    forall id: nat :: id % 2 != Parity(role) && id !in e.streams && DataOf(arrived, id) != [] ==> id <= e.watermark
  }

  ghost predicate StreamDelivery(role: Role, e: Endpoint, arrived: seq<Item>, id: nat)
    requires id in e.streams
  {
    var s := e.streams[id];
    && Delivered(s.calls) <= DataOf(arrived, id)
    && (Listening(e.state) && (s.state == SOpen || s.state == SClosing) ==> Delivered(s.calls) == DataOf(arrived, id))
    && (OnClose(true) in s.calls ==> Delivered(s.calls) == DataOf(arrived, id) && id in Ended(arrived))
    && (id % 2 != Parity(role) ==> DataOf(arrived, id) != [])
  }

  ghost predicate Ok(role: Role, e: Endpoint, arrived: seq<Item>) {
    EndpointOk(role, e) && DeliveryOk(role, e, arrived)
  }

  lemma InitialOk(role: Role)
    ensures Ok(role, Initial(role), [])
  {
  }

  // ------------------------------------------------------------------------------------------
  // Steps of the user
  // ------------------------------------------------------------------------------------------

  lemma SetStreamFrame(role: Role, e: Endpoint, id: nat, state: StreamState)
    requires IdsOk(role, e) && ActiveOk(e) && WireOk(e) && id in e.streams && e.streams[id].state != SClosed
    requires state == SClosed || (state == SClosing && e.streams[id].state == SOpen)
    ensures var e' := SetStream(e, id, state);
      IdsOk(role, e') && ActiveOk(e') && WireOk(e') && e'.streams.Keys == e.streams.Keys
  {
    hide Named, Ended, Tame;
  }

  lemma SetStreamStream(role: Role, e: Endpoint, arrived: seq<Item>, id: nat, state: StreamState, j: nat)
    requires id in e.streams && e.streams[id].state != SClosed && j in e.streams
    requires StreamDelivery(role, e, arrived, j) && CallsFit(e.streams[j])
    requires state == SClosed || (state == SClosing && e.streams[id].state == SOpen)
    ensures var e' := SetStream(e, id, state); StreamDelivery(role, e', arrived, j) && CallsFit(e'.streams[j])
  {
    hide Phase, Delivered, DataOf, Ended;
  }

  /** A stream moves on in its automaton without a callback. */
  lemma SetStreamOk(role: Role, e: Endpoint, arrived: seq<Item>, id: nat, state: StreamState)
    requires Ok(role, e, arrived) && id in e.streams && e.streams[id].state != SClosed
    requires state == SClosed || (state == SClosing && e.streams[id].state == SOpen)
    ensures Ok(role, SetStream(e, id, state), arrived)
    ensures SetStream(e, id, state).streams.Keys == e.streams.Keys
  {
    hide StreamDelivery, CallsFit, DataOf, IdsOk, WireOk, ActiveOk;
    var e' := SetStream(e, id, state);
    SetStreamFrame(role, e, id, state);
    forall j | j in e'.streams ensures StreamDelivery(role, e', arrived, j) && CallsFit(e'.streams[j]) {
      SetStreamStream(role, e, arrived, id, state, j);
    }
  }

  /** The last frame of a stream is sent. */
  lemma EndFrameOk(role: Role, e: Endpoint, arrived: seq<Item>, i: Item, over: bool)
    requires Ok(role, e, arrived) && CanSend(e.state) && (i.Close? || i.Reset?) && i.id !in Ended(e.out)
    requires i.id in e.streams && e.streams[i.id].state == if over then SClosed else SClosing
    ensures Ok(role, e.(out := e.out + [i], active := if over then e.active - {i.id} else e.active), arrived)
  {
    hide Phase, Delivered, DataOf, Named, Ended, Tame, CallsFit;
    Snoc(e.out, i);
    var e' := e.(out := e.out + [i], active := if over then e.active - {i.id} else e.active);
    forall j | j in e'.streams ensures StreamDelivery(role, e', arrived, j) {
      assert StreamDelivery(role, e, arrived, j);
    }
  }

  lemma NotEnded(role: Role, e: Endpoint, arrived: seq<Item>, id: nat)
    requires Ok(role, e, arrived) && id in e.streams
    requires e.streams[id].state == SOpen || e.streams[id].state == SCloseWait
    ensures id !in Ended(e.out)
  {
  }

  lemma StreamCloseOk(role: Role, e: Endpoint, arrived: seq<Item>, id: nat)
    requires Ok(role, e, arrived) && id in e.streams
    ensures Ok(role, StreamClose(e, id), arrived)
    ensures StreamClose(e, id).streams.Keys == e.streams.Keys && StreamClose(e, id).state == e.state
  {
    hide Ok, Ended;
    var state := e.streams[id].state;
    if state == SOpen || state == SCloseWait {
      var over := state == SCloseWait;
      NotEnded(role, e, arrived, id);
      SetStreamOk(role, e, arrived, id, if over then SClosed else SClosing);
      if CanSend(e.state) {
        EndFrameOk(role, SetStream(e, id, if over then SClosed else SClosing), arrived, Close(id), over);
      }
    }
  }

  lemma StreamErrorOk(role: Role, e: Endpoint, arrived: seq<Item>, id: nat, errorCode: nat)
    requires Ok(role, e, arrived) && id in e.streams
    ensures Ok(role, StreamError(e, id, errorCode), arrived)
  {
    hide Ok, Ended;
    var state := e.streams[id].state;
    if state != SClosed {
      SetStreamOk(role, e, arrived, id, SClosed);
      if state != SClosing {
        NotEnded(role, e, arrived, id);
        if CanSend(e.state) {
          EndFrameOk(role, SetStream(e, id, SClosed), arrived, Reset(id, errorCode), true);
        }
      }
    }
  }

  lemma StreamSendOk(role: Role, e: Endpoint, arrived: seq<Item>, id: nat, payload: Payload)
    requires Ok(role, e, arrived) && id in e.streams
    ensures Ok(role, StreamSend(e, id, payload), arrived)
  {
    hide Phase, Delivered, DataOf, Named, Ended, Tame, CallsFit;
    Snoc(e.out, Data(id, payload));
    var e' := StreamSend(e, id, payload);
    forall j | j in e'.streams ensures StreamDelivery(role, e', arrived, j) {
      assert StreamDelivery(role, e, arrived, j);
    }
  }

  lemma OpenStreamOk(role: Role, e: Endpoint, arrived: seq<Item>)
    requires Ok(role, e, arrived) && DataOf(arrived, e.next) == []
    ensures Ok(role, OpenStream(e), arrived)
    ensures e.next !in e.streams
  {
    var e' := OpenStream(e);
    forall j | j in e'.streams ensures StreamDelivery(role, e', arrived, j) && CallsFit(e'.streams[j]) {
      if j in e.streams { assert StreamDelivery(role, e, arrived, j) && CallsFit(e.streams[j]); }
    }
    assert Ended(e.out) <= Named(e.out) by { EndedNamed(e.out); }
  }

  lemma {:induction false} EndedNamed(wire: seq<Item>)
    ensures Ended(wire) <= Named(wire)
  {
    if wire != [] { EndedNamed(Init(wire)); }
  }

  lemma {:induction false} CloseEachOk(role: Role, e: Endpoint, arrived: seq<Item>, order: seq<nat>)
    requires Ok(role, e, arrived) && forall k :: 0 <= k < |order| ==> order[k] in e.streams
    ensures var e' := CloseEach(e, order);
      Ok(role, e', arrived) && e'.state == e.state && e'.streams.Keys == e.streams.Keys
    decreases |order|
  {
    if order != [] {
      StreamCloseOk(role, e, arrived, order[0]);
      CloseEachOk(role, StreamClose(e, order[0]), arrived, order[1..]);
    }
  }

  lemma FinOk(role: Role, e: Endpoint, arrived: seq<Item>, state: SocketState)
    requires Ok(role, e, arrived) && e.state != Closing && e.state != Closed
    requires state == Closed || (state == Closing && e.state == Auth)
    ensures Ok(role, e.(active := if state == Closed then {} else e.active, state := state, out := e.out + [Fin]), arrived)
  {
    hide Phase, Delivered, DataOf, Named, Ended, Tame, CallsFit;
    Snoc(e.out, Fin);
    var e' := e.(active := if state == Closed then {} else e.active, state := state, out := e.out + [Fin]);
    forall j | j in e'.streams ensures StreamDelivery(role, e', arrived, j) {
      assert StreamDelivery(role, e, arrived, j);
    }
  }

  lemma CloseSocketOk(role: Role, e: Endpoint, arrived: seq<Item>, order: seq<nat>)
    requires Ok(role, e, arrived) && forall k :: 0 <= k < |order| ==> order[k] in e.streams
    ensures Ok(role, CloseSocket(e, order), arrived)
  {
    hide Ok;
    CloseEachOk(role, e, arrived, order);
    match e.state {
      case Closing =>
      case Closed =>
      case Idle => FinOk(role, e, arrived, Closed);
      case CloseWait => FinOk(role, CloseEach(e, order), arrived, Closed);
      case Auth => FinOk(role, CloseEach(e, order), arrived, Closing);
    }
  }

  lemma SendAuthOk(role: Role, e: Endpoint, arrived: seq<Item>)
    requires Ok(role, e, arrived)
    ensures Ok(role, SendAuth(e), arrived)
  {
    hide Phase, Delivered, DataOf, Named, Ended, Tame, CallsFit;
    Snoc(e.out, AuthMsg);
    var e' := SendAuth(e);
    forall j | j in e'.streams ensures StreamDelivery(role, e', arrived, j) {
      assert StreamDelivery(role, e, arrived, j);
    }
  }

  lemma PlainSendOk(role: Role, e: Endpoint, arrived: seq<Item>, i: Item)
    requires Ok(role, e, arrived) && (i == Ping || i == Pong) && CanSend(e.state)
    ensures Ok(role, e.(out := e.out + [i]), arrived)
  {
    hide Phase, Delivered, DataOf, Named, Ended, Tame, CallsFit;
    Snoc(e.out, i);
    var e' := e.(out := e.out + [i]);
    forall j | j in e'.streams ensures StreamDelivery(role, e', arrived, j) {
      assert StreamDelivery(role, e, arrived, j);
    }
  }

  // ------------------------------------------------------------------------------------------
  // Ends of the socket
  // ------------------------------------------------------------------------------------------

  lemma ErrorActiveStream(role: Role, e: Endpoint, arrived: seq<Item>, errorCode: nat, j: nat)
    requires Ok(role, e, arrived) && j in e.streams
    ensures var e' := e.(streams := ErrorActive(e, errorCode), active := {}, state := Closed);
      j in e'.streams && StreamDelivery(role, e', arrived, j) && CallsFit(e'.streams[j])
  {
    hide Tame, Named, Ended;
    assert StreamDelivery(role, e, arrived, j) && CallsFit(e.streams[j]);
    CallSnoc(e.streams[j].calls, OnError(errorCode));
  }

  lemma ErrorActiveFrame(role: Role, e: Endpoint, errorCode: nat)
    requires IdsOk(role, e) && WireOk(e)
    ensures var e' := e.(streams := ErrorActive(e, errorCode), active := {}, state := Closed);
      IdsOk(role, e') && ActiveOk(e') && WireOk(e') && e'.streams.Keys == e.streams.Keys
  {
    hide Tame, Named, Ended;
    assert ErrorActive(e, errorCode).Keys == e.streams.Keys;
  }

  lemma ErrorActiveOk(role: Role, e: Endpoint, arrived: seq<Item>, errorCode: nat)
    requires Ok(role, e, arrived)
    ensures Ok(role, e.(streams := ErrorActive(e, errorCode), active := {}, state := Closed), arrived)
  {
    hide StreamDelivery, CallsFit, Tame, Named, Ended, DataOf, IdsOk, WireOk, ActiveOk;
    var e' := e.(streams := ErrorActive(e, errorCode), active := {}, state := Closed);
    ErrorActiveFrame(role, e, errorCode);
    forall j | j in e'.streams ensures StreamDelivery(role, e', arrived, j) && CallsFit(e'.streams[j]) {
      ErrorActiveStream(role, e, arrived, errorCode, j);
    }
  }

  lemma DropOk(role: Role, e: Endpoint, arrived: seq<Item>)
    requires Ok(role, e, arrived)
    ensures Ok(role, e.(active := {}, state := Closed), arrived)
  {
    hide Phase, Delivered, DataOf, Named, Ended, Tame, CallsFit;
    var e' := e.(active := {}, state := Closed);
    forall j | j in e'.streams ensures StreamDelivery(role, e', arrived, j) {
      assert StreamDelivery(role, e, arrived, j);
    }
  }

  lemma GoawayOk(role: Role, e: Endpoint, arrived: seq<Item>, last: nat, errorCode: nat)
    requires Ok(role, e, arrived) && e.state == Closed && Fin !in e.out
    ensures Ok(role, e.(out := e.out + [Goaway(last, errorCode), Fin]), arrived)
  {
    hide Phase, Delivered, DataOf, Named, Ended, Tame, CallsFit;
    var out1 := e.out + [Goaway(last, errorCode)];
    Snoc(e.out, Goaway(last, errorCode));
    Snoc(out1, Fin);
    assert out1 + [Fin] == e.out + [Goaway(last, errorCode), Fin];
    var e' := e.(out := e.out + [Goaway(last, errorCode), Fin]);
    forall j | j in e'.streams ensures StreamDelivery(role, e', arrived, j) {
      assert StreamDelivery(role, e, arrived, j);
    }
  }

  lemma ErrorSocketOk(role: Role, e: Endpoint, arrived: seq<Item>, errorCode: nat)
    requires Ok(role, e, arrived)
    ensures Ok(role, ErrorSocket(role, e, errorCode), arrived)
  {
    if e.state == Closing || e.state == Closed || (role.Client? && e.state == Idle) {
      DropOk(role, e, arrived);
    } else {
      assert Fin !in e.out;
      ErrorActiveOk(role, e, arrived, errorCode);
      GoawayOk(role, e.(streams := ErrorActive(e, errorCode), active := {}, state := Closed), arrived,
               LastStream(e), errorCode);
    }
  }

  lemma OnSocketErrorOk(role: Role, e: Endpoint, arrived: seq<Item>, errorCode: nat)
    requires Ok(role, e, arrived)
    ensures Ok(role, OnSocketError(e, errorCode), arrived)
  {
    hide Ok;
    ErrorActiveOk(role, e, arrived, errorCode);
  }

  lemma OnSocketCloseStream(role: Role, e: Endpoint, arrived: seq<Item>, j: nat)
    requires Ok(role, e, arrived) && j in e.streams
    ensures var e' := OnSocketClose(e); j in e'.streams && StreamDelivery(role, e', arrived, j) && CallsFit(e'.streams[j])
  {
    assert StreamDelivery(role, e, arrived, j) && CallsFit(e.streams[j]);
    CallSnoc(e.streams[j].calls, OnClose(false));
  }

  lemma OnSocketCloseOk(role: Role, e: Endpoint, arrived: seq<Item>)
    requires Ok(role, e, arrived)
    ensures Ok(role, OnSocketClose(e), arrived)
  {
    hide StreamDelivery, CallsFit, Tame, Named, Ended, DataOf;
    var e' := OnSocketClose(e);
    OnSocketCloseFrame(role, e);
    forall j | j in e'.streams ensures StreamDelivery(role, e', arrived, j) && CallsFit(e'.streams[j]) {
      OnSocketCloseStream(role, e, arrived, j);
    }
  }

  /** The rest of the invariant when the websocket ends. */
  lemma OnSocketCloseFrame(role: Role, e: Endpoint)
    requires IdsOk(role, e) && ActiveOk(e) && WireOk(e)
    ensures var e' := OnSocketClose(e);
      IdsOk(role, e') && ActiveOk(e') && WireOk(e') && e'.streams.Keys == e.streams.Keys
      && e'.state != Auth && e'.state != Idle
  {
    hide Tame, Named, Ended;
    assert CloseActive(e).Keys == e.streams.Keys;
  }

  // ------------------------------------------------------------------------------------------
  // Arrivals
  // ------------------------------------------------------------------------------------------

  /** An item without data arrives. */
  lemma ArriveOk(role: Role, e: Endpoint, arrived: seq<Item>, i: Item)
    requires Ok(role, e, arrived) && !i.Data?
    ensures Ok(role, e, arrived + [i])
  {
    Snoc(arrived, i);
    forall j | j in e.streams ensures StreamDelivery(role, e, arrived + [i], j) {
      assert StreamDelivery(role, e, arrived, j);
    }
  }

  /** Data arrives where nobody listens. */
  lemma ArriveDeaf(role: Role, e: Endpoint, arrived: seq<Item>, i: Item)
    requires Ok(role, e, arrived) && Tame(arrived + [i]) && (e.state == CloseWait || e.state == Closed)
    ensures Ok(role, e, arrived + [i])
  {
    Snoc(arrived, i);
    forall j | j in e.streams ensures StreamDelivery(role, e, arrived + [i], j) {
      assert StreamDelivery(role, e, arrived, j);
    }
  }

  /** A stream frame that follows the end of its stream would break the wire. */
  lemma StreamTakesData(role: Role, e: Endpoint, arrived: seq<Item>, id: nat, payload: Payload)
    requires Ok(role, e, arrived) && Tame(arrived + [Data(id, payload)]) && id in e.streams && id in e.active
    requires Listening(e.state)
    ensures var e' := e.(streams := e.streams[id := OnStreamData(e.streams[id], payload)]);
      StreamDelivery(role, e', arrived + [Data(id, payload)], id) && CallsFit(e'.streams[id])
  {
    Snoc(arrived, Data(id, payload));
    CallSnoc(e.streams[id].calls, OnData(payload));
    assert StreamDelivery(role, e, arrived, id) && CallsFit(e.streams[id]);
  }

  /** All streams but `id` keep their deliveries. */
  ghost predicate OthersDelivered(role: Role, e: Endpoint, arrived: seq<Item>, id: nat) {
    && (forall j :: j in e.streams && j != id ==> StreamDelivery(role, e, arrived, j))
    && (e.state == Auth || e.state == Idle ==> forall j: nat ::
          j % 2 != Parity(role) && j !in e.streams && j != id && DataOf(arrived, j) != [] ==> j <= e.watermark)
  }

  lemma DataForOne(role: Role, e: Endpoint, arrived: seq<Item>, id: nat, payload: Payload)
    requires Ok(role, e, arrived)
    ensures OthersDelivered(role, e, arrived + [Data(id, payload)], id)
  {
    Snoc(arrived, Data(id, payload));
    forall j | j in e.streams && j != id ensures StreamDelivery(role, e, arrived + [Data(id, payload)], j) {
      assert StreamDelivery(role, e, arrived, j);
    }
  }

  lemma OneStreamFrame(role: Role, e: Endpoint, id: nat, s: Stream, forget: bool)
    requires IdsOk(role, e) && ActiveOk(e) && WireOk(e) && id in e.streams && id in e.active && Listening(e.state)
    requires forget ==> s.state == SClosed
    requires s.state == SOpen || s.state == SCloseWait ==> e.streams[id].state == SOpen || e.streams[id].state == SCloseWait
    ensures var e' := e.(streams := e.streams[id := s], active := if forget then e.active - {id} else e.active);
      IdsOk(role, e') && ActiveOk(e') && WireOk(e') && e'.streams.Keys == e.streams.Keys
  {
    hide Named, Ended, Tame;
    assert e.streams[id := s].Keys == e.streams.Keys;
  }

  lemma SameDelivery(role: Role, e: Endpoint, e': Endpoint, arrived: seq<Item>, j: nat)
    requires j in e.streams && j in e'.streams && e'.streams[j] == e.streams[j] && e'.state == e.state
    requires StreamDelivery(role, e, arrived, j)
    ensures StreamDelivery(role, e', arrived, j)
  {
  }

  /** An active stream changes; the rest of the endpoint does not, except that a stream that is
    * over may be forgotten. */
  lemma OneStreamOk(role: Role, e: Endpoint, arrived: seq<Item>, arrived': seq<Item>, id: nat, s: Stream, forget: bool)
    requires Ok(role, e, arrived) && id in e.streams && id in e.active && Listening(e.state)
    requires OthersDelivered(role, e, arrived', id)
    requires var e' := e.(streams := e.streams[id := s], active := if forget then e.active - {id} else e.active);
      StreamDelivery(role, e', arrived', id) && CallsFit(s)
    requires forget ==> s.state == SClosed
    requires s.state == SOpen || s.state == SCloseWait ==> e.streams[id].state == SOpen || e.streams[id].state == SCloseWait
    ensures Ok(role, e.(streams := e.streams[id := s], active := if forget then e.active - {id} else e.active), arrived')
  {
    hide Phase, Delivered, DataOf, Named, Ended, Tame, IdsOk, ActiveOk, WireOk, CallsFit, StreamDelivery;
    var e' := e.(streams := e.streams[id := s], active := if forget then e.active - {id} else e.active);
    OneStreamFrame(role, e, id, s, forget);
    forall j | j in e'.streams ensures StreamDelivery(role, e', arrived', j) && CallsFit(e'.streams[j]) {
      if j != id { SameDelivery(role, e, e', arrived', j); }
    }
  }

  lemma ActiveDataOk(role: Role, e: Endpoint, arrived: seq<Item>, id: nat, payload: Payload)
    requires Ok(role, e, arrived) && Tame(arrived + [Data(id, payload)]) && id in e.streams && id in e.active
    requires Listening(e.state)
    ensures Ok(role, e.(streams := e.streams[id := OnStreamData(e.streams[id], payload)]), arrived + [Data(id, payload)])
  {
    hide Ok, Tame, StreamDelivery, CallsFit, OthersDelivered;
    StreamTakesData(role, e, arrived, id, payload);
    DataForOne(role, e, arrived, id, payload);
    OneStreamOk(role, e, arrived, arrived + [Data(id, payload)], id, OnStreamData(e.streams[id], payload), false);
  }

  /** Of a stream that may be new nothing has arrived and nothing was sent. */
  lemma FreshNew(role: Role, e: Endpoint, arrived: seq<Item>, id: nat)
    requires Ok(role, e, arrived) && Fresh(role, e, id)
    ensures id !in e.streams && DataOf(arrived, id) == [] && id !in Ended(e.out)
  {
    hide DataOf, Named, Ended, Tame, CallsOk, StreamDelivery;
    EndedNamed(e.out);
    assert NothingMissed(role, e, arrived);
  }

  lemma OneCall(payload: Payload)
    ensures Delivered([OnData(payload)]) == [payload] && Phase([OnData(payload)]) == 0
  {
    CallSnoc([], OnData(payload));
    assert [] + [OnData(payload)] == [OnData(payload)];
  }

  lemma FreshUnseen(role: Role, e: Endpoint, arrived: seq<Item>, id: nat, payload: Payload)
    requires Ok(role, e, arrived) && Tame(arrived + [Data(id, payload)]) && Fresh(role, e, id)
    ensures id !in e.streams && DataOf(arrived + [Data(id, payload)], id) == [payload]
    ensures id !in Ended(e.out)
    ensures Delivered([OnData(payload)]) == [payload] && Phase([OnData(payload)]) == 0
  {
    hide Ok, Tame, DataOf, Named, Ended, Delivered, Phase;
    FreshNew(role, e, arrived, id);
    Snoc(arrived, Data(id, payload));
    OneCall(payload);
  }

  /** The first data of a stream of the peer: nothing for it has arrived before. */
  lemma FreshDataOk(role: Role, e: Endpoint, arrived: seq<Item>, id: nat, payload: Payload)
    requires Ok(role, e, arrived) && Tame(arrived + [Data(id, payload)]) && Fresh(role, e, id)
    ensures id !in e.streams
    ensures Ok(role, OnDataMsg(role, e, id, payload), arrived + [Data(id, payload)])
  {
    hide Delivered, DataOf, Named, Ended, Tame, Phase;
    FreshUnseen(role, e, arrived, id, payload);
    DataForOne(role, e, arrived, id, payload);
    assert [] + [OnData(payload)] == [OnData(payload)];
    var e', arrived' := OnDataMsg(role, e, id, payload), arrived + [Data(id, payload)];
    assert e'.streams[id] == Stream(SOpen, [OnData(payload)]);
    forall j | j in e'.streams ensures StreamDelivery(role, e', arrived', j) && CallsFit(e'.streams[j]) {
      if j != id { assert StreamDelivery(role, e, arrived', j) && CallsFit(e.streams[j]); }
    }
  }

  /** Data that the socket drops: of a stream that is over, or that can never come to exist. */
  lemma DroppedDataOk(role: Role, e: Endpoint, arrived: seq<Item>, id: nat, payload: Payload)
    requires Ok(role, e, arrived) && Tame(arrived + [Data(id, payload)]) && Listening(e.state)
    requires id !in e.active && !Fresh(role, e, id) && (id % 2 == Parity(role) ==> id in e.streams)
    ensures Ok(role, e, arrived + [Data(id, payload)])
  {
    Snoc(arrived, Data(id, payload));
    forall j | j in e.streams ensures StreamDelivery(role, e, arrived + [Data(id, payload)], j) {
      assert StreamDelivery(role, e, arrived, j);
    }
  }

  lemma OnCloseStream(role: Role, e: Endpoint, arrived: seq<Item>, id: nat)
    requires Ok(role, e, arrived) && id in e.streams && id in e.active && Listening(e.state) && id in Ended(arrived)
    ensures var e' := OnCloseMsg(e, id);
      id in e'.streams && StreamDelivery(role, e', arrived, id) && CallsFit(e'.streams[id])
  {
    CallSnoc(e.streams[id].calls, OnClose(true));
    assert StreamDelivery(role, e, arrived, id) && CallsFit(e.streams[id]);
  }

  lemma DeliveredAlready(role: Role, e: Endpoint, arrived: seq<Item>, id: nat)
    requires Ok(role, e, arrived)
    ensures OthersDelivered(role, e, arrived, id)
  {
  }

  lemma OnCloseMsgOk(role: Role, e: Endpoint, arrived: seq<Item>, id: nat)
    requires Ok(role, e, arrived) && Listening(e.state) && id in Ended(arrived)
    ensures Ok(role, OnCloseMsg(e, id), arrived)
  {
    hide Ok, StreamDelivery, CallsFit, OthersDelivered, Ended;
    if id in e.active && id in e.streams {
      OnCloseStream(role, e, arrived, id);
      DeliveredAlready(role, e, arrived, id);
      OneStreamOk(role, e, arrived, arrived, id, OnStreamClose(e.streams[id], true), NowOver(e.streams[id]));
    }
  }

  lemma OnResetStream(role: Role, e: Endpoint, arrived: seq<Item>, id: nat, errorCode: nat)
    requires Ok(role, e, arrived) && id in e.streams && id in e.active && Listening(e.state)
    ensures var e' := OnResetMsg(role, e, id, errorCode);
      id in e'.streams && StreamDelivery(role, e', arrived, id) && CallsFit(e'.streams[id])
  {
    CallSnoc(e.streams[id].calls, OnError(errorCode));
    assert StreamDelivery(role, e, arrived, id) && CallsFit(e.streams[id]);
  }

  lemma OnResetMsgOk(role: Role, e: Endpoint, arrived: seq<Item>, id: nat, errorCode: nat)
    requires Ok(role, e, arrived) && Listening(e.state)
    ensures Ok(role, OnResetMsg(role, e, id, errorCode), arrived)
  {
    hide Ok, StreamDelivery, CallsFit, OthersDelivered;
    if id in e.active && id in e.streams {
      OnResetStream(role, e, arrived, id, errorCode);
      DeliveredAlready(role, e, arrived, id);
      OneStreamOk(role, e, arrived, arrived, id, OnStreamError(e.streams[id], errorCode), role.Client?);
    }
  }

  /** A server that is authenticated. */
  lemma AuthenticatedOk(role: Role, e: Endpoint, arrived: seq<Item>)
    requires Ok(role, e, arrived) && e.state == Idle
    ensures Ok(role, e.(state := Auth), arrived)
  {
  }

  /** What the peer and the wire guarantee about the next item. */
  ghost predicate Expected(role: Role, e: Endpoint, arrived: seq<Item>, i: Item) {
    && Tame(arrived + [i])
    && (i.Data? && i.id % 2 == Parity(role) ==> i.id in e.streams)
    && (i.Data? && role.Client? ==> e.state != Idle)
  }

  lemma ReceiveDataOk(role: Role, e: Endpoint, arrived: seq<Item>, id: nat, payload: Payload, verified: bool)
    requires Ok(role, e, arrived) && Expected(role, e, arrived, Data(id, payload))
    ensures Ok(role, OnSocketMessage(role, e, Data(id, payload), verified), arrived + [Data(id, payload)])
  {
    hide Ok, Tame;
    match e.state {
      case CloseWait => ArriveDeaf(role, e, arrived, Data(id, payload));
      case Closed => ArriveDeaf(role, e, arrived, Data(id, payload));
      case Idle =>
        OnSocketErrorOk(role, e, arrived, 1001);
        ArriveDeaf(role, OnSocketError(e, 1001), arrived, Data(id, payload));
      case _ =>
        ActiveExists(role, e, arrived);
        if id in e.active { ActiveDataOk(role, e, arrived, id, payload); }
        else if Fresh(role, e, id) { FreshDataOk(role, e, arrived, id, payload); }
        else { DroppedDataOk(role, e, arrived, id, payload); }
    }
  }

  lemma ActiveExists(role: Role, e: Endpoint, arrived: seq<Item>)
    requires Ok(role, e, arrived)
    ensures e.active <= e.streams.Keys
  {
  }

  /** Every arrival that the peer can cause keeps the invariant. */
  lemma ReceiveOk(role: Role, e: Endpoint, arrived: seq<Item>, i: Item, verified: bool)
    requires Ok(role, e, arrived) && Expected(role, e, arrived, i)
    ensures Ok(role, Receive(role, e, i, verified), arrived + [i])
  {
    hide Ok, Tame, Ended;
    if i.Data? {
      ReceiveDataOk(role, e, arrived, i.id, i.payload, verified);
      return;
    }
    var arrived' := arrived + [i];
    ArriveOk(role, e, arrived, i);
    if i.Fin? {
      OnSocketCloseOk(role, e, arrived');
    } else if e.state == Idle && role.Server? {
      match i {
        case AuthMsg => if verified { AuthenticatedOk(role, e, arrived'); } else { ErrorSocketOk(role, e, arrived', 1002); }
        case Goaway(_, code) => OnSocketErrorOk(role, e, arrived', code);
        case Close(_) => OnSocketErrorOk(role, e, arrived', 1001);
        case Reset(_, _) => OnSocketErrorOk(role, e, arrived', 1001);
        case _ =>
      }
    } else if Listening(e.state) {
      match i {
        case AuthMsg => ErrorSocketOk(role, e, arrived', 1002);
        case Goaway(_, code) => OnSocketErrorOk(role, e, arrived', code);
        case Close(id) => EndedLast(arrived, i); OnCloseMsgOk(role, e, arrived', id);
        case Reset(id, code) => OnResetMsgOk(role, e, arrived', id, code);
        case Ping => if CanSend(e.state) { PlainSendOk(role, e, arrived', Pong); }
        case _ =>
      }
    }
  }

  lemma EndedLast(wire: seq<Item>, i: Item)
    requires i.Close?
    ensures i.id in Ended(wire + [i])
  {
    Snoc(wire, i);
  }
}
