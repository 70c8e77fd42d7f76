/** The two socket implementations as objects that are changed in place, each method proved to do
  * what the automaton of module Mux says. A stream object knows its socket; the socket knows the
  * active streams, users hold on to others. */
module MuxSocket {
  import opened Mux
  import MuxSafety
  import opened MuxNetwork

  class StreamObject {
    const socket: Socket
    const streamId: nat
    var state: StreamState
    /** The callbacks made on this stream. */
    var calls: seq<Call>

    ghost function Abs(): Stream
      reads this
    {
      Stream(state, calls)
    }

    ghost predicate Known()
      reads this, socket
    {
      streamId in socket.streams && socket.streams[streamId] == this
    }

    constructor (socket: Socket, streamId: nat)
      ensures this.socket == socket && this.streamId == streamId && Abs() == Stream(SOpen, [])
    {
      this.socket, this.streamId, state, calls := socket, streamId, SOpen, [];
    }

    method OnClose(byFrame: bool) returns (over: bool)
      modifies this
      ensures Abs() == OnStreamClose(old(Abs()), byFrame) && over == NowOver(old(Abs()))
    {
      match state {
        case SClosed => return true;
        case SCloseWait => return false;
        case SOpen =>
          state, calls := SCloseWait, calls + [Call.OnClose(byFrame)];
          return false;
        case SClosing =>
          state, calls := SClosed, calls + [Call.OnClose(byFrame)];
          return true;
      }
    }

    method OnError(errorCode: nat)
      modifies this
      ensures Abs() == OnStreamError(old(Abs()), errorCode)
    {
      if state != SClosed {
        state, calls := SClosed, calls + [Call.OnError(errorCode)];
      }
    }

    method OnData(payload: Payload)
      modifies this
      ensures Abs() == OnStreamData(old(Abs()), payload)
    {
      if state == SClosing || state == SOpen {
        calls := calls + [Call.OnData(payload)];
      }
    }

    method Close()
      requires socket.Valid() && Known()
      modifies this, socket
      ensures socket.Valid() && socket.streams == old(socket.streams)
      ensures socket.Abs() == StreamClose(old(socket.Abs()), streamId)
    {
      hide Histories, SocketStreamClose;
      ghost var before := Histories(socket.streams);
      if state == SOpen {
        state := SClosing;
        OneChanged(before, socket.streams, streamId);
        socket.SendStreamClose(streamId, false);
      } else if state == SCloseWait {
        state := SClosed;
        OneChanged(before, socket.streams, streamId);
        socket.SendStreamClose(streamId, true);
      }
    }

    method Error(errorCode: nat)
      requires socket.Valid() && Known()
      modifies this, socket
      ensures socket.Valid() && socket.streams == old(socket.streams)
      ensures socket.Abs() == StreamError(old(socket.Abs()), streamId, errorCode)
    {
      hide Histories, SocketStreamError;
      ghost var before := Histories(socket.streams);
      if state == SClosing || state == SClosed {
        state := SClosed;
        OneChanged(before, socket.streams, streamId);
      } else {
        state := SClosed;
        OneChanged(before, socket.streams, streamId);
        socket.SendStreamError(streamId, errorCode);
      }
    }

    method Send(payload: Payload)
      requires socket.Valid() && Known()
      modifies socket
      ensures socket.Valid() && socket.streams == old(socket.streams)
      ensures socket.Abs() == StreamSend(old(socket.Abs()), streamId, payload)
    {
      if state == SOpen || state == SCloseWait {
        socket.SendStreamData(streamId, payload);
      }
    }
  }

  ghost function Histories(streams: map<nat, StreamObject>): (histories: map<nat, Stream>)
    reads streams.Values
    ensures histories.Keys == streams.Keys
    ensures forall id :: id in streams ==> histories[id] == streams[id].Abs()
  {
    map id | id in streams :: streams[id].Abs()
  }

  lemma HistoriesExtended(streams: map<nat, StreamObject>, id: nat, stream: StreamObject)
    ensures Histories(streams[id := stream]) == Histories(streams)[id := stream.Abs()]
  {
  }

  /** One stream object changes: its history is replaced. */
  lemma OneChanged(before: map<nat, Stream>, streams: map<nat, StreamObject>, id: nat)
    requires id in streams && before.Keys == streams.Keys
    requires forall j :: j in streams && j != id ==> before[j] == streams[j].Abs()
    ensures Histories(streams) == before[id := streams[id].Abs()]
  {
  }

  /** `order` has visited the identifiers of `all` that are not in `todo`, each once. */
  ghost predicate Visiting(order: seq<nat>, all: set<nat>, todo: set<nat>) {
    && todo <= all
    && (forall k :: 0 <= k < |order| ==> order[k] in all && order[k] !in todo)
    && (forall id :: id in all && id !in todo ==> id in order)
    && (forall j, k :: 0 <= j < k < |order| ==> order[j] != order[k])
  }

  lemma VisitNext(order: seq<nat>, all: set<nat>, todo: set<nat>, id: nat)
    requires Visiting(order, all, todo) && id in todo
    ensures Visiting(order + [id], all, todo - {id})
  {
    forall j | j in all && j !in todo - {id} ensures j in order + [id] {
      assert j == id || j in order;
    }
  }

  lemma VisitEnds(order: seq<nat>, all: set<nat>)
    requires Visiting(order, all, {})
    ensures Visits(order, all) && forall k :: 0 <= k < |order| ==> order[k] in all
  {
  }

  lemma VisitBegins(all: set<nat>)
    ensures Visiting([], all, all)
  {
  }

  lemma Overwritten(m: map<nat, Stream>, id: nat, first: Stream, second: Stream)
    ensures m[id := first][id := second] == m[id := second]
  {
  }

  lemma NewIds(role: Role, e: Endpoint, id: nat)
    requires MuxSafety.IdsOk(role, e)
    ensures e.next !in e.streams && (Fresh(role, e, id) ==> id !in e.streams)
  {
  }

  class Socket {
    const role: Role
    var state: SocketState
    var active: map<nat, StreamObject>
    var watermark: nat
    var next: nat
    /** All that was put on the websocket. */
    var out: seq<Item>
    /** Every stream object ever made. */
    ghost var streams: map<nat, StreamObject>

    ghost predicate Valid()
      reads this, streams.Values
    {
      && (forall id :: id in streams ==> streams[id].socket == this && streams[id].streamId == id)
      && (forall id :: id in active ==> id in streams && streams[id] == active[id])
    }

    ghost function Abs(): Endpoint
      reads this, streams.Values
    {
      Endpoint(state, Histories(streams), active.Keys, watermark, next, out)
    }

    constructor (role: Role)
      ensures Valid() && this.role == role && Abs() == Initial(role)
    {
      this.role := role;
      state, active, watermark, out := Idle, map[], 0, [];
      next := if role.Client? then 1 else 2;
      streams := map[];
    }

    /** Hands one item to the websocket. */
    method Put(item: Item)
      requires Valid()
      modifies this`out
      ensures Valid() && Abs() == old(Abs()).(out := old(Abs()).out + [item])
    {
      hide Histories;
      out := out + [item];
    }

    method Finish()
      requires Valid()
      modifies this`active, this`state
      ensures Valid() && Abs() == old(Abs()).(active := {}, state := Closed)
    {
      hide Histories;
      active, state := map[], Closed;
    }

    method SendStreamClose(id: nat, nowClosed: bool)
      requires Valid()
      modifies this
      ensures Valid() && streams == old(streams) && Abs() == SocketStreamClose(old(Abs()), id, nowClosed)
    {
      hide Histories;
      if state == Auth || state == CloseWait {
        Put(Item.Close(id));
        if nowClosed {
          active := active - {id};
        }
      }
    }

    method SendStreamError(id: nat, errorCode: nat)
      requires Valid()
      modifies this
      ensures Valid() && streams == old(streams) && Abs() == SocketStreamError(old(Abs()), id, errorCode)
    {
      hide Histories;
      if state == Auth || state == CloseWait {
        Put(Reset(id, errorCode));
        active := active - {id};
      }
    }

    method SendStreamData(id: nat, payload: Payload)
      requires Valid()
      modifies this
      ensures Valid() && streams == old(streams) && Abs() == SocketStreamSend(old(Abs()), id, payload)
    {
      hide Histories;
      if state == Auth || state == CloseWait {
        Put(Data(id, payload));
      }
    }

    /** A stream object joins the active ones. */
    method Adopt(id: nat) returns (stream: StreamObject)
      requires Valid() && id !in streams
      modifies this
      ensures Valid() && streams == old(streams)[id := stream] && stream.streamId == id && fresh(stream)
      ensures active == old(active)[id := stream]
      ensures Abs() == old(Abs()).(streams := old(Abs()).streams[id := Stream(SOpen, [])],
                                   active := old(Abs()).active + {id})
    {
      hide Histories;
      stream := new StreamObject(this, id);
      HistoriesExtended(streams, id, stream);
      active := active[id := stream];
      streams := streams[id := stream];
    }

    /** No stream when the socket is not authenticated. */
    method OpenStream() returns (stream: StreamObject?)
      requires Valid() && MuxSafety.IdsOk(role, Abs())
      modifies this
      ensures Valid() && Abs() == Mux.OpenStream(old(Abs()))
      ensures if old(state) == Auth then stream != null && streams == old(streams)[old(next) := stream] && fresh(stream)
              else stream == null && streams == old(streams)
    {
      if state == Auth {
        NewIds(role, Abs(), next);
        stream := Adopt(next);
        next := next + 2;
      } else {
        stream := null;
      }
    }

    method CloseActiveStreams()
      requires Valid()
      modifies active.Values
      ensures Valid() && Abs() == old(Abs()).(streams := CloseActive(old(Abs())))
    {
      var todo := active.Keys;
      while todo != {}
        invariant todo <= active.Keys && Valid()
        invariant forall id :: id in streams ==>
          (streams[id].Abs() == if id in active && id !in todo then OnStreamClose(old(streams[id].Abs()), false) else old(streams[id].Abs()))
        decreases todo
      {
        var id :| id in todo;
        var _ := active[id].OnClose(false);
        todo := todo - {id};
      }
    }

    method ErrorActiveStreams(errorCode: nat)
      requires Valid()
      modifies active.Values
      ensures Valid() && Abs() == old(Abs()).(streams := ErrorActive(old(Abs()), errorCode))
    {
      var todo := active.Keys;
      while todo != {}
        invariant todo <= active.Keys && Valid()
        invariant forall id :: id in streams ==>
          (streams[id].Abs() == if id in active && id !in todo then OnStreamError(old(streams[id].Abs()), errorCode) else old(streams[id].Abs()))
        decreases todo
      {
        var id :| id in todo;
        active[id].OnError(errorCode);
        todo := todo - {id};
      }
    }

    method FailStreams(errorCode: nat)
      requires Valid()
      modifies this, active.Values
      ensures Valid() && streams == old(streams)
      ensures Abs() == old(Abs()).(streams := ErrorActive(old(Abs()), errorCode), active := {}, state := Closed)
    {
      hide Histories, ErrorActive;
      ErrorActiveStreams(errorCode);
      Finish();
    }

    /** close() on a copy of the active streams, in some order. */
    method CloseStreams() returns (ghost order: seq<nat>)
      requires Valid()
      modifies this, active.Values
      ensures Valid() && Visits(order, old(active).Keys) && forall k :: 0 <= k < |order| ==> order[k] in old(streams)
      ensures Abs() == CloseEach(old(Abs()), order)
      ensures streams == old(streams)
    {
      hide Histories, StreamClose, Visiting, Visits;
      var was := active;
      var todo := was.Keys;
      order := [];
      VisitBegins(was.Keys);
      while todo != {}
        invariant Visiting(order, was.Keys, todo) && todo <= was.Keys && Valid() && streams == old(streams)
        invariant forall id :: id in was ==> id in streams && streams[id] == was[id]
        invariant forall k :: 0 <= k < |order| ==> order[k] in streams
        invariant Abs() == CloseEach(old(Abs()), order)
        decreases todo
      {
        var id :| id in todo;
        was[id].Close();
        CloseEachSnoc(old(Abs()), order, id);
        VisitNext(order, was.Keys, todo, id);
        order := order + [id];
        todo := todo - {id};
      }
      VisitEnds(order, was.Keys);
    }

    method CloseSocket() returns (ghost order: seq<nat>)
      requires Valid()
      modifies this, active.Values
      ensures Valid() && streams == old(streams)
      ensures Visits(order, old(active).Keys) && forall k :: 0 <= k < |order| ==> order[k] in old(streams)
      ensures Abs() == Mux.CloseSocket(old(Abs()), order)
    {
      hide Histories, CloseEach, Visits;
      match state {
        case Closing => order := AnyOrder();
        case Closed => order := AnyOrder();
        case Idle =>
          order := AnyOrder();
          Finish();
          Put(Fin);
        case CloseWait =>
          order := CloseStreams();
          Finish();
          Put(Fin);
        case Auth =>
          order := CloseStreams();
          state := Closing;
          Put(Fin);
      }
    }

    /** The highest identifier seen or used. */
    function LastId(): nat
      reads this
    {
      if next >= 2 && next - 2 > watermark then next - 2 else watermark
    }

    method SayGoaway(last: nat, errorCode: nat)
      requires Valid()
      modifies this`out
      ensures Valid() && Abs() == old(Abs()).(out := old(Abs()).out + [Goaway(last, errorCode), Fin])
    {
      hide Histories;
      Put(Goaway(last, errorCode));
      Put(Fin);
      assert out == old(out) + [Goaway(last, errorCode), Fin];
    }

    method ErrorSocket(errorCode: nat)
      requires Valid()
      modifies this, active.Values
      ensures Valid() && streams == old(streams) && Abs() == Mux.ErrorSocket(role, old(Abs()), errorCode)
    {
      hide Histories, ErrorActive;
      if state == Closing || state == Closed || (role.Client? && state == Idle) {
        Finish();
      } else {
        FailStreams(errorCode);
        SayGoaway(LastId(), errorCode);
      }
    }

    /** The client's authentication message; it is sent again from time to time. */
    method SendAuth()
      requires Valid() && role.Client?
      modifies this
      ensures Valid() && streams == old(streams) && Abs() == Mux.SendAuth(old(Abs()))
    {
      hide Histories;
      if state == Idle || state == Auth {
        Put(AuthMsg);
        state := Auth;
      }
    }

    method PingSocket()
      requires Valid() && role.Client?
      modifies this
      ensures Valid() && streams == old(streams) && Abs() == Mux.SendPing(old(Abs()))
    {
      hide Histories;
      if state == Auth || state == CloseWait {
        Put(Ping);
      }
    }

    method OnSocketClose()
      requires Valid()
      modifies this, active.Values
      ensures Valid() && streams == old(streams) && Abs() == Mux.OnSocketClose(old(Abs()))
    {
      hide Histories, CloseActive, OnStreamClose;
      if state == Idle || state == Auth {
        CloseActiveStreams();
        state := CloseWait;
      } else if state == Closing {
        CloseActiveStreams();
        Finish();
      }
    }

    method OnSocketError(errorCode: nat)
      requires Valid()
      modifies this, active.Values
      ensures Valid() && streams == old(streams) && Abs() == Mux.OnSocketError(old(Abs()), errorCode)
    {
      hide Histories, ErrorActive;
      if state != Closed {
        FailStreams(errorCode);
      }
    }

    /** The next data of an active stream. */
    method PassOn(id: nat, payload: Payload)
      requires Valid() && id in active
      modifies active[id]
      ensures Valid()
      ensures Abs() == old(Abs()).(streams := old(Abs()).streams[id := OnStreamData(old(Abs()).streams[id], payload)])
    {
      hide Histories;
      ghost var before := Histories(streams);
      active[id].OnData(payload);
      OneChanged(before, streams, id);
    }

    /** A new stream of the peer. */
    method Accept(id: nat)
      requires Valid() && id !in streams
      modifies this
      ensures Valid() && id in active && streams == old(streams)[id := active[id]] && fresh(active[id])
      ensures Abs() == old(Abs()).(streams := old(Abs()).streams[id := Stream(SOpen, [])],
                                   active := old(Abs()).active + {id}, watermark := id)
    {
      hide Histories;
      watermark := id;
      var _ := Adopt(id);
    }

    /** Data for an active stream, or for a new one of the peer. */
    method OnDataMsg(id: nat, payload: Payload)
      requires Valid() && MuxSafety.Listening(state) && MuxSafety.IdsOk(role, Abs())
      modifies this, active.Values
      ensures Valid() && Abs() == Mux.OnDataMsg(role, old(Abs()), id, payload)
      ensures forall j :: j in old(streams) ==> j in streams && streams[j] == old(streams[j])
    {
      hide Histories, OnStreamData, MuxSafety.IdsOk;
      if id !in active && state == Closing {
        return;
      }
      if id !in active && id % 2 == (if role.Client? then 0 else 1) && id > watermark {
        NewIds(role, Abs(), id);
        Accept(id);
        Overwritten(old(Abs()).streams, id, Stream(SOpen, []), OnStreamData(Stream(SOpen, []), payload));
      }
      if id in active {
        label ready:
        PassOn(id, payload);
        assert streams == old@ready(streams);
      }
    }

    method OnCloseMsg(id: nat)
      requires Valid()
      modifies this, active.Values
      ensures Valid() && streams == old(streams) && Abs() == Mux.OnCloseMsg(old(Abs()), id)
    {
      hide Histories, OnStreamClose, OnStreamError;
      ghost var before := Histories(streams);
      if id in active {
        var over := active[id].OnClose(true);
        OneChanged(before, streams, id);
        if over {
          active := active - {id};
        }
      }
    }

    method OnResetMsg(id: nat, errorCode: nat)
      requires Valid()
      modifies this, active.Values
      ensures Valid() && streams == old(streams) && Abs() == Mux.OnResetMsg(role, old(Abs()), id, errorCode)
    {
      hide Histories, OnStreamClose, OnStreamError;
      ghost var before := Histories(streams);
      if id in active {
        active[id].OnError(errorCode);
        OneChanged(before, streams, id);
        if role.Client? {
          active := active - {id};
        }
      }
    }

    /** What arrives on the websocket. */
    method OnSocketMessage(msg: Item, verified: bool)
      requires Valid() && !msg.Fin?
      requires MuxSafety.IdsOk(role, Abs())
      modifies this, active.Values
      ensures Valid() && Abs() == Mux.OnSocketMessage(role, old(Abs()), msg, verified)
      ensures forall j :: j in old(streams) ==> j in streams && streams[j] == old(streams[j])
    {
      hide Histories, Mux.OnSocketError, Mux.ErrorSocket, Mux.OnDataMsg, Mux.OnCloseMsg, Mux.OnResetMsg, MuxSafety.IdsOk;
      if state == Idle && role.Server? {
        match msg {
          case AuthMsg =>
            if verified {
              state := Auth;
            } else {
              ErrorSocket(1002);
            }
          case Goaway(_, errorCode) => OnSocketError(errorCode);
          case Data(_, _) => OnSocketError(1001);
          case Close(_) => OnSocketError(1001);
          case Reset(_, _) => OnSocketError(1001);
          case Ping =>
          case Pong =>
        }
      } else if state == Auth || state == Closing {
        match msg {
          case AuthMsg =>
            if role.Server? && !verified {
              ErrorSocket(1002);
            }
          case Goaway(_, errorCode) => OnSocketError(errorCode);
          case Data(id, payload) => OnDataMsg(id, payload);
          case Close(id) => OnCloseMsg(id);
          case Reset(id, errorCode) => OnResetMsg(id, errorCode);
          case Ping =>
            if state == Auth {
              Put(Pong);
            }
          case Pong =>
        }
      }
    }

    /** Some order of the active streams. */
    ghost method AnyOrder() returns (order: seq<nat>)
      requires Valid()
      ensures Visits(order, active.Keys) && forall k :: 0 <= k < |order| ==> order[k] in streams
    {
      hide Visiting, Visits;
      var todo := active.Keys;
      order := [];
      VisitBegins(active.Keys);
      while todo != {}
        invariant Visiting(order, active.Keys, todo)
        decreases todo
      {
        var id :| id in todo;
        VisitNext(order, active.Keys, todo, id);
        order := order + [id];
        todo := todo - {id};
      }
      VisitEnds(order, active.Keys);
    }
  }
}
