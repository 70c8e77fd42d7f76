/** Which streams of the peer a socket ever gets, told from the wire alone: those whose first data
  * comes before any data of a higher identifier. */
module MuxAcceptance {
  import opened Mux
  import opened MuxSafety
  import opened MuxNetwork

  predicate PeerData(role: Role, i: Item) {
    i.Data? && i.id % 2 != Parity(role)
  }

  /** The highest identifier of the peer with data on the wire, or 0. */
  function Highest(role: Role, wire: seq<Item>): nat {
    if wire == [] then 0
    else
      var before := Highest(role, Init(wire));
      if PeerData(role, Last(wire)) && Last(wire).id > before then Last(wire).id else before
  }

  /** The wire has data of the stream before any of a higher one. */
  predicate Opens(role: Role, wire: seq<Item>, id: nat) {
    wire != [] &&
    (Opens(role, Init(wire), id)
     || (PeerData(role, Last(wire)) && Last(wire).id == id && id > Highest(role, Init(wire))))
  }

  lemma WireSnoc(role: Role, wire: seq<Item>, i: Item)
    ensures Highest(role, wire + [i]) ==
      (if PeerData(role, i) && i.id > Highest(role, wire) then i.id else Highest(role, wire))
    ensures forall id: nat :: Opens(role, wire + [i], id) <==>
      (Opens(role, wire, id) || (PeerData(role, i) && i.id == id && id > Highest(role, wire)))
  {
    assert Init(wire + [i]) == wire;
  }

  // ------------------------------------------------------------------------------------------
  // What the condition says
  // ------------------------------------------------------------------------------------------

  lemma {:induction false} HighestBounds(role: Role, wire: seq<Item>)
    ensures forall k :: 0 <= k < |wire| && PeerData(role, wire[k]) ==> wire[k].id <= Highest(role, wire)
    ensures Highest(role, wire) == 0 || exists k :: 0 <= k < |wire| && PeerData(role, wire[k]) && wire[k].id == Highest(role, wire)
  {
    if wire != [] {
      HighestBounds(role, Init(wire));
      forall k | 0 <= k < |wire| && PeerData(role, wire[k]) ensures wire[k].id <= Highest(role, wire) {
        if k < |wire| - 1 { assert wire[k] == Init(wire)[k]; }
      }
      if Highest(role, wire) == Highest(role, Init(wire)) != 0 {
        var k :| 0 <= k < |Init(wire)| && PeerData(role, Init(wire)[k]) && Init(wire)[k].id == Highest(role, wire);
        assert wire[k] == Init(wire)[k];
      } else if Highest(role, wire) != 0 {
        assert PeerData(role, wire[|wire| - 1]);
      }
    }
  }

  /** At `k` there is data of the stream, and no data of it or of a higher one before. */
  ghost predicate FirstAt(role: Role, wire: seq<Item>, id: nat, k: nat) {
    && k < |wire| && PeerData(role, wire[k]) && wire[k].id == id && id > 0
    && forall j :: 0 <= j < k && PeerData(role, wire[j]) ==> wire[j].id < id
  }

  lemma {:induction false} OpensMeans(role: Role, wire: seq<Item>, id: nat)
    ensures Opens(role, wire, id) <==> exists k: nat :: FirstAt(role, wire, id, k)
  {
    if wire != [] {
      var before := Init(wire);
      OpensMeans(role, before, id);
      HighestBounds(role, before);
      forall k: nat | FirstAt(role, before, id, k) ensures FirstAt(role, wire, id, k) {
        assert wire[k] == before[k];
      }
      forall k: nat | FirstAt(role, wire, id, k) ensures Opens(role, wire, id) {
        if k < |before| {
          assert FirstAt(role, before, id, k);
        } else if Highest(role, before) != 0 {
          var j :| 0 <= j < |before| && PeerData(role, before[j]) && before[j].id == Highest(role, before);
          assert wire[j] == before[j];
        }
      }
      if PeerData(role, Last(wire)) && Last(wire).id == id && id > Highest(role, before) {
        assert FirstAt(role, wire, id, |wire| - 1) by {
          forall j | 0 <= j < |wire| - 1 && PeerData(role, wire[j]) ensures wire[j].id < id {
            assert wire[j] == before[j];
          }
        }
      }
    }
  }

  /** Once data of a stream was too late, it stays so on every longer wire. */
  lemma {:induction false} LateForEver(role: Role, wire: seq<Item>, n: nat, id: nat)
    requires n <= |wire| && id % 2 != Parity(role) && DataOf(wire[..n], id) != [] && !Opens(role, wire[..n], id)
    ensures !Opens(role, wire, id) && Highest(role, wire) >= id
    decreases |wire| - n
  {
    if n == |wire| {
      assert wire[..n] == wire;
      SeenIsBelow(role, wire, id);
    } else {
      assert Init(wire)[..n] == wire[..n];
      LateForEver(role, Init(wire), n, id);
    }
  }

  lemma {:induction false} SeenIsBelow(role: Role, wire: seq<Item>, id: nat)
    requires id % 2 != Parity(role) && DataOf(wire, id) != []
    ensures Highest(role, wire) >= id
  {
    if !(Last(wire).Data? && Last(wire).id == id) {
      SeenIsBelow(role, Init(wire), id);
    }
  }

  // ------------------------------------------------------------------------------------------
  // The invariant
  // ------------------------------------------------------------------------------------------

  /** The peer's streams are those that the wire opens, at least while the socket is authenticated;
    * before that no data has arrived. */
  ghost predicate Heard(role: Role, e: Endpoint, arrived: seq<Item>) {
    && (forall id :: id in e.streams && id % 2 != Parity(role) ==> Opens(role, arrived, id))
    && (e.state == Auth ==> Current(role, e, arrived))
    && (e.state == Idle ==> Current(role, e, arrived) && e.watermark == 0)
  }

  ghost predicate Current(role: Role, e: Endpoint, arrived: seq<Item>) {
    && e.watermark == Highest(role, arrived)
    && forall id: nat :: Opens(role, arrived, id) ==> id in e.streams
  }

  /** A step that makes no stream of the peer and leaves the watermark. */
  ghost predicate Quiet(role: Role, e: Endpoint, e': Endpoint) {
    && e'.watermark == e.watermark && e.streams.Keys <= e'.streams.Keys
    && (forall id :: id in e'.streams && id !in e.streams ==> id % 2 == Parity(role))
    && (e'.state == Auth ==> e.state == Auth || e.state == Idle) && (e'.state == Idle ==> e.state == Idle)
  }

  lemma QuietHeard(role: Role, e: Endpoint, e': Endpoint, arrived: seq<Item>)
    requires Heard(role, e, arrived) && Quiet(role, e, e')
    ensures Heard(role, e', arrived)
  {
  }

  lemma ActQuiet(role: Role, e: Endpoint, action: Action)
    requires IdsOk(role, e)
    ensures Quiet(role, e, Act(role, e, action))
  {
    if action.CloseSock? && Visits(action.order, e.active) && e.active <= e.streams.Keys {
      CloseEachQuiet(e, action.order);
    }
  }

  lemma {:induction false} CloseEachQuiet(e: Endpoint, order: seq<nat>)
    requires forall k :: 0 <= k < |order| ==> order[k] in e.streams
    ensures var e' := CloseEach(e, order);
      e'.streams.Keys == e.streams.Keys && e'.state == e.state && e'.watermark == e.watermark
    decreases |order|
  {
    if order != [] {
      CloseEachQuiet(StreamClose(e, order[0]), order[1..]);
    }
  }

  lemma ReceiveQuiet(role: Role, e: Endpoint, i: Item, verified: bool)
    requires !i.Data? || e.state != Auth
    ensures Quiet(role, e, Receive(role, e, i, verified))
  {
    assert ErrorActive(e, 1001).Keys == e.streams.Keys && CloseActive(e).Keys == e.streams.Keys;
    assert ErrorActive(e, 1002).Keys == e.streams.Keys;
  }

  /** What arrives but is no data opens nothing. */
  lemma PlainHeard(role: Role, e: Endpoint, arrived: seq<Item>, i: Item)
    requires Heard(role, e, arrived) && (!i.Data? || (e.state != Auth && e.state != Idle))
    ensures Heard(role, e, arrived + [i])
  {
    WireSnoc(role, arrived, i);
  }

  lemma DataHeard(role: Role, e: Endpoint, arrived: seq<Item>, id: nat, payload: Payload)
    requires Heard(role, e, arrived) && IdsOk(role, e) && e.state == Auth
    ensures Heard(role, OnDataMsg(role, e, id, payload), arrived + [Data(id, payload)])
  {
    WireSnoc(role, arrived, Data(id, payload));
  }

  lemma ReceiveHeard(role: Role, e: Endpoint, arrived: seq<Item>, i: Item, verified: bool)
    requires Heard(role, e, arrived) && IdsOk(role, e)
    requires i.Data? && e.state == Idle ==> role.Server?
    ensures Heard(role, Receive(role, e, i, verified), arrived + [i])
  {
    hide Heard, IdsOk, OnDataMsg, Quiet;
    if i.Data? && e.state == Auth {
      DataHeard(role, e, arrived, i.id, i.payload);
    } else if i.Data? && e.state == Idle {
      IdleHeard(role, e, arrived, i, verified);
    } else {
      ReceiveQuiet(role, e, i, verified);
      PlainHeard(role, e, arrived, i);
      QuietHeard(role, e, Receive(role, e, i, verified), arrived + [i]);
    }
  }

  /** A server that gets data before it is authenticated ends. */
  lemma IdleHeard(role: Role, e: Endpoint, arrived: seq<Item>, i: Item, verified: bool)
    requires Heard(role, e, arrived) && i.Data? && e.state == Idle && role.Server?
    ensures Heard(role, Receive(role, e, i, verified), arrived + [i])
  {
    ReceiveQuiet(role, e, i, verified);
    WireSnoc(role, arrived, i);
  }

  ghost predicate WorldHeard(w: World) {
    && w.atClient <= |w.server.out| && Heard(Client, w.client, w.server.out[..w.atClient])
    && w.atServer <= |w.client.out| && Heard(Server, w.server, w.client.out[..w.atServer])
  }

  lemma StepHeard(w: World, ev: Event)
    requires WorldOk(w) && WorldHeard(w)
    ensures WorldHeard(Step(w, ev))
  {
    hide Heard, Act, Receive, Handshake, Quiet, Ok, Grows, IdsOk;
    SideEndpointOk(Client, w.client, w.server, w.atClient);
    SideEndpointOk(Server, w.server, w.client, w.atServer);
    EndpointIds(Client, w.client);
    EndpointIds(Server, w.server);
    match ev {
      case Event(Client, Arrive(verified)) =>
        if w.atClient < |w.server.out| {
          var i := w.server.out[w.atClient];
          if w.client.state == Idle { IdleClientHearsNothing(w); }
          TakeOne(w.server.out, w.atClient);
          ReceiveHeard(Client, w.client, w.server.out[..w.atClient], i, verified);
          ReceiveGrows(Client, w.client, i, verified);
          SamePrefix(w.client, Receive(Client, w.client, i, verified), w.atServer);
        }
      case Event(Server, Arrive(verified)) =>
        if w.atServer < |w.client.out| {
          var i := w.client.out[w.atServer];
          TakeOne(w.client.out, w.atServer);
          ReceiveHeard(Server, w.server, w.client.out[..w.atServer], i, verified);
          ReceiveGrows(Server, w.server, i, verified);
          SamePrefix(w.server, Receive(Server, w.server, i, verified), w.atClient);
        }
      case Event(Client, action) => ActHeard(Client, w.client, w.server.out[..w.atClient], action, w.atServer);
      case Event(Server, action) => ActHeard(Server, w.server, w.client.out[..w.atServer], action, w.atClient);
    }
  }

  lemma ActHeard(role: Role, e: Endpoint, arrived: seq<Item>, action: Action, at: nat)
    requires Heard(role, e, arrived) && EndpointOk(role, e) && at <= |e.out|
    ensures Heard(role, Act(role, e, action), arrived)
    ensures at <= |Act(role, e, action).out| && Act(role, e, action).out[..at] == e.out[..at]
  {
    hide Heard, Act, Quiet, IdsOk, Grows;
    EndpointIds(role, e);
    ActQuiet(role, e, action);
    QuietHeard(role, e, Act(role, e, action), arrived);
    ActGrows(role, e, action);
    SamePrefix(e, Act(role, e, action), at);
  }

  lemma {:induction false} RunHeard(events: seq<Event>)
    ensures WorldHeard(Run(events))
  {
    if events == [] {
      assert Heard(Client, Initial(Client), []) && Heard(Server, Initial(Server), []);
    } else {
      RunHeard(Init(events));
      RunOk(Init(events));
      StepHeard(Run(Init(events)), Last(events));
    }
  }

  // ------------------------------------------------------------------------------------------
  // What a sender can tell
  // ------------------------------------------------------------------------------------------

  /** What a socket has taken of the wire. */
  function Arrived(role: Role, w: World): seq<Item>
    requires Taken(role, w) <= |Side(Other(role), w).out|
  {
    Side(Other(role), w).out[..Taken(role, w)]
  }

  /** In every run a socket has only those streams of the peer whose first data comes before any
    * data of a higher identifier; while it is authenticated, it has exactly those. */
  lemma AcceptedFromWire(events: seq<Event>, role: Role, id: nat)
    requires id % 2 != Parity(role)
    ensures var w := Run(events);
      && Taken(role, w) <= |Side(Other(role), w).out|
      && (id in Side(role, w).streams ==> exists k: nat :: FirstAt(role, Arrived(role, w), id, k))
      && (Side(role, w).state == Auth ==>
            (id in Side(role, w).streams <==> exists k: nat :: FirstAt(role, Arrived(role, w), id, k)))
  {
    RunHeard(events);
    OpensMeans(role, Arrived(role, Run(events)), id);
  }

  lemma {:induction false} TakenGrows(events: seq<Event>, more: seq<Event>, role: Role)
    ensures Taken(role, Run(events)) <= Taken(role, Run(events + more))
  {
    if more == [] {
      assert events + more == events;
    } else {
      TakenGrows(events, Init(more), role);
      assert Init(events + more) == events + Init(more) && Last(events + more) == Last(more);
    }
  }

  /** A stream whose first data came too late never comes to exist, whatever happens later. */
  lemma NeverAccepted(events: seq<Event>, more: seq<Event>, role: Role, id: nat)
    requires id % 2 != Parity(role) && Taken(role, Run(events)) <= |Side(Other(role), Run(events)).out|
    requires DataOf(Arrived(role, Run(events)), id) != []
    requires !exists k: nat :: FirstAt(role, Arrived(role, Run(events)), id, k)
    ensures id !in Side(role, Run(events + more)).streams
  {
    var w, w' := Run(events), Run(events + more);
    OpensMeans(role, Arrived(role, w), id);
    RunHeard(events + more);
    TakenGrows(events, more, role);
    StreamsPersist(events, more, Other(role));
    var n := Taken(role, w);
    assert Arrived(role, w')[..n] == Arrived(role, w);
    LateForEver(role, Arrived(role, w'), n, id);
  }
}
