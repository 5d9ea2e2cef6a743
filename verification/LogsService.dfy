/**
 The registry of log sessions. A subscription takes three segments: it checks the
 registry, registers a session once the container is found, and attaches the stream once
 Docker has opened it.
 */
module RegistryRuns {
  import opened Basics

  const MAX_SESSIONS_PER_SOCKET := 3

  /** Socket.IO's identifiers do not contain the separator. */
  type SocketId = s: string | '|' !in s witness ""

  /** A session's stream: Docker has not opened it, the session holds it, it ended by itself, it was destroyed. */
  datatype Stream = NotOpened | Held | Ended | Destroyed

  datatype Session = Session(socket: SocketId, container: string, closed: bool, stream: Stream)

  datatype Flow =
    | Checking(socket: SocketId, container: string)
    | Opening(session: nat)

  datatype Registry = Registry(
    sessions: map<string, nat>,
    // every session ever made; the map holds positions in it
    table: seq<Session>,
    // subscriptions under way
    flows: map<nat, Flow>
  )

  const EMPTY_REGISTRY := Registry(map[], [], map[])

  datatype Event =
    | Subscribes(flow: nat, socket: SocketId, request: Option<string>)
    | Found(flow: nat, managed: bool)
    | Opened(flow: nat)
    | OpenFailed(flow: nat)
    | Unsubscribes(socket: SocketId, container: string)
    | Disconnects(socket: SocketId)
    | StreamEnds(session: nat)
    | SessionCloses(session: nat)
    | ShutsDown

  function Key(socket: string, container: string): string {
    socket + "|" + container
  }

  /** `key.startsWith(socketId + "|")`. */
  predicate OfSocket(key: string, socket: string) {
    socket + "|" <= key
  }

  function KeysOf(sessions: map<string, nat>, socket: string): set<string> {
    set k | k in sessions && OfSocket(k, socket)
  }

  // ----- the code's segments

  function Shut(session: Session): Session {
    if session.closed then session
    else session.(closed := true, stream := if session.stream.Held? then Destroyed else session.stream)
  }

  /** LogSession.close, with the onClose callback that deletes the session's key. */
  function Close(r: Registry, id: nat): Registry {
    if id >= |r.table| || r.table[id].closed then r
    else r.(table := r.table[id := Shut(r.table[id])],
            sessions := r.sessions - {Key(r.table[id].socket, r.table[id].container)})
  }

  /** Closing every session registered under one of the keys. */
  function CloseKeys(r: Registry, keys: set<string>): Registry {
    r.(table := seq(|r.table|, id requires 0 <= id < |r.table| =>
                 var s := r.table[id];
                 var key := Key(s.socket, s.container);
                 if key in keys && key in r.sessions && r.sessions[key] == id then Shut(s) else s),
       sessions := r.sessions - keys)
  }

  function Subscribe(r: Registry, flow: nat, socket: SocketId, request: Option<string>): Registry {
    if flow in r.flows || request.None? then r
    else if Key(socket, request.value) in r.sessions then r
    else if |KeysOf(r.sessions, socket)| >= MAX_SESSIONS_PER_SOCKET then r
    else r.(flows := r.flows[flow := Checking(socket, request.value)])
  }

  function Register(r: Registry, flow: nat, managed: bool): Registry {
    if flow !in r.flows || !r.flows[flow].Checking? then r
    else if !managed then r.(flows := r.flows - {flow})
    else
      var Checking(socket, container) := r.flows[flow];
      Registry(r.sessions[Key(socket, container) := |r.table|],
               r.table + [Session(socket, container, false, NotOpened)],
               r.flows[flow := Opening(|r.table|)])
  }

  function Attach(r: Registry, flow: nat): Registry {
    if flow !in r.flows || !r.flows[flow].Opening? || r.flows[flow].session >= |r.table| then r
    else
      var id := r.flows[flow].session;
      r.(table := r.table[id := r.table[id].(stream := if r.table[id].closed then Destroyed else Held)],
         flows := r.flows - {flow})
  }

  function FailToOpen(r: Registry, flow: nat): Registry {
    if flow !in r.flows || !r.flows[flow].Opening? then r
    else Close(r, r.flows[flow].session).(flows := r.flows - {flow})
  }

  function Unsubscribe(r: Registry, key: string): Registry {
    if key in r.sessions then Close(r, r.sessions[key]) else r
  }

  function EndStream(r: Registry, id: nat): Registry {
    if id < |r.table| && r.table[id].stream.Held? then r.(table := r.table[id := r.table[id].(stream := Ended)]) else r
  }

  function Step(r: Registry, e: Event): Registry {
    match e
    case Subscribes(flow, socket, request) => Subscribe(r, flow, socket, request)
    case Found(flow, managed) => Register(r, flow, managed)
    case Opened(flow) => Attach(r, flow)
    case OpenFailed(flow) => FailToOpen(r, flow)
    case Unsubscribes(socket, container) => Unsubscribe(r, Key(socket, container))
    case Disconnects(socket) => CloseKeys(r, KeysOf(r.sessions, socket))
    case StreamEnds(id) => EndStream(r, id)
    case SessionCloses(id) => Close(r, id)
    case ShutsDown => CloseKeys(r, r.sessions.Keys)
  }

  function Run(events: seq<Event>): Registry {
    if events == [] then EMPTY_REGISTRY else Step(Run(events[..|events| - 1]), events[|events| - 1])
  }

  // ----- keys

  lemma KeyOfSocket(socket: SocketId, container: string, other: SocketId)
    ensures OfSocket(Key(socket, container), other) <==> socket == other
  {
    var key := Key(socket, container);
    if OfSocket(key, other) {
      assert key[|other|] == (other + "|")[|other|] == '|';
      assert forall i | 0 <= i < |other| :: key[i] == (other + "|")[i] == other[i] && other[i] in other;
      assert forall i | 0 <= i < |socket| :: key[i] == socket[i] && socket[i] in socket;
      assert key[|socket|] == '|';
      assert |socket| == |other|;
    }
  }

  lemma KeysTellApart(socket: SocketId, container: string, other: SocketId, another: string)
    requires Key(socket, container) == Key(other, another)
    ensures socket == other && container == another
  {
    KeyOfSocket(socket, container, other);
    assert container == Key(socket, container)[|socket| + 1..];
  }

  // ----- what every run keeps

  function KeyOf(s: Session): string {
    Key(s.socket, s.container)
  }

  /** Every entry of the map is an open session, under its own key. */
  ghost predicate MapsToOpen(r: Registry) {
    forall key <- r.sessions ::
      r.sessions[key] < |r.table| && !r.table[r.sessions[key]].closed && KeyOf(r.table[r.sessions[key]]) == key
  }

  /** An opened stream is held by an open session, or it ended, or it was destroyed. */
  ghost predicate NoStreamLeftBehind(r: Registry) {
    forall s <- r.table :: s.stream.Held? ==> !s.closed
  }

  /** A subscription that waits for Docker has its session, without a stream, to itself. */
  ghost predicate OpeningsWait(r: Registry) {
    && (forall f <- r.flows | r.flows[f].Opening? ::
          r.flows[f].session < |r.table| && r.table[r.flows[f].session].stream.NotOpened?)
    && (forall f <- r.flows, g <- r.flows | f != g && r.flows[f].Opening? && r.flows[g].Opening? ::
          r.flows[f].session != r.flows[g].session)
  }

  ghost predicate Kept(r: Registry) {
    MapsToOpen(r) && NoStreamLeftBehind(r) && OpeningsWait(r)
  }

  lemma CloseKeeps(r: Registry, id: nat)
    requires Kept(r)
    ensures Kept(Close(r, id))
  {
  }

  lemma CloseKeysKeeps(r: Registry, keys: set<string>)
    requires Kept(r)
    ensures Kept(CloseKeys(r, keys))
  {
  }

  lemma RegisterKeeps(r: Registry, flow: nat, managed: bool)
    requires Kept(r)
    ensures Kept(Register(r, flow, managed))
  {
  }

  lemma AttachKeeps(r: Registry, flow: nat)
    requires Kept(r)
    ensures Kept(Attach(r, flow))
  {
  }

  lemma {:induction false} StepKeeps(r: Registry, e: Event)
    requires Kept(r)
    ensures Kept(Step(r, e))
  {
    match e
    case Found(flow, managed) => RegisterKeeps(r, flow, managed);
    case Opened(flow) => AttachKeeps(r, flow);
    case OpenFailed(flow) =>
      if flow in r.flows && r.flows[flow].Opening? {
        CloseKeeps(r, r.flows[flow].session);
      }
    case Unsubscribes(socket, container) =>
      var key := Key(socket, container);
      if key in r.sessions {
        CloseKeeps(r, r.sessions[key]);
      }
    case SessionCloses(id) => CloseKeeps(r, id);
    case Disconnects(socket) => CloseKeysKeeps(r, KeysOf(r.sessions, socket));
    case ShutsDown => CloseKeysKeeps(r, r.sessions.Keys);
    case _ =>
  }

  /** In every run, whatever overlaps, each opened stream is held by an open session, ended, or destroyed. */
  lemma {:induction false} StreamsAreOwned(events: seq<Event>)
    ensures Kept(Run(events))
    decreases |events|
  {
    if events != [] {
      StreamsAreOwned(events[..|events| - 1]);
      StepKeeps(Run(events[..|events| - 1]), events[|events| - 1]);
    }
  }

  lemma RunOneMore(events: seq<Event>, e: Event)
    ensures Run(events + [e]) == Step(Run(events), e)
  {
    assert (events + [e])[..|events|] == events;
  }

  lemma DestroyedStays(r: Registry, e: Event, id: nat)
    requires Kept(r) && id < |r.table| && r.table[id].stream == Destroyed
    ensures id < |Step(r, e).table| && Step(r, e).table[id].stream == Destroyed
  {
  }

  /** A stream that opens when its session is already closed is destroyed, and stays so whatever follows. */
  lemma {:induction false} LateStreamIsDestroyed(before: seq<Event>, flow: nat, after: seq<Event>)
    requires var r := Run(before);
             && flow in r.flows && r.flows[flow].Opening?
             && (r.flows[flow].session < |r.table| ==> r.table[r.flows[flow].session].closed)
    ensures var id := Run(before).flows[flow].session;
            var end := Run(before + [Opened(flow)] + after);
            id < |end.table| && end.table[id].stream == Destroyed
    decreases |after|
  {
    StreamsAreOwned(before);
    if after == [] {
      RunOneMore(before, Opened(flow));
      assert before + [Opened(flow)] + [] == before + [Opened(flow)];
    } else {
      var init, e := after[..|after| - 1], after[|after| - 1];
      var events := before + [Opened(flow)] + init;
      LateStreamIsDestroyed(before, flow, init);
      StreamsAreOwned(events);
      DestroyedStays(Run(events), e, Run(before).flows[flow].session);
      RunOneMore(events, e);
      assert before + [Opened(flow)] + after == events + [e];
    }
  }

  // ----- what becomes of a session

  predicate IsMapped(r: Registry, id: nat)
    requires id < |r.table|
  {
    KeyOf(r.table[id]) in r.sessions && r.sessions[KeyOf(r.table[id])] == id
  }

  /** An open session is closed by itself, a failed opening, or, in the map, by its client leaving or the shutdown. */
  predicate Closes(r: Registry, e: Event, id: nat)
    requires id < |r.table|
  {
    var s := r.table[id];
    match e
    case SessionCloses(k) => k == id
    case OpenFailed(flow) => flow in r.flows && r.flows[flow] == Opening(id)
    case Disconnects(socket) => IsMapped(r, id) && socket == s.socket
    case Unsubscribes(socket, container) => IsMapped(r, id) && socket == s.socket && container == s.container
    case ShutsDown => IsMapped(r, id)
    case _ => false
  }

  lemma {:induction false} StepCloses(r: Registry, e: Event, id: nat)
    requires Kept(r) && id < |r.table| && !r.table[id].closed
    ensures id < |Step(r, e).table| && (Step(r, e).table[id].closed <==> Closes(r, e, id))
  {
    var s := r.table[id];
    match e
    case Disconnects(socket) => KeyOfSocket(s.socket, s.container, socket);
    case Unsubscribes(socket, container) =>
      if Key(socket, container) in r.sessions && r.sessions[Key(socket, container)] == id {
        KeysTellApart(s.socket, s.container, socket, container);
      }
    case _ =>
  }

  /** In every run, an open session closes at an event exactly when that event closes it. */
  lemma ClosesExactlyWhen(before: seq<Event>, e: Event, id: nat)
    requires id < |Run(before).table| && !Run(before).table[id].closed
    ensures id < |Run(before + [e]).table|
    ensures Run(before + [e]).table[id].closed <==> Closes(Run(before), e, id)
  {
    StreamsAreOwned(before);
    RunOneMore(before, e);
    StepCloses(Run(before), e, id);
  }

  /** What becomes of a session's stream. */
  function StreamAfter(r: Registry, e: Event, id: nat): Stream
    requires id < |r.table|
  {
    var s := r.table[id];
    if e.Opened? && e.flow in r.flows && r.flows[e.flow] == Opening(id) then if s.closed then Destroyed else Held
    else if s.stream.Held? && Closes(r, e, id) then Destroyed
    else if s.stream.Held? && e == StreamEnds(id) then Ended
    else s.stream
  }

  lemma {:induction false} StepStream(r: Registry, e: Event, id: nat)
    requires Kept(r) && id < |r.table|
    ensures id < |Step(r, e).table| && Step(r, e).table[id].stream == StreamAfter(r, e, id)
    ensures KeyOf(Step(r, e).table[id]) == KeyOf(r.table[id])
  {
    assert r.table[id] in r.table;
    if !r.table[id].closed {
      StepCloses(r, e, id);
    }
  }

  /** In every run, a stream is held from its opening until it ends, or until its session closes and destroys it. */
  lemma StreamFollows(before: seq<Event>, e: Event, id: nat)
    requires id < |Run(before).table|
    ensures id < |Run(before + [e]).table|
    ensures Run(before + [e]).table[id].stream == StreamAfter(Run(before), e, id)
  {
    StreamsAreOwned(before);
    RunOneMore(before, e);
    StepStream(Run(before), e, id);
  }

  // ----- when the map is exact

  ghost predicate OpenAreMapped(r: Registry) {
    forall id | 0 <= id < |r.table| && !r.table[id].closed ::
      KeyOf(r.table[id]) in r.sessions && r.sessions[KeyOf(r.table[id])] == id
  }

  /** The socket's open sessions, in the map or not. */
  function OpenOf(r: Registry, socket: SocketId): set<int> {
    set id | 0 <= id < |r.table| && !r.table[id].closed && r.table[id].socket == socket
  }

  ghost predicate Bounded(r: Registry) {
    forall socket: SocketId :: |OpenOf(r, socket)| <= MAX_SESSIONS_PER_SOCKET
  }

  /** The event makes a subscription register its session. */
  predicate Registers(r: Registry, e: Event) {
    e.Found? && e.managed && e.flow in r.flows && r.flows[e.flow].Checking?
  }

  /** What the check said before the lookup still holds at the registration: there is no session for the key. */
  predicate KeyIsFree(r: Registry, e: Event) {
    Registers(r, e) ==> Key(r.flows[e.flow].socket, r.flows[e.flow].container) !in r.sessions
  }

  /** At the registration, the socket has fewer than three open sessions. */
  predicate HasRoom(r: Registry, e: Event) {
    Registers(r, e) ==> |OpenOf(r, r.flows[e.flow].socket)| < MAX_SESSIONS_PER_SOCKET
  }

  /** At the registration, subscribe would still pass both its checks. */
  predicate ChecksHold(r: Registry, e: Event) {
    KeyIsFree(r, e) && (Registers(r, e) ==> |KeysOf(r.sessions, r.flows[e.flow].socket)| < MAX_SESSIONS_PER_SOCKET)
  }

  /** At every moment of the run the map holds exactly the open sessions. */
  ghost predicate AlwaysMapped(events: seq<Event>) {
    OpenAreMapped(Run(events)) && (events != [] ==> AlwaysMapped(events[..|events| - 1]))
  }

  /** At every moment of the run no socket has more than three open sessions. */
  ghost predicate AlwaysBounded(events: seq<Event>) {
    Bounded(Run(events)) && (events != [] ==> AlwaysBounded(events[..|events| - 1]))
  }

  predicate KeysAlwaysFree(events: seq<Event>) {
    events == [] ||
    var init := events[..|events| - 1];
    KeysAlwaysFree(init) && KeyIsFree(Run(init), events[|events| - 1])
  }

  predicate RoomAlwaysLeft(events: seq<Event>) {
    events == [] ||
    var init := events[..|events| - 1];
    RoomAlwaysLeft(init) && HasRoom(Run(init), events[|events| - 1])
  }

  predicate ChecksAlwaysHold(events: seq<Event>) {
    events == [] ||
    var init := events[..|events| - 1];
    ChecksAlwaysHold(init) && ChecksHold(Run(init), events[|events| - 1])
  }

  lemma CloseMapped(r: Registry, id: nat)
    requires Kept(r) && OpenAreMapped(r)
    ensures OpenAreMapped(Close(r, id))
  {
    if id < |r.table| && !r.table[id].closed {
      var after := Close(r, id);
      forall k | 0 <= k < |after.table| && !after.table[k].closed
        ensures KeyOf(after.table[k]) in after.sessions && after.sessions[KeyOf(after.table[k])] == k
      {
        assert after.table[k] == r.table[k];
        assert r.sessions[KeyOf(r.table[id])] == id;
      }
    }
  }

  lemma CloseKeysMapped(r: Registry, keys: set<string>)
    requires OpenAreMapped(r)
    ensures OpenAreMapped(CloseKeys(r, keys))
  {
  }

  lemma RegisterMappedIff(r: Registry, flow: nat)
    requires Kept(r) && OpenAreMapped(r) && flow in r.flows && r.flows[flow].Checking?
    ensures OpenAreMapped(Register(r, flow, true)) <==>
              Key(r.flows[flow].socket, r.flows[flow].container) !in r.sessions
  {
    var after := Register(r, flow, true);
    var key := Key(r.flows[flow].socket, r.flows[flow].container);
    if key in r.sessions {
      var first := r.sessions[key];
      assert !after.table[first].closed && KeyOf(after.table[first]) == key && after.sessions[key] != first;
    }
  }

  lemma MappedStepIff(r: Registry, e: Event)
    requires Kept(r) && OpenAreMapped(r)
    ensures OpenAreMapped(Step(r, e)) <==> KeyIsFree(r, e)
  {
    match e
    case Found(flow, managed) =>
      if Registers(r, e) {
        RegisterMappedIff(r, flow);
      }
    case OpenFailed(flow) =>
      if flow in r.flows && r.flows[flow].Opening? {
        CloseMapped(r, r.flows[flow].session);
      }
    case Unsubscribes(socket, container) =>
      if Key(socket, container) in r.sessions {
        CloseMapped(r, r.sessions[Key(socket, container)]);
      }
    case SessionCloses(id) => CloseMapped(r, id);
    case Disconnects(socket) => CloseKeysMapped(r, KeysOf(r.sessions, socket));
    case ShutsDown => CloseKeysMapped(r, r.sessions.Keys);
    case _ =>
  }

  /**
   The map holds exactly the open sessions, at every moment of a run, iff every
   registration finds its key free, which the code checks only before its lookup.
   */
  lemma {:induction false} MapIsExactIff(events: seq<Event>)
    ensures AlwaysMapped(events) <==> KeysAlwaysFree(events)
    decreases |events|
  {
    if events != [] {
      var init := events[..|events| - 1];
      MapIsExactIff(init);
      StreamsAreOwned(init);
      if AlwaysMapped(init) {
        MappedStepIff(Run(init), events[|events| - 1]);
      }
    }
  }

  lemma FewerKeys(sessions: map<string, nat>, fewer: map<string, nat>)
    requires fewer.Keys <= sessions.Keys
    ensures forall socket :: |KeysOf(fewer, socket)| <= |KeysOf(sessions, socket)|
  {
    forall socket ensures |KeysOf(fewer, socket)| <= |KeysOf(sessions, socket)| {
      SubsetSize(KeysOf(fewer, socket), KeysOf(sessions, socket));
    }
  }

  lemma OneMoreKey(sessions: map<string, nat>, socket: SocketId, container: string, id: nat, other: SocketId)
    ensures |KeysOf(sessions[Key(socket, container) := id], other)|
         == |KeysOf(sessions, other)| + if other == socket && Key(socket, container) !in sessions then 1 else 0
  {
    var key := Key(socket, container);
    KeyOfSocket(socket, container, other);
    var after := KeysOf(sessions[key := id], other);
    assert after == if other == socket then KeysOf(sessions, other) + {key} else KeysOf(sessions, other);
  }

  // ----- when no socket has more than three open sessions

  /** Only a registration opens a session, and nothing reopens one. */
  lemma NothingElseOpens(r: Registry, e: Event)
    requires !Registers(r, e)
    ensures forall socket: SocketId :: OpenOf(Step(r, e), socket) <= OpenOf(r, socket)
  {
  }

  lemma OneMoreOpen(r: Registry, flow: nat, other: SocketId)
    requires flow in r.flows && r.flows[flow].Checking?
    ensures |OpenOf(Register(r, flow, true), other)|
         == |OpenOf(r, other)| + if other == r.flows[flow].socket then 1 else 0
  {
    var after := Register(r, flow, true);
    assert OpenOf(after, other) == if other == r.flows[flow].socket then OpenOf(r, other) + {|r.table|}
                                   else OpenOf(r, other);
  }

  lemma SubsetSize<T>(a: set<T>, b: set<T>)
    requires a <= b
    ensures |a| <= |b|
  {
    assert b == a + (b - a);
  }

  lemma BoundedStepIff(r: Registry, e: Event)
    requires Bounded(r)
    ensures Bounded(Step(r, e)) <==> HasRoom(r, e)
  {
    if Registers(r, e) {
      forall other: SocketId
        ensures |OpenOf(Step(r, e), other)| == |OpenOf(r, other)| + if other == r.flows[e.flow].socket then 1 else 0
      {
        OneMoreOpen(r, e.flow, other);
      }
    } else {
      NothingElseOpens(r, e);
      forall other: SocketId ensures |OpenOf(Step(r, e), other)| <= |OpenOf(r, other)| {
        SubsetSize(OpenOf(Step(r, e), other), OpenOf(r, other));
      }
    }
  }

  /**
   No socket ever has more than three open sessions, in the map or not, iff every
   registration finds fewer than three.
   */
  lemma {:induction false} BoundHoldsIff(events: seq<Event>)
    ensures AlwaysBounded(events) <==> RoomAlwaysLeft(events)
    decreases |events|
  {
    if events != [] {
      var init := events[..|events| - 1];
      BoundHoldsIff(init);
      if AlwaysBounded(init) {
        BoundedStepIff(Run(init), events[|events| - 1]);
      }
    }
  }

  // ----- when the code's own checks are right

  /** All containers, or one. */
  predicate Aimed(only: Option<string>, container: string) {
    only.None? || only.value == container
  }

  /** The open sessions of a client, all of its or those of one container, are in the map under their own keys. */
  ghost predicate OwnMapped(r: Registry, socket: SocketId, only: Option<string>) {
    forall id | 0 <= id < |r.table| && !r.table[id].closed
                && r.table[id].socket == socket && Aimed(only, r.table[id].container) ::
      KeyOf(r.table[id]) in r.sessions && r.sessions[KeyOf(r.table[id])] == id
  }

  ghost function Image(keys: set<string>, sessions: map<string, nat>): set<int>
    requires keys <= sessions.Keys
  {
    set key | key in keys :: sessions[key]
  }

  lemma {:induction false} ImageSize(keys: set<string>, sessions: map<string, nat>)
    requires keys <= sessions.Keys
    requires forall j, k | j in keys && k in keys && sessions[j] == sessions[k] :: j == k
    ensures |Image(keys, sessions)| == |keys|
    decreases |keys|
  {
    if keys != {} {
      var key :| key in keys;
      ImageSize(keys - {key}, sessions);
      assert Image(keys, sessions) == Image(keys - {key}, sessions) + {sessions[key]};
    }
  }

  /** The keys of a socket never count more than its open sessions, and count them all when all are in the map. */
  lemma KeysCountSessions(r: Registry, socket: SocketId)
    requires Kept(r)
    ensures |KeysOf(r.sessions, socket)| <= |OpenOf(r, socket)|
    ensures OwnMapped(r, socket, None) ==> |KeysOf(r.sessions, socket)| == |OpenOf(r, socket)|
  {
    var keys := KeysOf(r.sessions, socket);
    forall key | key in keys ensures r.sessions[key] in OpenOf(r, socket) {
      var s := r.table[r.sessions[key]];
      KeyOfSocket(s.socket, s.container, socket);
    }
    forall id | id in OpenOf(r, socket) && OwnMapped(r, socket, None) ensures id in Image(keys, r.sessions) {
      KeyOfSocket(socket, r.table[id].container, socket);
      assert KeyOf(r.table[id]) in keys;
    }
    ImageSize(keys, r.sessions);
    SubsetSize(Image(keys, r.sessions), OpenOf(r, socket));
    assert OwnMapped(r, socket, None) ==> Image(keys, r.sessions) == OpenOf(r, socket);
  }

  /** In an exact map the second check counts open sessions. */
  lemma ChecksHoldIff(r: Registry, e: Event)
    requires Kept(r) && OpenAreMapped(r)
    ensures ChecksHold(r, e) <==> KeyIsFree(r, e) && HasRoom(r, e)
  {
    if Registers(r, e) {
      KeysCountSessions(r, r.flows[e.flow].socket);
    }
  }

  /**
   In every run, the map is exact and no socket has more than three open sessions, at every
   moment, iff subscribe's two checks would pass once more at every registration.
   */
  lemma {:induction false} BothHoldIff(events: seq<Event>)
    ensures AlwaysMapped(events) && AlwaysBounded(events) <==> ChecksAlwaysHold(events)
    decreases |events|
  {
    if events != [] {
      var init, e := events[..|events| - 1], events[|events| - 1];
      BothHoldIff(init);
      StreamsAreOwned(init);
      if AlwaysMapped(init) && AlwaysBounded(init) {
        MappedStepIff(Run(init), e);
        BoundedStepIff(Run(init), e);
        ChecksHoldIff(Run(init), e);
      }
    }
  }

  // ----- a way to meet both conditions

  /** No subscription of the socket is between its check and its registration. */
  predicate Idle(r: Registry, socket: SocketId) {
    forall f <- r.flows | r.flows[f].Checking? :: r.flows[f].socket != socket
  }

  predicate OneCheckAtATime(events: seq<Event>) {
    events == [] ||
    var init, e := events[..|events| - 1], events[|events| - 1];
    OneCheckAtATime(init) && (e.Subscribes? ==> Idle(Run(init), e.socket))
  }

  ghost predicate ChecksStand(r: Registry) {
    && (forall f <- r.flows | r.flows[f].Checking? ::
          && Key(r.flows[f].socket, r.flows[f].container) !in r.sessions
          && |KeysOf(r.sessions, r.flows[f].socket)| < MAX_SESSIONS_PER_SOCKET)
    && (forall f <- r.flows, g <- r.flows | f != g && r.flows[f].Checking? && r.flows[g].Checking? ::
          r.flows[f].socket != r.flows[g].socket)
  }

  lemma ChecksStandWithFewer(r: Registry, after: Registry)
    requires ChecksStand(r) && after.sessions.Keys <= r.sessions.Keys
    requires forall f <- after.flows | after.flows[f].Checking? :: f in r.flows && r.flows[f] == after.flows[f]
    ensures ChecksStand(after)
  {
    FewerKeys(r.sessions, after.sessions);
  }

  lemma ChecksStandAfterRegister(r: Registry, flow: nat)
    requires ChecksStand(r) && flow in r.flows && r.flows[flow].Checking?
    ensures ChecksStand(Register(r, flow, true))
  {
    var Checking(socket, container) := r.flows[flow];
    var after := Register(r, flow, true);
    forall f <- after.flows | after.flows[f].Checking?
      ensures Key(after.flows[f].socket, after.flows[f].container) !in after.sessions
      ensures |KeysOf(after.sessions, after.flows[f].socket)| < MAX_SESSIONS_PER_SOCKET
    {
      assert after.flows[f] == r.flows[f] && f != flow;
      OneMoreKey(r.sessions, socket, container, |r.table|, r.flows[f].socket);
      if Key(r.flows[f].socket, r.flows[f].container) == Key(socket, container) {
        KeysTellApart(r.flows[f].socket, r.flows[f].container, socket, container);
      }
    }
  }

  lemma ChecksStandStep(r: Registry, e: Event)
    requires ChecksStand(r) && (e.Subscribes? ==> Idle(r, e.socket))
    ensures ChecksStand(Step(r, e))
  {
    if Registers(r, e) {
      ChecksStandAfterRegister(r, e.flow);
    } else if !e.Subscribes? {
      ChecksStandWithFewer(r, Step(r, e));
    }
  }

  /** When the checks of a socket do not overlap, what they said still holds at every registration. */
  lemma {:induction false} OneCheckSuffices(events: seq<Event>)
    requires OneCheckAtATime(events)
    ensures ChecksStand(Run(events))
    ensures ChecksAlwaysHold(events)
    ensures AlwaysMapped(events) && AlwaysBounded(events)
    decreases |events|
  {
    if events != [] {
      OneCheckSuffices(events[..|events| - 1]);
      ChecksStandStep(Run(events[..|events| - 1]), events[|events| - 1]);
    }
    BothHoldIff(events);
  }

  // ----- what a client whose sessions are in the map can rely on

  /** The socket has no open session for the container and fewer than three in all. */
  predicate Admissible(r: Registry, socket: SocketId, container: string) {
    && |OpenOf(r, socket)| < MAX_SESSIONS_PER_SOCKET
    && forall id <- OpenOf(r, socket) :: r.table[id].container != container
  }

  /**
   In every run, a subscription that may have its session goes on to look for its container;
   one that may not is stopped when the socket's open sessions are in the map.
   */
  lemma SubscriptionIsAdmittedIff(events: seq<Event>, flow: nat, socket: SocketId, container: string)
    requires flow !in Run(events).flows
    ensures var r := Run(events);
            var admitted := flow in Subscribe(r, flow, socket, Some(container)).flows;
            && (Admissible(r, socket, container) ==> admitted)
            && (OwnMapped(r, socket, None) && admitted ==> Admissible(r, socket, container))
  {
    StreamsAreOwned(events);
    var r := Run(events);
    KeysCountSessions(r, socket);
    if Key(socket, container) in r.sessions {
      var s := r.table[r.sessions[Key(socket, container)]];
      KeysTellApart(s.socket, s.container, socket, container);
      assert r.sessions[Key(socket, container)] in OpenOf(r, socket);
    }
  }

  /**
   An admissible subscription that nothing interrupts opens its session and its stream; for
   an unknown container it leaves the registry as it was; when Docker cannot open the
   stream, all it leaves is a closed session.
   */
  lemma SubscriptionGoesThrough(before: seq<Event>, flow: nat, socket: SocketId, container: string)
    requires flow !in Run(before).flows && Admissible(Run(before), socket, container)
    ensures var r, asked := Run(before), before + [Subscribes(flow, socket, Some(container))];
            var found := asked + [Found(flow, true)];
            && Run(asked + [Found(flow, false)]) == r
            && Run(found + [OpenFailed(flow)])
               == r.(table := r.table + [Session(socket, container, true, NotOpened)])
            && Run(found + [Opened(flow)])
               == r.(table := r.table + [Session(socket, container, false, Held)],
                     sessions := r.sessions[Key(socket, container) := |r.table|])
  {
    var r, asked := Run(before), before + [Subscribes(flow, socket, Some(container))];
    var found := asked + [Found(flow, true)];
    StreamsAreOwned(before);
    SubscriptionIsAdmittedIff(before, flow, socket, container);
    RunOneMore(before, Subscribes(flow, socket, Some(container)));
    RunOneMore(asked, Found(flow, false));
    RunOneMore(asked, Found(flow, true));
    RunOneMore(found, OpenFailed(flow));
    RunOneMore(found, Opened(flow));
    GoesThrough(r, flow, socket, container);
  }

  lemma GoesThrough(r: Registry, flow: nat, socket: SocketId, container: string)
    requires flow !in r.flows && Key(socket, container) !in r.sessions
    ensures var asked := r.(flows := r.flows[flow := Checking(socket, container)]);
            && Register(asked, flow, false) == r
            && FailToOpen(Register(asked, flow, true), flow)
               == r.(table := r.table + [Session(socket, container, true, NotOpened)])
            && Attach(Register(asked, flow, true), flow)
               == r.(table := r.table + [Session(socket, container, false, Held)],
                     sessions := r.sessions[Key(socket, container) := |r.table|])
  {
    var asked := r.(flows := r.flows[flow := Checking(socket, container)]);
    assert asked.flows - {flow} == r.flows;
    var found := Register(asked, flow, true);
    assert found.flows - {flow} == r.flows;
    assert found.sessions - {Key(socket, container)} == r.sessions;
  }

  /**
   A disconnect never touches another socket's sessions, and closes all of its own iff
   they are in the map.
   */
  lemma DisconnectClosesItsOwnIff(events: seq<Event>, socket: SocketId)
    ensures var before, after := Run(events), Step(Run(events), Disconnects(socket));
            && |after.table| == |before.table|
            && (forall id | 0 <= id < |before.table| && before.table[id].socket != socket ::
                  after.table[id] == before.table[id])
            && (OwnMapped(before, socket, None) <==>
                  forall id | 0 <= id < |before.table| && before.table[id].socket == socket ::
                    after.table[id] == Shut(before.table[id]))
  {
    StreamsAreOwned(events);
    var r := Run(events);
    forall id | 0 <= id < |r.table| ensures OfSocket(KeyOf(r.table[id]), socket) <==> r.table[id].socket == socket {
      KeyOfSocket(r.table[id].socket, r.table[id].container, socket);
    }
  }

  /** When every registration found its key free, every client's sessions are in the map. */
  lemma FreeKeysSuffice(events: seq<Event>, socket: SocketId, only: Option<string>)
    requires KeysAlwaysFree(events)
    ensures OwnMapped(Run(events), socket, only)
  {
    MapIsExactIff(events);
  }

  // ----- nothing left hanging

  /** The client leaves: the socket disconnects, or gives up one container. */
  function Leaves(socket: SocketId, only: Option<string>): Event {
    match only
    case None => Disconnects(socket)
    case Some(container) => Unsubscribes(socket, container)
  }

  predicate NoCheckOf(r: Registry, socket: SocketId, only: Option<string>) {
    forall f <- r.flows | r.flows[f].Checking? && r.flows[f].socket == socket :: !Aimed(only, r.flows[f].container)
  }

  predicate NoSubscriptionOf(events: seq<Event>, socket: SocketId, only: Option<string>) {
    forall e <- events | e.Subscribes? && e.socket == socket && e.request.Some? :: !Aimed(only, e.request.value)
  }

  ghost predicate AllClosed(r: Registry, socket: SocketId, only: Option<string>) {
    forall s <- r.table | s.socket == socket && Aimed(only, s.container) :: s.closed
  }

  /** What is left open when a client leaves is what the map does not hold. */
  lemma LeavingClosesIff(r: Registry, socket: SocketId, only: Option<string>)
    requires Kept(r)
    ensures AllClosed(Step(r, Leaves(socket, only)), socket, only) <==> OwnMapped(r, socket, only)
    ensures Step(r, Leaves(socket, only)).flows == r.flows
  {
    var after := Step(r, Leaves(socket, only));
    forall id | 0 <= id < |r.table| && r.table[id].socket == socket
      ensures OfSocket(KeyOf(r.table[id]), socket)
    {
      KeyOfSocket(socket, r.table[id].container, socket);
    }
    if AllClosed(after, socket, only) {
      forall id | 0 <= id < |r.table| && !r.table[id].closed
                  && r.table[id].socket == socket && Aimed(only, r.table[id].container)
        ensures KeyOf(r.table[id]) in r.sessions && r.sessions[KeyOf(r.table[id])] == id
      {
        assert after.table[id] in after.table;
      }
    }
    if OwnMapped(r, socket, only) {
      forall s <- after.table | s.socket == socket && Aimed(only, s.container) ensures s.closed {
        var id :| 0 <= id < |after.table| && after.table[id] == s;
      }
    }
  }

  lemma StaysClosed(r: Registry, e: Event, socket: SocketId, only: Option<string>)
    requires AllClosed(r, socket, only) && NoCheckOf(r, socket, only)
    requires NoSubscriptionOf([e], socket, only)
    ensures AllClosed(Step(r, e), socket, only) && NoCheckOf(Step(r, e), socket, only)
  {
    assert e in [e];
    var after := Step(r, e);
    forall s <- after.table | s.socket == socket && Aimed(only, s.container) ensures s.closed {
      var id :| 0 <= id < |after.table| && after.table[id] == s;
      if id < |r.table| {
        assert r.table[id] in r.table;
      }
    }
  }

  lemma {:induction false} NothingOpensAgain(before: seq<Event>, after: seq<Event>,
                                             socket: SocketId, only: Option<string>)
    requires AllClosed(Run(before), socket, only) && NoCheckOf(Run(before), socket, only)
    requires NoSubscriptionOf(after, socket, only)
    ensures AllClosed(Run(before + after), socket, only) && NoCheckOf(Run(before + after), socket, only)
    decreases |after|
  {
    if after == [] {
      assert before + after == before;
    } else {
      var init, e := after[..|after| - 1], after[|after| - 1];
      assert e in after;
      NothingOpensAgain(before, init, socket, only);
      StaysClosed(Run(before + init), e, socket, only);
      RunOneMore(before + init, e);
      assert before + after == before + init + [e];
    }
  }

  /** A check that is pending when its client leaves still opens its session and attaches its stream. */
  lemma PendingCheckOpens(r: Registry, flow: nat)
    requires flow in r.flows && r.flows[flow].Checking?
    ensures var end := Step(Step(r, Found(flow, true)), Opened(flow));
            end.table == r.table + [Session(r.flows[flow].socket, r.flows[flow].container, false, Held)]
  {
  }

  /** Nothing of the client is open again, whatever happens, without a new subscription. */
  ghost predicate StaysAway(events: seq<Event>, socket: SocketId, only: Option<string>) {
    forall after | NoSubscriptionOf(after, socket, only) :: AllClosed(Run(events + after), socket, only)
  }

  lemma PendingCheckStays(events: seq<Event>, flow: nat, socket: SocketId, only: Option<string>)
    requires var r := Run(events);
             && flow in r.flows && r.flows[flow].Checking?
             && r.flows[flow].socket == socket && Aimed(only, r.flows[flow].container)
    ensures !StaysAway(events, socket, only)
  {
    var after := [Found(flow, true)] + [Opened(flow)];
    PendingCheckOpens(Run(events), flow);
    RunOneMore(events, Found(flow, true));
    RunOneMore(events + [Found(flow, true)], Opened(flow));
    assert events + after == events + [Found(flow, true)] + [Opened(flow)];
    var end := Run(events + after);
    assert end.table[|end.table| - 1] in end.table;
    assert NoSubscriptionOf(after, socket, only) && !AllClosed(end, socket, only);
  }

  lemma StaysAwayIff(events: seq<Event>, socket: SocketId, only: Option<string>)
    ensures StaysAway(events, socket, only) <==>
              AllClosed(Run(events), socket, only) && NoCheckOf(Run(events), socket, only)
  {
    if StaysAway(events, socket, only) {
      assert NoSubscriptionOf([], socket, only) && events + [] == events;
      if !NoCheckOf(Run(events), socket, only) {
        var flow :| flow in Run(events).flows && Run(events).flows[flow].Checking?
                    && Run(events).flows[flow].socket == socket && Aimed(only, Run(events).flows[flow].container);
        PendingCheckStays(events, flow, socket, only);
      }
    } else {
      var after :| NoSubscriptionOf(after, socket, only) && !AllClosed(Run(events + after), socket, only);
      if AllClosed(Run(events), socket, only) && NoCheckOf(Run(events), socket, only) {
        NothingOpensAgain(events, after, socket, only);
      }
    }
  }

  /**
   In any run, after a disconnect or an unsubscription nothing of that client is open,
   whatever happens without a new subscription, iff no check of it was pending and every
   open session of it was in the map.
   */
  lemma NothingLeftHangingIff(before: seq<Event>, socket: SocketId, only: Option<string>)
    ensures NoCheckOf(Run(before), socket, only) && OwnMapped(Run(before), socket, only) <==>
              StaysAway(before + [Leaves(socket, only)], socket, only)
  {
    StreamsAreOwned(before);
    LeavingClosesIff(Run(before), socket, only);
    RunOneMore(before, Leaves(socket, only));
    StaysAwayIff(before + [Leaves(socket, only)], socket, only);
  }

  // ----- inputs

  /** A socket that disconnects during its lookup is left with an open session that holds its stream. */
  lemma SessionOutlivesItsSocket(socket: SocketId, container: string)
    ensures var gone := [] + [Subscribes(0, socket, Some(container))] + [Disconnects(socket)];
            Run(gone + [Found(0, true)] + [Opened(0)]).table == [Session(socket, container, false, Held)]
  {
    var check := [] + [Subscribes(0, socket, Some(container))];
    var gone := check + [Disconnects(socket)];
    assert KeysOf(map[], socket) == {};
    RunOneMore([], Subscribes(0, socket, Some(container)));
    RunOneMore(check, Disconnects(socket));
    assert Run(gone) == Registry(map[], [], map[0 := Checking(socket, container)]);
    PendingCheckOpens(Run(gone), 0);
    RunOneMore(gone, Found(0, true));
    RunOneMore(gone + [Found(0, true)], Opened(0));
  }

  /** With two overlapping subscriptions to one container the first session stays open outside the map. */
  lemma OverlapLosesASession(socket: SocketId, container: string)
    ensures var checks := [] + [Subscribes(0, socket, Some(container))] + [Subscribes(1, socket, Some(container))];
            var both := checks + [Found(0, true)] + [Found(1, true)];
            var open := Session(socket, container, false, NotOpened);
            && Run(both).table == [open, open]
            && Run(both).sessions == map[Key(socket, container) := 1]
            && Run(both).flows == map[0 := Opening(0), 1 := Opening(1)]
  {
    var one := [] + [Subscribes(0, socket, Some(container))];
    var checks := one + [Subscribes(1, socket, Some(container))];
    var waiting := Checking(socket, container);
    assert KeysOf(map[], socket) == {};
    RunOneMore([], Subscribes(0, socket, Some(container)));
    assert Run(one) == Registry(map[], [], map[0 := waiting]);
    RunOneMore(one, Subscribes(1, socket, Some(container)));
    assert Run(checks) == Registry(map[], [], map[0 := waiting, 1 := waiting]);
    RunOneMore(checks, Found(0, true));
    RunOneMore(checks + [Found(0, true)], Found(1, true));
  }

  /** A disconnect then closes the second session only: nothing is pending, and the first stays open for good. */
  lemma LostSessionOutlivesItsSocket(socket: SocketId, container: string)
    ensures var checks := [] + [Subscribes(0, socket, Some(container))] + [Subscribes(1, socket, Some(container))];
            var both := checks + [Found(0, true)] + [Found(1, true)];
            && NoCheckOf(Run(both), socket, None)
            && Run(both + [Disconnects(socket)]).table
               == [Session(socket, container, false, NotOpened), Session(socket, container, true, NotOpened)]
            && Run(both + [Disconnects(socket)]).sessions == map[]
  {
    OverlapLosesASession(socket, container);
    var checks := [] + [Subscribes(0, socket, Some(container))] + [Subscribes(1, socket, Some(container))];
    var both := checks + [Found(0, true)] + [Found(1, true)];
    RunOneMore(both, Disconnects(socket));
    KeyOfSocket(socket, container, socket);
  }

  /** When the first of them closes by itself, it takes the key of the second, which stays open outside the map. */
  lemma LostSessionUnmapsAnother(socket: SocketId, container: string)
    ensures var checks := [] + [Subscribes(0, socket, Some(container))] + [Subscribes(1, socket, Some(container))];
            var both := checks + [Found(0, true)] + [Found(1, true)];
            && Run(both + [SessionCloses(0)]).table
               == [Session(socket, container, true, NotOpened), Session(socket, container, false, NotOpened)]
            && Run(both + [SessionCloses(0)]).sessions == map[]
  {
    OverlapLosesASession(socket, container);
    var checks := [] + [Subscribes(0, socket, Some(container))] + [Subscribes(1, socket, Some(container))];
    RunOneMore(checks + [Found(0, true)] + [Found(1, true)], SessionCloses(0));
  }

  /** Subscriptions of one socket that are all checked before the first registers. */
  function Checks(socket: SocketId, containers: seq<string>, n: nat): seq<Event>
    requires n <= |containers|
  {
    if n == 0 then [] else Checks(socket, containers, n - 1) + [Subscribes(n - 1, socket, Some(containers[n - 1]))]
  }

  function Registrations(n: nat): seq<Event> {
    if n == 0 then [] else Registrations(n - 1) + [Found(n - 1, true)]
  }

  ghost predicate OnlyChecks(r: Registry, socket: SocketId, containers: seq<string>, n: nat)
    requires n <= |containers|
  {
    && r.sessions == map[] && r.table == []
    && forall i: nat :: (i in r.flows <==> i < n) && (i < n ==> r.flows[i] == Checking(socket, containers[i]))
  }

  lemma CheckOne(r: Registry, socket: SocketId, containers: seq<string>, n: nat)
    requires n < |containers| && OnlyChecks(r, socket, containers, n)
    ensures OnlyChecks(Subscribe(r, n, socket, Some(containers[n])), socket, containers, n + 1)
  {
    assert KeysOf(map[], socket) == {};
  }

  lemma {:induction false} AllAreChecked(socket: SocketId, containers: seq<string>, n: nat)
    requires n <= |containers|
    ensures OnlyChecks(Run(Checks(socket, containers, n)), socket, containers, n)
    decreases n
  {
    if n > 0 {
      var events := Checks(socket, containers, n - 1);
      AllAreChecked(socket, containers, n - 1);
      CheckOne(Run(events), socket, containers, n - 1);
      RunOneMore(events, Subscribes(n - 1, socket, Some(containers[n - 1])));
    }
  }

  /** There are `n` open sessions, the map has the keys of the first `n` containers, the others have their check. */
  ghost predicate Filled(r: Registry, socket: SocketId, containers: seq<string>, n: nat)
    requires n <= |containers|
  {
    && |OpenOf(r, socket)| == n
    && (forall key :: key in r.sessions <==> exists container <- containers[..n] :: key == Key(socket, container))
    && forall i: nat | n <= i < |containers| :: i in r.flows && r.flows[i] == Checking(socket, containers[i])
  }

  lemma FillOne(r: Registry, socket: SocketId, containers: seq<string>, n: nat)
    requires n < |containers| && Filled(r, socket, containers, n)
    ensures Filled(Register(r, n, true), socket, containers, n + 1)
  {
    OneMoreOpen(r, n, socket);
    assert containers[..n + 1] == containers[..n] + [containers[n]];
  }

  lemma {:induction false} AllAreRegistered(socket: SocketId, containers: seq<string>, n: nat)
    requires n <= |containers|
    ensures Filled(Run(Checks(socket, containers, |containers|) + Registrations(n)), socket, containers, n)
    decreases n
  {
    var checks := Checks(socket, containers, |containers|);
    if n == 0 {
      AllAreChecked(socket, containers, |containers|);
      assert checks + Registrations(0) == checks;
      assert OpenOf(Run(checks), socket) == {};
    } else {
      var events := checks + Registrations(n - 1);
      AllAreRegistered(socket, containers, n - 1);
      FillOne(Run(events), socket, containers, n - 1);
      RunOneMore(events, Found(n - 1, true));
      assert checks + Registrations(n) == events + [Found(n - 1, true)];
    }
  }

  /**
   There is no other bound: however many subscriptions of one socket are checked before the
   first registers, to whichever containers, each gets its open session.
   */
  lemma OverlapExceedsBound(socket: SocketId, containers: seq<string>)
    ensures var r := Run(Checks(socket, containers, |containers|) + Registrations(|containers|));
            && |OpenOf(r, socket)| == |containers|
            && (forall key :: key in r.sessions <==> exists container <- containers :: key == Key(socket, container))
  {
    AllAreRegistered(socket, containers, |containers|);
    assert containers[..|containers|] == containers;
  }

  /** With one container for all of them, the code counts one session at most. */
  lemma OneKeyManySessions(socket: SocketId, container: string, n: nat)
    ensures var containers := seq(n, _ => container);
            var r := Run(Checks(socket, containers, n) + Registrations(n));
            |OpenOf(r, socket)| == n && |KeysOf(r.sessions, socket)| <= 1
  {
    var containers := seq(n, _ => container);
    OverlapExceedsBound(socket, containers);
    var r := Run(Checks(socket, containers, n) + Registrations(n));
    SubsetSize(KeysOf(r.sessions, socket), {Key(socket, container)});
  }
}

/** The service object; sessions are referred to by their position in the table. */
module LogsServices {
  import opened Basics
  import opened RegistryRuns

  datatype Reply = Accepted | Invalid | TooMany | Unknown | Waiting

  class LogsService {
    var sessions: map<string, nat>
    var table: seq<Session>
    var flows: map<nat, Flow>

    ghost function State(): Registry
      reads this
    {
      Registry(sessions, table, flows)
    }

    ghost predicate Valid()
      reads this
    {
      Kept(State())
    }

    constructor ()
      ensures Valid() && State() == EMPTY_REGISTRY
    {
      sessions, table, flows := map[], [], map[];
    }

    method SessionCountFor(socket: SocketId) returns (count: nat)
      ensures count == |KeysOf(sessions, socket)|
    {
      count := 0;
      var left := sessions.Keys;
      ghost var counted: set<string> := {};
      while left != {}
        invariant left <= sessions.Keys
        invariant counted == set k | k in sessions && k !in left && OfSocket(k, socket)
        invariant count == |counted|
        decreases left
      {
        var key :| key in left;
        left := left - {key};
        if OfSocket(key, socket) {
          count := count + 1;
          counted := counted + {key};
        }
      }
      assert counted == KeysOf(sessions, socket);
    }

    /** subscribe up to its first await. */
    method Subscribe(flow: nat, socket: SocketId, request: Option<string>) returns (reply: Reply)
      requires Valid() && flow !in flows
      modifies this
      ensures Valid()
      ensures State() == Step(old(State()), Subscribes(flow, socket, request))
      ensures reply.Invalid? <==> request.None?
      ensures reply.Accepted? <==> request.Some? && Key(socket, request.value) in old(sessions)
      ensures reply.TooMany? <==> request.Some? && Key(socket, request.value) !in old(sessions)
                                  && |KeysOf(old(sessions), socket)| >= MAX_SESSIONS_PER_SOCKET
      ensures reply.Waiting? <==> flow in flows
    {
      StepKeeps(State(), Subscribes(flow, socket, request));
      if request.None? {
        return Invalid;
      }
      if Key(socket, request.value) in sessions {
        return Accepted;
      }
      var count := SessionCountFor(socket);
      if count >= MAX_SESSIONS_PER_SOCKET {
        return TooMany;
      }
      flows := flows[flow := Checking(socket, request.value)];
      reply := Waiting;
    }

    /** subscribe between its awaits. */
    method ContainerFound(flow: nat, managed: bool) returns (reply: Reply)
      requires Valid() && flow in flows && flows[flow].Checking?
      modifies this
      ensures Valid()
      ensures State() == Step(old(State()), Found(flow, managed))
      ensures reply == if managed then Waiting else Unknown
    {
      RegisterKeeps(State(), flow, managed);
      if !managed {
        flows := flows - {flow};
        return Unknown;
      }
      var Checking(socket, container) := flows[flow];
      var id := |table|;
      table := table + [Session(socket, container, false, NotOpened)];
      sessions := sessions[Key(socket, container) := id];
      flows := flows[flow := Opening(id)];
      reply := Waiting;
    }

    /** openDockerStream after its await. */
    method StreamOpened(flow: nat)
      requires Valid() && flow in flows && flows[flow].Opening?
      modifies this
      ensures Valid()
      ensures State() == Step(old(State()), Opened(flow))
    {
      AttachKeeps(State(), flow);
      var id := flows[flow].session;
      table := table[id := table[id].(stream := if table[id].closed then Destroyed else Held)];
      flows := flows - {flow};
    }

    method StreamFailed(flow: nat)
      requires Valid() && flow in flows && flows[flow].Opening?
      modifies this
      ensures Valid()
      ensures State() == Step(old(State()), OpenFailed(flow))
    {
      StepKeeps(State(), OpenFailed(flow));
      CloseSession(flows[flow].session);
      flows := flows - {flow};
    }

    method Unsubscribe(socket: SocketId, container: string)
      requires Valid()
      modifies this
      ensures Valid()
      ensures State() == Step(old(State()), Unsubscribes(socket, container))
    {
      StepKeeps(State(), Unsubscribes(socket, container));
      var key := Key(socket, container);
      if key in sessions {
        CloseSession(sessions[key]);
      }
    }

    method DestroyForSocket(socket: SocketId)
      requires Valid()
      modifies this
      ensures Valid()
      ensures State() == Step(old(State()), Disconnects(socket))
    {
      StepKeeps(State(), Disconnects(socket));
      ghost var before := State();
      ghost var done: set<string> := {};
      var left := sessions.Keys;
      CloseNone(before);
      while left != {}
        invariant left <= before.sessions.Keys
        invariant done == set k | k in before.sessions && k !in left && OfSocket(k, socket)
        invariant State() == CloseKeys(before, done)
        decreases left
      {
        var key :| key in left;
        left := left - {key};
        if OfSocket(key, socket) {
          CloseOneMore(before, done, key);
          CloseSession(sessions[key]);
          done := done + {key};
        }
      }
      assert done == KeysOf(before.sessions, socket);
    }

    /** LogSession.close of a registered session, with its onClose callback. */
    method CloseSession(id: nat)
      requires id < |table|
      modifies this
      ensures State() == Close(old(State()), id)
    {
      if table[id].closed {
        return;
      }
      var key := KeyOf(table[id]);
      table := table[id := Shut(table[id])];
      sessions := sessions - {key};
    }
  }

  lemma CloseNone(r: Registry)
    ensures CloseKeys(r, {}) == r
  {
  }

  /** Closing the sessions one key at a time closes them all. */
  lemma CloseOneMore(r: Registry, done: set<string>, key: string)
    requires MapsToOpen(r) && key in r.sessions && key !in done
    ensures var mid := CloseKeys(r, done);
            && key in mid.sessions && mid.sessions[key] == r.sessions[key] < |mid.table|
            && Close(mid, r.sessions[key]) == CloseKeys(r, done + {key})
  {
    var mid, all := CloseKeys(r, done), CloseKeys(r, done + {key});
    var id := r.sessions[key];
    assert mid.table[id] == r.table[id];
    forall k | 0 <= k < |r.table| ensures Close(mid, id).table[k] == all.table[k] {
    }
  }
}
