/**
 What the events of a whole run tell about a socket structure (socketManager.c): the ids that the
 network stack has handed out for it and those that have been given back, its flags, the bytes that
 go through its buffers, and the receive request that is open.
 */
module Connections {
  import opened SocketManager
  import opened Words

  /** What one structure sees of the system: its registration, its deletion, calls and messages. */
  datatype SockEvent =
    | Registered(index: nat, config: Config)
    | Unregistered
    | Called(op: Op)
    | Happened(message: Message)

  predicate Possible(s: Sock, e: SockEvent) {
    s.outPtr <= |s.out| && (e.Called? && e.op.PutInt16? ==> e.op.word < 0x1_0000)
  }

  function Act(s: Sock, e: SockEvent): (t: Sock)
    requires Possible(s, e)
    ensures t.outPtr <= |t.out|
  {
    match e
    case Registered(index, config) => Fresh(index, config)
    case Unregistered => s.(listIndex := -1)
    case Called(op) => Local(s, op)
    case Happened(message) => Deliver(s, message)
  }

  predicate PossibleRun(s: Sock, events: seq<SockEvent>)
    decreases events
  {
    events != [] ==> Possible(s, events[0]) && PossibleRun(Act(s, events[0]), events[1..])
  }

  function ActAll(s: Sock, events: seq<SockEvent>): Sock
    requires PossibleRun(s, events)
    decreases events
  {
    if events == [] then s else ActAll(Act(s, events[0]), events[1..])
  }

  // ---------------------------------------------------------------- runs of the system

  /** What socket h sees of an operation, if anything. */
  function Seen(y: System, op: Op, h: nat): seq<SockEvent>
    requires Inv(y) && Allowed(y, op)
  {
    match op
    case Create(k, config) =>
      if k == h && FreeIndex(y.table) < |y.table| then [Registered(FreeIndex(y.table), config)] else []
    case Delete(k) => if k == h then [Unregistered] else []
    case Callback(id, m) =>
      var i := Find(y, id, 0);
      if i < |y.table| && y.table[i].value == h then [Happened(m)] else []
    case _ => if op.h == h then [Called(op)] else []
  }

  function SeenInRun(y: System, ops: seq<Op>, h: nat): seq<SockEvent>
    requires Inv(y) && AllowedRun(y, ops)
    decreases ops
  {
    if ops == [] then [] else
    StepKeepsInv(y, ops[0]);
    Seen(y, ops[0], h) + SeenInRun(Step(y, ops[0]), ops[1..], h)
  }

  lemma StepIsSeen(y: System, op: Op, h: nat)
    requires Inv(y) && Allowed(y, op) && h < |y.socks|
    ensures |Step(y, op).socks| == |y.socks|
    ensures PossibleRun(y.socks[h], Seen(y, op, h))
    ensures Step(y, op).socks[h] == ActAll(y.socks[h], Seen(y, op, h))
  {
    StepKeepsInv(y, op);
  }

  /** A run of the system is, for each socket, a run of what that socket sees. */
  lemma {:induction false} RunIsSeen(y: System, ops: seq<Op>, h: nat)
    requires Inv(y) && AllowedRun(y, ops) && h < |y.socks|
    ensures |Run(y, ops).socks| == |y.socks|
    ensures PossibleRun(y.socks[h], SeenInRun(y, ops, h))
    ensures Run(y, ops).socks[h] == ActAll(y.socks[h], SeenInRun(y, ops, h))
    decreases ops
  {
    if ops != [] {
      StepKeepsInv(y, ops[0]);
      StepIsSeen(y, ops[0], h);
      RunIsSeen(Step(y, ops[0]), ops[1..], h);
      RunInTwoParts(y.socks[h], Seen(y, ops[0], h), SeenInRun(Step(y, ops[0]), ops[1..], h));
    }
  }

  lemma {:induction false} RunInTwoParts(s: Sock, a: seq<SockEvent>, b: seq<SockEvent>)
    requires PossibleRun(s, a) && PossibleRun(ActAll(s, a), b)
    ensures PossibleRun(s, a + b) && ActAll(s, a + b) == ActAll(ActAll(s, a), b)
    decreases a
  {
    if a == [] {
      assert a + b == b;
    } else {
      assert (a + b)[1..] == a[1..] + b;
      RunInTwoParts(Act(s, a[0]), a[1..], b);
    }
  }

  // ---------------------------------------------------------------- ids handed out and given back

  /** An id leaves a structure by being closed, or by being overwritten. */
  datatype Departure = Closed(id: int) | Forgotten(id: int)

  function AllClosed(ids: seq<int>): (r: seq<Departure>)
    ensures Ids(r) == ids
  {
    if ids == [] then [] else
    assert ids == [ids[0]] + ids[1..];
    [Closed(ids[0])] + AllClosed(ids[1..])
  }

  function AllForgotten(ids: seq<int>): (r: seq<Departure>)
    ensures Ids(r) == ids
  {
    if ids == [] then [] else
    assert ids == [ids[0]] + ids[1..];
    [Forgotten(ids[0])] + AllForgotten(ids[1..])
  }

  function Ids(departures: seq<Departure>): seq<int> {
    if departures == [] then [] else [departures[0].id] + Ids(departures[1..])
  }

  lemma {:induction false} IdsConcat(a: seq<Departure>, b: seq<Departure>)
    ensures Ids(a + b) == Ids(a) + Ids(b)
    decreases a
  {
    if a == [] {
      assert a + b == b;
    } else {
      assert (a + b)[1..] == a[1..] + b;
      IdsConcat(a[1..], b);
    }
  }

  /** The id that socket() hands out in this event. */
  function OwnCame(s: Sock, e: SockEvent): seq<int> {
    if e.Called? && e.op.Connect? && s.socketId < 0 && e.op.id >= 0 then [e.op.id] else []
  }

  /** The id of an accepted client. */
  function ClientCame(s: Sock, e: SockEvent): seq<int> {
    if e.Happened? && e.message.Accepted? && e.message.client >= 0 then [e.message.client] else []
  }

  /** The own id that goes in this event, if one does. */
  function OwnGone(s: Sock, e: SockEvent): seq<Departure> {
    match e
    case Registered(_, _) => AllForgotten(OwnId(s))
    case Unregistered => []
    case Called(op) =>
      if op.Close? then AllClosed(OwnId(s))
      else if op.Connect? && s.socketId < 0 && op.id >= 0 && op.ret < 0 then [Closed(op.id)]
      else []
    case Happened(m) => if ClosingFor(s, m) == Everything then AllClosed(OwnId(s)) else []
  }

  /** The client's id that goes in this event; a new client takes the place of the one before without a close. */
  function ClientGone(s: Sock, e: SockEvent): seq<Departure> {
    match e
    case Registered(_, _) => AllForgotten(ClientId(s))
    case Unregistered => []
    case Called(op) => if op.Close? || op.CloseClient? then AllClosed(ClientId(s)) else []
    case Happened(m) =>
      if ClosingFor(s, m) != Nothing then AllClosed(ClientId(s))
      else if m.Accepted? then AllForgotten(ClientId(s))
      else []
  }

  /** In one event, what was there and what came is what goes and what is there then. */
  lemma EventBalances(s: Sock, e: SockEvent)
    requires Possible(s, e)
    ensures OwnId(s) + OwnCame(s, e) == Ids(OwnGone(s, e)) + OwnId(Act(s, e))
    ensures ClientId(s) + ClientCame(s, e) == Ids(ClientGone(s, e)) + ClientId(Act(s, e))
  {
    match e
    case Called(op) => CallBalances(s, op);
    case Happened(m) => MessageBalances(s, m);
    case _ =>
  }

  lemma CallBalances(s: Sock, op: Op)
    requires Possible(s, Called(op))
    ensures OwnId(s) + OwnCame(s, Called(op)) == Ids(OwnGone(s, Called(op))) + OwnId(Local(s, op))
    ensures ClientId(s) == Ids(ClientGone(s, Called(op))) + ClientId(Local(s, op))
  {
    match op
    case Connect(_, id, ret) => ConnectBalances(s, op);
    case Close(_) => CloseBalances(s);
    case CloseClient(_) => CloseBalances(s);
    case _ => OtherCallsKeepIds(s, op);
  }

  lemma ConnectBalances(s: Sock, op: Op)
    requires op.Connect?
    ensures OwnId(s) + OwnCame(s, Called(op)) == Ids(OwnGone(s, Called(op))) + OwnId(ConnectSock(s, op.id, op.ret))
    ensures ClientId(s) == Ids(ClientGone(s, Called(op))) + ClientId(ConnectSock(s, op.id, op.ret))
  {
    var t := ConnectSock(s, op.id, op.ret);
    assert ClientGone(s, Called(op)) == [] && ClientId(t) == ClientId(s);
    if s.socketId >= 0 || op.id < 0 {
      assert OwnCame(s, Called(op)) == [] && OwnGone(s, Called(op)) == [];
    } else if op.ret < 0 {
      assert Ids([Closed(op.id)]) == [op.id] + Ids([]);
    } else {
      assert OwnGone(s, Called(op)) == [];
    }
  }

  lemma OtherCallsKeepIds(s: Sock, op: Op)
    requires Possible(s, Called(op)) && !op.Connect? && !op.Close? && !op.CloseClient?
    ensures OwnId(Local(s, op)) == OwnId(s) && ClientId(Local(s, op)) == ClientId(s)
  {
  }

  lemma MessageBalances(s: Sock, m: Message)
    ensures OwnId(s) == Ids(OwnGone(s, Happened(m))) + OwnId(Deliver(s, m))
    ensures ClientId(s) + ClientCame(s, Happened(m)) == Ids(ClientGone(s, Happened(m))) + ClientId(Deliver(s, m))
  {
    DeliverCloses(s, m);
    match ClosingFor(s, m)
    case Everything => CloseBalances(s);
    case ClientOnly => CloseBalances(s);
    case Nothing =>
      assert Ids([]) == [];
      if m.Accepted? {
        assert ClientId(Deliver(s, m)) == [m.client] == ClientCame(s, Happened(m));
      }
  }

  lemma CloseBalances(s: Sock)
    ensures OwnId(CloseSock(s)) == ClientId(CloseSock(s)) == ClientId(CloseClientSock(s)) == []
    ensures OwnId(CloseClientSock(s)) == OwnId(s)
  {
  }

  // ---------------------------------------------------------------- over whole runs

  function AllOwnCame(s: Sock, events: seq<SockEvent>): seq<int>
    requires PossibleRun(s, events)
    decreases events
  {
    if events == [] then [] else OwnCame(s, events[0]) + AllOwnCame(Act(s, events[0]), events[1..])
  }

  function AllOwnGone(s: Sock, events: seq<SockEvent>): seq<Departure>
    requires PossibleRun(s, events)
    decreases events
  {
    if events == [] then [] else OwnGone(s, events[0]) + AllOwnGone(Act(s, events[0]), events[1..])
  }

  function AllClientsCame(s: Sock, events: seq<SockEvent>): seq<int>
    requires PossibleRun(s, events)
    decreases events
  {
    if events == [] then [] else ClientCame(s, events[0]) + AllClientsCame(Act(s, events[0]), events[1..])
  }

  function AllClientsGone(s: Sock, events: seq<SockEvent>): seq<Departure>
    requires PossibleRun(s, events)
    decreases events
  {
    if events == [] then [] else ClientGone(s, events[0]) + AllClientsGone(Act(s, events[0]), events[1..])
  }

  /**
   Over every run, the own ids and the clients' ids that the network stack handed out are, in the
   same order, those that have gone and the one that is still there: none twice, none invented.
   */
  lemma {:induction false} IdsBalance(s: Sock, events: seq<SockEvent>)
    requires PossibleRun(s, events)
    ensures var t := ActAll(s, events);
            && OwnId(s) + AllOwnCame(s, events) == Ids(AllOwnGone(s, events)) + OwnId(t)
            && ClientId(s) + AllClientsCame(s, events) == Ids(AllClientsGone(s, events)) + ClientId(t)
    decreases events
  {
    if events != [] {
      var e, rest := events[0], events[1..];
      var next := Act(s, e);
      EventBalances(s, e);
      IdsBalance(next, rest);
      IdsConcat(OwnGone(s, e), AllOwnGone(next, rest));
      IdsConcat(ClientGone(s, e), AllClientsGone(next, rest));
      Chain(OwnId(s), OwnCame(s, e), AllOwnCame(next, rest), Ids(OwnGone(s, e)), OwnId(next),
            Ids(AllOwnGone(next, rest)), OwnId(ActAll(s, events)));
      Chain(ClientId(s), ClientCame(s, e), AllClientsCame(next, rest), Ids(ClientGone(s, e)), ClientId(next),
            Ids(AllClientsGone(next, rest)), ClientId(ActAll(s, events)));
    } else {
      assert Ids([]) == [];
    }
  }

  lemma Chain(held: seq<int>, came: seq<int>, later: seq<int>, gone: seq<int>, between: seq<int>,
              goneLater: seq<int>, end: seq<int>)
    requires held + came == gone + between
    requires between + later == goneLater + end
    ensures held + (came + later) == (gone + goneLater) + end
  {
    assert held + (came + later) == (held + came) + later;
    assert (gone + between) + later == gone + (between + later);
    assert gone + (goneLater + end) == (gone + goneLater) + end;
  }

  lemma {:induction false} IdsLength(departures: seq<Departure>)
    ensures |Ids(departures)| == |departures|
  {
    if departures != [] {
      IdsLength(departures[1..]);
    }
  }

  // ---------------------------------------------------------------- connecting

  /** socketManager_connect returns 0. */
  predicate ReportsSuccess(s: Sock, id: int, ret: int) {
    ConnectSock(s, id, ret).socketId >= 0
  }

  /** It has obtained an id, and connect() or bind() took it. */
  predicate OpensConnection(s: Sock, id: int, ret: int) {
    s.socketId < 0 && id >= 0 && ret >= 0
  }

  /**
   After every run from a closed socket: a connect that reports success has opened a connection
   exactly if all ids obtained before have gone, and then success is that of both network calls;
   otherwise it has done nothing at all.
   */
  lemma ConnectOpensIff(s: Sock, events: seq<SockEvent>, id: int, ret: int)
    requires s.socketId < 0 && PossibleRun(s, events)
    ensures var t, came, gone := ActAll(s, events), |AllOwnCame(s, events)|, |AllOwnGone(s, events)|;
            && (came == gone || came == gone + 1)
            && (ReportsSuccess(t, id, ret) ==> (OpensConnection(t, id, ret) <==> came == gone))
            && (came == gone ==> (ReportsSuccess(t, id, ret) <==> id >= 0 && ret >= 0))
            && (came > gone ==> ReportsSuccess(t, id, ret) && ConnectSock(t, id, ret) == t)
  {
    IdsBalance(s, events);
    IdsLength(AllOwnGone(s, events));
  }

  /** No message of the run says that a connection has been made. */
  predicate NeverConnected(events: seq<SockEvent>) {
    forall e <- events :: e.Happened? && e.message.Connected? ==> e.message.error < 0
  }

  /**
   A failed connection attempt leaves the socket open. Until its id goes, every later connect
   reports success, calls the network stack for nothing, and leaves the socket unconnected.
   */
  lemma FailedConnectSticks(s: Sock, error: int, events: seq<SockEvent>, id: int, ret: int)
    requires s.socketId >= 0 && !s.connected && error < 0
    requires s.outPtr <= |s.out|
    requires var failed := Act(s, Happened(Connected(error)));
             PossibleRun(failed, events) && AllOwnGone(failed, events) == [] && NeverConnected(events)
    ensures var failed := Act(s, Happened(Connected(error)));
            var t := ActAll(failed, events);
            && AllOwnCame(failed, events) == []
            && t.socketId == s.socketId && !t.connected
            && ReportsSuccess(t, id, ret) && ConnectSock(t, id, ret) == t
  {
    var failed := Act(s, Happened(Connected(error)));
    assert failed == s;
    IdsBalance(s, events);
    StillHeld(s.socketId, AllOwnCame(s, events), OwnId(ActAll(s, events)));
    StaysUnconnected(s, events);
  }

  lemma StillHeld(id: int, came: seq<int>, held: seq<int>)
    requires |held| <= 1 && [id] + came == Ids([]) + held
    ensures came == [] && held == [id]
  {
    assert |[id] + came| == |held|;
    assert held[0] == ([id] + came)[0];
  }

  lemma {:induction false} StaysUnconnected(s: Sock, events: seq<SockEvent>)
    requires PossibleRun(s, events) && NeverConnected(events) && !s.connected
    ensures !ActAll(s, events).connected
    decreases events
  {
    if events != [] {
      assert events[0] in events;
      EventConnects(s, events[0]);
      StaysUnconnected(Act(s, events[0]), events[1..]);
    }
  }

  lemma EventConnects(s: Sock, e: SockEvent)
    requires Possible(s, e) && !s.connected
    requires e.Happened? && e.message.Connected? ==> e.message.error < 0
    ensures !Act(s, e).connected
  {
    if e.Called? {
      CallConnects(s, e.op);
    }
  }

  lemma CallConnects(s: Sock, op: Op)
    requires Possible(s, Called(op))
    ensures Local(s, op).connected ==> s.connected
  {
  }

  /** Trying again after a failed attempt: nothing is opened, and success is reported. */
  lemma RetryDoesNothing(config: Config, id: nat, error: int, id2: int, ret2: int)
    requires config.isTCP && !config.server && error < 0
    ensures var s := ConnectSock(Fresh(0, config), id, 0);
            var t := Deliver(s, Connected(error));
            && !t.connected && ReportsSuccess(t, id2, ret2) && ConnectSock(t, id2, ret2) == t
            && OpensConnection(CloseSock(t), id, 0)
  {
  }

  // ---------------------------------------------------------------- what the flags say

  datatype Flag = IsConnected | IsListening

  predicate Raised(s: Sock, flag: Flag) {
    if flag.IsConnected? then s.connected else s.listening
  }

  /** The message that a connection has been made, or that the socket has been bound. */
  predicate Announces(e: SockEvent, flag: Flag) {
    e.Happened? && if flag.IsConnected? then e.message.Connected? && e.message.error >= 0
                   else e.message == Bound(0)
  }

  /** The own id does not go during the run, and the structure is not registered anew. */
  predicate KeepsId(s: Sock, events: seq<SockEvent>)
    requires PossibleRun(s, events)
  {
    AllOwnGone(s, events) == [] && forall e <- events :: !e.Registered?
  }

  /** The announcement has come in the run, and since then the id is still the same. */
  predicate AnnouncedSince(s: Sock, events: seq<SockEvent>, flag: Flag)
    requires PossibleRun(s, events)
    decreases events
  {
    events != [] &&
      var next, rest := Act(s, events[0]), events[1..];
      (Announces(events[0], flag) && KeepsId(next, rest)) || AnnouncedSince(next, rest, flag)
  }

  /** Messages come only for a socket that has an id. */
  predicate HeardWhileOpen(s: Sock, events: seq<SockEvent>)
    requires PossibleRun(s, events)
    decreases events
  {
    events != [] ==>
      (events[0].Happened? ==> s.socketId >= 0) && HeardWhileOpen(Act(s, events[0]), events[1..])
  }

  /**
   After every run a socket is connected, or listening, exactly if that has been announced since
   its own id last went and since it was registered.
   */
  lemma {:induction false} FlagsAreTold(s: Sock, events: seq<SockEvent>, flag: Flag)
    requires SafeIds(s) && PossibleRun(s, events) && HeardWhileOpen(s, events)
    ensures Raised(ActAll(s, events), flag)
            <==> AnnouncedSince(s, events, flag) || (Raised(s, flag) && KeepsId(s, events))
    decreases events
  {
    if events != [] {
      FlagAfter(s, events[0], flag);
      FlagsAreTold(Act(s, events[0]), events[1..], flag);
      KeepsIdFirst(s, events);
    }
  }

  lemma KeepsIdFirst(s: Sock, events: seq<SockEvent>)
    requires events != [] && PossibleRun(s, events)
    ensures KeepsId(s, events) <==> OwnGone(s, events[0]) == [] && !events[0].Registered?
                                    && KeepsId(Act(s, events[0]), events[1..])
  {
    assert forall e :: e in events <==> e == events[0] || e in events[1..];
  }

  lemma FlagAfter(s: Sock, e: SockEvent, flag: Flag)
    requires SafeIds(s) && Possible(s, e) && (e.Happened? ==> s.socketId >= 0)
    ensures SafeIds(Act(s, e))
    ensures Raised(Act(s, e), flag)
            <==> Announces(e, flag) || (Raised(s, flag) && OwnGone(s, e) == [] && !e.Registered?)
  {
    match e {
      case Called(op) => FlagAfterCall(s, op, flag);
      case Happened(m) => FlagAfterMessage(s, m, flag);
      case _ =>
    }
  }

  lemma FlagAfterCall(s: Sock, op: Op, flag: Flag)
    requires SafeIds(s) && Possible(s, Called(op))
    ensures SafeIds(Local(s, op))
    ensures Raised(Local(s, op), flag) <==> Raised(s, flag) && OwnGone(s, Called(op)) == []
  {
  }

  lemma FlagAfterMessage(s: Sock, m: Message, flag: Flag)
    requires SafeIds(s) && s.socketId >= 0
    ensures SafeIds(Deliver(s, m))
    ensures Raised(Deliver(s, m), flag)
            <==> Announces(Happened(m), flag) || (Raised(s, flag) && OwnGone(s, Happened(m)) == [])
  {
  }

  /** In the system, messages come only for sockets that have an id. */
  lemma {:induction false} SeenWhileOpen(y: System, ops: seq<Op>, h: nat)
    requires Inv(y) && AllowedRun(y, ops) && h < |y.socks|
    ensures PossibleRun(y.socks[h], SeenInRun(y, ops, h))
    ensures HeardWhileOpen(y.socks[h], SeenInRun(y, ops, h))
    decreases ops
  {
    RunIsSeen(y, ops, h);
    if ops != [] {
      StepKeepsInv(y, ops[0]);
      StepIsSeen(y, ops[0], h);
      SeenWhileOpen(Step(y, ops[0]), ops[1..], h);
      var first, rest := Seen(y, ops[0], h), SeenInRun(Step(y, ops[0]), ops[1..], h);
      if first == [] {
        assert first + rest == rest;
      } else {
        assert first[1..] == [] && (first + rest)[1..] == rest;
        assert Act(y.socks[h], first[0]) == ActAll(y.socks[h], first);
      }
    }
  }

  /** In every run of the system, the flags of every socket say what the messages and its ids tell. */
  lemma SystemFlagsAreTold(y: System, ops: seq<Op>, h: nat, flag: Flag)
    requires Inv(y) && AllowedRun(y, ops) && h < |y.socks|
    ensures |Run(y, ops).socks| == |y.socks|
    ensures PossibleRun(y.socks[h], SeenInRun(y, ops, h))
    ensures var s, seen := y.socks[h], SeenInRun(y, ops, h);
            Raised(Run(y, ops).socks[h], flag)
            <==> AnnouncedSince(s, seen, flag) || (Raised(s, flag) && KeepsId(s, seen))
  {
    RunIsSeen(y, ops, h);
    SeenWhileOpen(y, ops, h);
    FlagsAreTold(y.socks[h], SeenInRun(y, ops, h), flag);
  }

  // ---------------------------------------------------------------- where data is received

  /**
   After every run from a closed socket: a server receives on the id of the client accepted last,
   a TCP client on the id obtained last, as long as that one has not gone; a UDP client on none.
   */
  lemma ReceivesOnLastId(s: Sock, events: seq<SockEvent>)
    requires s.socketId < 0 && s.clientSocketId < 0 && PossibleRun(s, events)
    ensures var t := ActAll(s, events);
            var came := if t.server then AllClientsCame(s, events) else AllOwnCame(s, events);
            var gone := if t.server then AllClientsGone(s, events) else AllOwnGone(s, events);
            && (ReceivingId(t) >= 0 <==> (t.server || t.isTCP) && |came| > |gone|)
            && (ReceivingId(t) >= 0 ==> |came| == |gone| + 1 && came[|gone|] == ReceivingId(t))
  {
    IdsBalance(s, events);
    HeldCameLast(AllOwnCame(s, events), AllOwnGone(s, events), OwnId(ActAll(s, events)));
    HeldCameLast(AllClientsCame(s, events), AllClientsGone(s, events), ClientId(ActAll(s, events)));
  }

  lemma HeldCameLast(came: seq<int>, gone: seq<Departure>, held: seq<int>)
    requires [] + came == Ids(gone) + held && |held| <= 1
    ensures |came| == |gone| + |held|
    ensures held != [] ==> came[|gone|] == held[0]
  {
    IdsLength(gone);
    assert came == [] + came;
    assert held != [] ==> (Ids(gone) + held)[|gone|] == held[0];
  }

  // ---------------------------------------------------------------- what goes through the buffers

  /** The output buffer's size, the bytes waiting to be sent, and the number of bytes received. */
  datatype Traffic = Traffic(size: nat, waiting: seq<Byte>, received: int, wanted: bool)

  function TrafficAt(s: Sock): Traffic
    requires s.outPtr <= |s.out|
  {
    Traffic(|s.out|, Written(s), s.inPtr, s.onReceived)
  }

  /** As much of the data as still fits. */
  function Joined(waiting: seq<Byte>, data: seq<Byte>, size: nat): seq<Byte> {
    var all := waiting + data;
    if |all| <= size then all else all[..size]
  }

  /** A 16-bit number of which only one byte fits is not put; a receive callback is needed for data. */
  function TrafficAfter(x: Traffic, e: SockEvent): Traffic
    requires e.Called? && e.op.PutInt16? ==> e.op.word < 0x1_0000
  {
    match e
    case Registered(_, config) => Traffic(|config.out|, [], 0, config.onReceived)
    case Called(PutBytes(_, data)) => x.(waiting := Joined(x.waiting, data, x.size))
    case Called(PutInt16(_, word)) =>
      if |x.waiting| + 2 > x.size then x else x.(waiting := x.waiting + [word / 256, word % 256])
    case Called(FlushOut(_)) => x.(waiting := [])
    case Called(FlushIn(_)) => x.(received := 0)
    case Happened(Received(n)) => if n > 0 && x.wanted then x.(received := x.received + n) else x
    case _ => x
  }

  function TrafficTold(s: Sock, events: seq<SockEvent>, x: Traffic): Traffic
    requires PossibleRun(s, events)
    decreases events
  {
    if events == [] then x else TrafficTold(Act(s, events[0]), events[1..], TrafficAfter(x, events[0]))
  }

  lemma EventTraffic(s: Sock, e: SockEvent)
    requires Possible(s, e) && |Written(s)| <= |s.out|
    ensures TrafficAt(Act(s, e)) == TrafficAfter(TrafficAt(s), e)
  {
    match e {
      case Called(op) => CallTraffic(s, op);
      case Registered(index, config) => assert Written(Fresh(index, config)) == [];
      case _ =>
    }
  }

  lemma CallTraffic(s: Sock, op: Op)
    requires Possible(s, Called(op))
    ensures TrafficAt(Local(s, op)) == TrafficAfter(TrafficAt(s), Called(op))
  {
    match op {
      case PutBytes(_, data) => StoreJoins(s, data);
      case PutInt16(_, word) => StoreJoins(s, [word / 256, word % 256]);
      case FlushOut(_) => assert s.out[..0] == [];
      case _ =>
    }
  }

  lemma StoreJoins(s: Sock, data: seq<Byte>)
    requires s.outPtr <= |s.out|
    ensures Written(Store(s, data)) == Joined(Written(s), data, |s.out|)
  {
    StoreAppends(s, data);
  }

  /**
   After every run, what waits to be sent is what has been put since the last flush, as far as the
   buffer takes it, and the input pointer counts the bytes received since the input was flushed.
   */
  lemma {:induction false} TrafficIsTold(s: Sock, events: seq<SockEvent>)
    requires s.outPtr <= |s.out| && PossibleRun(s, events)
    ensures ActAll(s, events).outPtr <= |ActAll(s, events).out|
    ensures TrafficAt(ActAll(s, events)) == TrafficTold(s, events, TrafficAt(s))
    decreases events
  {
    if events != [] {
      EventTraffic(s, events[0]);
      TrafficIsTold(Act(s, events[0]), events[1..]);
    }
  }

  // ---------------------------------------------------------------- receive requests

  /** The id that data comes on: that of a server's client, or the own one of a TCP client. */
  function DataId(s: Sock): seq<int> {
    if s.server then ClientId(s) else if s.isTCP then OwnId(s) else []
  }

  /** The id that data comes on goes. */
  predicate DataIdGoes(s: Sock, e: SockEvent) {
    e.Registered? || (if s.server then ClientGone(s, e) else OwnGone(s, e)) != []
  }

  /** The length requested and not withdrawn: a request with room replaces the one before. */
  function RequestAfter(s: Sock, length: nat, e: SockEvent): nat {
    if e.Called? && e.op.StartReceiving? then
      var room := Wrap16(s.inLen - s.inPtr);
      if DataId(s) != [] && room > 0 then room else length
    else if DataIdGoes(s, e) then 0
    else length
  }

  function RequestTold(s: Sock, events: seq<SockEvent>, length: nat): nat
    requires PossibleRun(s, events)
    decreases events
  {
    if events == [] then length else RequestTold(Act(s, events[0]), events[1..], RequestAfter(s, length, events[0]))
  }

  /** A receive request belongs to an open connection. */
  predicate RequestIsOpen(s: Sock) {
    SafeIds(s) && (s.requested > 0 ==> DataId(s) != [])
  }

  /**
   After every run the network stack has the request made last on the id that data comes on, as
   long as that one has not gone.
   */
  lemma {:induction false} RequestIsTold(s: Sock, events: seq<SockEvent>)
    requires RequestIsOpen(s) && PossibleRun(s, events) && HeardWhileOpen(s, events)
    ensures ActAll(s, events).requested == RequestTold(s, events, s.requested)
    decreases events
  {
    if events != [] {
      RequestAfterEvent(s, events[0]);
      RequestIsTold(Act(s, events[0]), events[1..]);
    }
  }

  lemma RequestAfterEvent(s: Sock, e: SockEvent)
    requires RequestIsOpen(s) && Possible(s, e) && (e.Happened? ==> s.socketId >= 0)
    ensures RequestIsOpen(Act(s, e)) && Act(s, e).requested == RequestAfter(s, s.requested, e)
  {
    match e {
      case Called(op) => RequestAfterCall(s, op);
      case Happened(m) => RequestAfterMessage(s, m);
      case _ =>
    }
  }

  lemma RequestAfterCall(s: Sock, op: Op)
    requires RequestIsOpen(s) && Possible(s, Called(op))
    ensures RequestIsOpen(Local(s, op)) && Local(s, op).requested == RequestAfter(s, s.requested, Called(op))
  {
  }

  lemma RequestAfterMessage(s: Sock, m: Message)
    requires RequestIsOpen(s) && s.socketId >= 0
    ensures RequestIsOpen(Deliver(s, m)) && Deliver(s, m).requested == RequestAfter(s, s.requested, Happened(m))
  {
  }

  // ---------------------------------------------------------------- which socket a message reaches

  /** The table's entry i is a socket that has the id, as its own or as its client's. */
  predicate EntryHasId(y: System, i: nat, id: int)
    requires Inv(y) && i < |y.table|
  {
    y.table[i].Some? && var s := y.socks[y.table[i].value]; id == s.socketId || id == s.clientSocketId
  }

  /** The ids among the departures that have been closed. */
  function ClosedOf(departures: seq<Departure>): seq<int> {
    if departures == [] then []
    else (if departures[0].Closed? then [departures[0].id] else []) + ClosedOf(departures[1..])
  }

  /** No entry before the i-th has the id. */
  predicate NoneBefore(y: System, i: nat, id: int)
    requires Inv(y) && i <= |y.table|
  {
    forall k :: 0 <= k < i ==> !EntryHasId(y, k, id)
  }

  lemma FirstIsFound(y: System, i: nat, id: int)
    requires Inv(y) && i <= |y.table| && NoneBefore(y, i, id)
    requires i < |y.table| ==> EntryHasId(y, i, id)
    ensures Find(y, id, 0) == i
  {
    assert forall k :: 0 <= k < |y.table| ==> (EntryHasId(y, k, id) <==> Answers(y, k, id));
  }

  /**
   A message reaches the socket of the first entry that has the id and no other; what is closed for
   it is, client first, what goes. For an id that no entry has nothing changes.
   */
  lemma MessageReachesFirst(y: System, i: nat, id: int, m: Message)
    requires Inv(y) && i <= |y.table| && NoneBefore(y, i, id)
    requires i < |y.table| ==> EntryHasId(y, i, id)
    ensures i == |y.table| ==> CallbackIn(y, id, m) == y && ClosedInCallback(y, id, m) == []
    ensures i < |y.table| ==>
              var h := y.table[i].value;
              var e, s := Happened(m), y.socks[h];
              && CallbackIn(y, id, m) == y.(socks := y.socks[h := Act(s, e)])
              && ClosedInCallback(y, id, m) == ClosedOf(ClientGone(s, e)) + ClosedOf(OwnGone(s, e))
  {
    FirstIsFound(y, i, id);
    if i < |y.table| {
      ClosedAreGone(y.socks[y.table[i].value], m);
    }
  }

  lemma ClosedAreGone(s: Sock, m: Message)
    ensures ClosedIds(s, ClosingFor(s, m))
            == ClosedOf(ClientGone(s, Happened(m))) + ClosedOf(OwnGone(s, Happened(m)))
  {
  }

  // ---------------------------------------------------------------- ids that are never closed

  predicate NoneForgotten(departures: seq<Departure>) {
    forall d <- departures :: d.Closed?
  }

  /** A client is accepted while one is there, or the structure is registered anew while one is. */
  predicate OverwritesClient(s: Sock, e: SockEvent) {
    s.clientSocketId >= 0 && (e.Registered? || (e.Happened? && e.message.Accepted? && e.message.client >= 0))
  }

  predicate OverwritesClientInRun(s: Sock, events: seq<SockEvent>)
    requires PossibleRun(s, events)
    decreases events
  {
    events != [] &&
      (OverwritesClient(s, events[0]) || OverwritesClientInRun(Act(s, events[0]), events[1..]))
  }

  /** Every client is closed by the time it goes, unless another one was put in its place. */
  lemma {:induction false} ClientsClosedIff(s: Sock, events: seq<SockEvent>)
    requires PossibleRun(s, events)
    ensures NoneForgotten(AllClientsGone(s, events)) <==> !OverwritesClientInRun(s, events)
    decreases events
  {
    if events != [] {
      var e, rest := events[0], events[1..];
      ClientsClosedIff(Act(s, e), rest);
      OneEventForgets(s, e);
      NoneForgottenConcat(ClientGone(s, e), AllClientsGone(Act(s, e), rest));
    }
  }

  lemma OneEventForgets(s: Sock, e: SockEvent)
    requires Possible(s, e)
    ensures NoneForgotten(ClientGone(s, e)) <==> !OverwritesClient(s, e)
  {
    EachKind(ClientId(s));
  }

  lemma {:induction false} EachKind(ids: seq<int>)
    ensures NoneForgotten(AllClosed(ids))
    ensures NoneForgotten(AllForgotten(ids)) <==> ids == []
  {
    if ids != [] {
      EachKind(ids[1..]);
      assert AllForgotten(ids)[0] == Forgotten(ids[0]);
      assert Forgotten(ids[0]) in AllForgotten(ids);
    }
  }

  lemma NoneForgottenConcat(a: seq<Departure>, b: seq<Departure>)
    ensures NoneForgotten(a + b) <==> NoneForgotten(a) && NoneForgotten(b)
  {
    assert forall d :: d in a + b <==> d in a || d in b;
  }
}
