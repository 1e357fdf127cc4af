/**
 The socket table of the firmware (socketManager.c): sockets owned by their callers are entered
 in a fixed table, filled through an output buffer, and changed by the events of the network
 stack. Results of network calls are arguments of the operations that make them.
 */
module SocketManager {
  import opened Options
  import opened Sequences
  import opened Words
  import WireFormat

  const MAX_N_SOCKETS: nat := 5

  /**
   socket_t. The buffers' lengths are fixed by the configuration; `requested` is what the network
   stack keeps for the socket: the length last passed to recv, zero once the connection is closed.
   */
  datatype Sock = Sock(socketId: int, listIndex: int, isTCP: bool, server: bool,
                       listening: bool, connected: bool, clientSocketId: int,
                       out: seq<Byte>, outPtr: nat, inLen: nat, inPtr: nat,
                       onReceived: bool, requested: nat)

  datatype Config = Config(isTCP: bool, server: bool, out: seq<Byte>, inLen: nat, onReceived: bool)

  /** The structures of all callers, and the table of those that are registered. */
  datatype System = System(table: seq<Option<nat>>, socks: seq<Sock>)

  // ---------------------------------------------------------------- one socket

  function Fresh(index: int, c: Config): Sock {
    Sock(-1, index, c.isTCP, c.server, false, false, -1, c.out, 0, c.inLen, 0, c.onReceived, 0)
  }

  /** socketManager_connect with the results of socket() and of connect() or bind(). */
  function ConnectSock(s: Sock, id: int, ret: int): Sock {
    if s.socketId >= 0 then s
    else if id < 0 then s.(socketId := id)
    else if ret < 0 then s.(socketId := -1)
    else s.(socketId := id)
  }

  /** The id that socketManager_startReceiving passes to recv; there is no call for UDP clients. */
  function ReceivingId(s: Sock): int {
    if s.server then s.clientSocketId else if s.isTCP then s.socketId else -1
  }

  /** socketManager_startReceiving: recv takes a 16-bit length and ignores zero and closed sockets. */
  function StartReceivingSock(s: Sock): Sock {
    var length := Wrap16(s.inLen - s.inPtr);
    if ReceivingId(s) >= 0 && length != 0 then s.(requested := length) else s
  }

  /** The id of the own connection, and that of the client, if they are open. */
  function OwnId(s: Sock): seq<int> {
    if s.socketId >= 0 then [s.socketId] else []
  }

  function ClientId(s: Sock): seq<int> {
    if s.clientSocketId >= 0 then [s.clientSocketId] else []
  }

  function CloseClientSock(s: Sock): Sock {
    s.(clientSocketId := -1, requested := if s.server then 0 else s.requested)
  }

  function CloseSock(s: Sock): Sock {
    s.(clientSocketId := -1, listening := false, connected := false, socketId := -1, requested := 0)
  }

  /** The bytes waiting to be sent. */
  function Written(s: Sock): seq<Byte>
    requires s.outPtr <= |s.out|
  {
    s.out[..s.outPtr]
  }

  function Room(s: Sock): nat
    requires s.outPtr <= |s.out|
  {
    |s.out| - s.outPtr
  }

  /** The bytes of data that still fit, stored behind those already written. */
  function Store(s: Sock, data: seq<Byte>): (t: Sock)
    requires s.outPtr <= |s.out|
    ensures t.outPtr <= |t.out| == |s.out|
  {
    var n := if |data| <= Room(s) then |data| else Room(s);
    s.(out := s.out[..s.outPtr] + data[..n] + s.out[s.outPtr + n..], outPtr := s.outPtr + n)
  }

  /** socketManager_bufferOutPutInt16 stores both bytes, high byte first, or neither. */
  function PutInt16Sock(s: Sock, w: nat): (t: Sock)
    requires s.outPtr <= |s.out| && w < 0x1_0000
    ensures t.outPtr <= |t.out| == |s.out|
  {
    if Room(s) > 1 then Store(s, [w / 256, w % 256]) else s
  }

  /** Messages of the network stack to socket_cb. */
  datatype Message =
    | Bound(status: int)
    | Listening(status: int)
    | Accepted(client: int)
    | Connected(error: int)
    | Sent
    | Received(size: int)

  function Deliver(s: Sock, m: Message): (t: Sock)
    ensures t.out == s.out && t.outPtr == s.outPtr
  {
    match m
    case Bound(status) => if status == 0 then s.(listening := true) else CloseSock(s)
    case Listening(status) => if status != 0 then CloseSock(s) else s
    case Accepted(client) =>
      if client >= 0 then s.(clientSocketId := client, requested := if s.server then 0 else s.requested)
      else CloseSock(s)
    case Connected(error) => if error >= 0 then s.(connected := true) else s
    case Sent => s
    case Received(size) =>
      if !s.onReceived then s
      else if size > 0 then s.(inPtr := s.inPtr + size)
      else if s.server then CloseClientSock(s)
      else CloseSock(s)
  }

  /** What socket_cb closes for a message, by socketManager_closeClient or socketManager_close. */
  datatype Closing = Nothing | ClientOnly | Everything

  function ClosingFor(s: Sock, m: Message): Closing {
    match m
    case Bound(status) => if status != 0 then Everything else Nothing
    case Listening(status) => if status != 0 then Everything else Nothing
    case Accepted(client) => if client < 0 then Everything else Nothing
    case Received(size) =>
      if !s.onReceived || size > 0 then Nothing else if s.server then ClientOnly else Everything
    case _ => Nothing
  }

  lemma DeliverCloses(s: Sock, m: Message)
    ensures var t := Deliver(s, m);
            match ClosingFor(s, m)
            case Everything => t == CloseSock(s)
            case ClientOnly => t == CloseClientSock(s)
            case Nothing => t.socketId == s.socketId
                            && t.clientSocketId == if m.Accepted? then m.client else s.clientSocketId
  {
  }

  /** The ids handed to close(), which ignores negative ones. */
  function ClosedIds(s: Sock, closing: Closing): seq<int> {
    match closing
    case Nothing => []
    case ClientOnly => ClientId(s)
    case Everything => ClientId(s) + OwnId(s)
  }

  // ---------------------------------------------------------------- the table

  function FreeIndex(table: seq<Option<nat>>): (i: nat)
    ensures i <= |table|
    ensures i < |table| ==> table[i] == None
    ensures forall k :: 0 <= k < i ==> table[k] != None
  {
    if table == [] || table[0] == None then 0 else 1 + FreeIndex(table[1..])
  }

  predicate Answers(y: System, i: nat, id: int)
    requires i < |y.table|
  {
    y.table[i].Some? && y.table[i].value < |y.socks|
    && (y.socks[y.table[i].value].socketId == id || y.socks[y.table[i].value].clientSocketId == id)
  }

  /** socketManager_getSocketBySocketId: the first entry whose own or client id is the given one. */
  function Find(y: System, id: int, from: nat): (i: nat)
    requires from <= |y.table|
    ensures from <= i <= |y.table|
    ensures i < |y.table| ==> Answers(y, i, id)
    ensures forall k :: from <= k < i ==> !Answers(y, k, id)
    decreases |y.table| - from
  {
    if from == |y.table| || Answers(y, from, id) then from else Find(y, id, from + 1)
  }

  // ---------------------------------------------------------------- runs

  datatype Op =
    | Create(h: nat, config: Config)
    | Delete(h: nat)
    | Connect(h: nat, id: int, ret: int)
    | Close(h: nat)
    | CloseClient(h: nat)
    | PutBytes(h: nat, data: seq<Byte>)
    | PutInt16(h: nat, word: nat)
    | FlushOut(h: nat)
    | StartReceiving(h: nat)
    | FlushIn(h: nat)
    | Callback(id: int, message: Message)

  /** Flags and a client imply an open socket. */
  predicate SafeIds(s: Sock) {
    s.connected || s.listening || s.clientSocketId >= 0 ==> s.socketId >= 0
  }

  /** Pointers stay inside the buffers, and a receive request belongs to an open connection. */
  predicate SafeSock(s: Sock) {
    && SafeIds(s)
    && s.outPtr <= |s.out|
    && s.inPtr <= s.inLen && s.requested <= s.inLen
    && (s.requested > 0 ==> ReceivingId(s) >= 0)
  }

  /** The length last requested still fits behind the input pointer. */
  predicate Covered(s: Sock) {
    s.inPtr + s.requested <= s.inLen
  }

  /** The operations that concern one socket alone. */
  function Local(s: Sock, op: Op): (t: Sock)
    requires s.outPtr <= |s.out| && (op.PutInt16? ==> op.word < 0x1_0000)
    ensures t.outPtr <= |t.out| == |s.out|
  {
    match op
    case Connect(_, id, ret) => ConnectSock(s, id, ret)
    case Close(_) => CloseSock(s)
    case CloseClient(_) => CloseClientSock(s)
    case PutBytes(_, data) => Store(s, data)
    case PutInt16(_, word) => PutInt16Sock(s, word)
    case FlushOut(_) => s.(outPtr := 0)
    case StartReceiving(_) => StartReceivingSock(s)
    case FlushIn(_) => s.(inPtr := 0)
    case _ => s
  }

  /** Table entries and list indices agree in both directions, and every socket is safe. */
  predicate Inv(y: System) {
    && |y.table| == MAX_N_SOCKETS
    && (forall i :: 0 <= i < |y.table| && y.table[i].Some? ==>
          y.table[i].value < |y.socks| && y.socks[y.table[i].value].listIndex == i)
    && (forall h :: 0 <= h < |y.socks| ==>
          && SafeSock(y.socks[h])
          && (y.socks[h].listIndex >= 0 ==>
                y.socks[h].listIndex < |y.table| && y.table[y.socks[h].listIndex] == Some(h)))
  }

  /**
   What callers and network stack do: sockets are registered at most once and deleted while
   registered, events carry real socket ids, chunks of data are no longer than the length last
   requested, and before the next chunk the input is flushed or requested anew.
   */
  predicate Allowed(y: System, op: Op)
    requires Inv(y)
  {
    match op
    case Create(h, _) => h < |y.socks| && y.socks[h].listIndex < 0
    case Delete(h) => h < |y.socks| && y.socks[h].listIndex >= 0
    case PutInt16(h, word) => h < |y.socks| && word < 0x1_0000
    case Callback(id, m) =>
      && id >= 0
      && (m.Received? && m.size > 0 && Find(y, id, 0) < |y.table| ==>
            var s := y.socks[y.table[Find(y, id, 0)].value];
            s.onReceived ==> m.size <= s.requested && Covered(s))
    case _ => op.h < |y.socks|
  }

  /** socketManager_createSocket */
  function CreateIn(y: System, h: nat, config: Config): System
    requires h < |y.socks|
  {
    var i := FreeIndex(y.table);
    if i < |y.table| then System(y.table[i := Some(h)], y.socks[h := Fresh(i, config)]) else y
  }

  /** socketManager_deleteSocket */
  function DeleteIn(y: System, h: nat): System
    requires h < |y.socks| && 0 <= y.socks[h].listIndex < |y.table|
  {
    System(y.table[y.socks[h].listIndex := None], y.socks[h := y.socks[h].(listIndex := -1)])
  }

  /** socket_cb */
  function CallbackIn(y: System, id: int, m: Message): System {
    var i := Find(y, id, 0);
    if i < |y.table| then
      var h := y.table[i].value;
      y.(socks := y.socks[h := Deliver(y.socks[h], m)])
    else y
  }

  /** The ids that socket_cb closes. */
  function ClosedInCallback(y: System, id: int, m: Message): seq<int> {
    var i := Find(y, id, 0);
    if i < |y.table| then
      var s := y.socks[y.table[i].value];
      ClosedIds(s, ClosingFor(s, m))
    else []
  }

  function Step(y: System, op: Op): System
    requires Inv(y) && Allowed(y, op)
  {
    match op
    case Create(h, config) => CreateIn(y, h, config)
    case Delete(h) => DeleteIn(y, h)
    case Callback(id, m) => CallbackIn(y, id, m)
    case _ => y.(socks := y.socks[op.h := Local(y.socks[op.h], op)])
  }

  lemma StepKeepsInv(y: System, op: Op)
    requires Inv(y) && Allowed(y, op)
    ensures Inv(Step(y, op)) && |Step(y, op).socks| == |y.socks|
  {
    match op
    case Create(h, config) => CreateKeepsInvIff(y, h, config);
    case Delete(h) => DeleteKeepsInv(y, h);
    case Callback(id, m) =>
      var i := Find(y, id, 0);
      if i < |y.table| {
        var h := y.table[i].value;
        DeliverKeepsSafe(y.socks[h], id, m);
        SocketReplaced(y, h, Deliver(y.socks[h], m));
      }
    case _ =>
      LocalKeepsSafe(y.socks[op.h], op);
      SocketReplaced(y, op.h, Local(y.socks[op.h], op));
  }

  lemma LocalKeepsSafe(s: Sock, op: Op)
    requires SafeSock(s) && (op.PutInt16? ==> op.word < 0x1_0000)
    ensures SafeSock(Local(s, op)) && Local(s, op).listIndex == s.listIndex
  {
  }

  /** A socket that is registered already must not be registered again while there is a free entry. */
  lemma CreateKeepsInvIff(y: System, h: nat, config: Config)
    requires Inv(y) && h < |y.socks|
    ensures Inv(CreateIn(y, h, config)) <==> y.socks[h].listIndex < 0 || FreeIndex(y.table) == |y.table|
  {
    if y.socks[h].listIndex < 0 {
      CreateKeepsInv(y, h, config);
    } else if FreeIndex(y.table) < |y.table| {
      assert CreateIn(y, h, config).table[y.socks[h].listIndex] == Some(h);
    }
  }

  lemma CreateKeepsInv(y: System, h: nat, config: Config)
    requires Inv(y) && h < |y.socks| && y.socks[h].listIndex < 0
    ensures Inv(CreateIn(y, h, config))
  {
  }

  lemma DeleteKeepsInv(y: System, h: nat)
    requires Inv(y) && Allowed(y, Delete(h))
    ensures Inv(Step(y, Delete(h)))
  {
  }

  lemma SocketReplaced(y: System, h: nat, s: Sock)
    requires Inv(y) && h < |y.socks| && SafeSock(s) && s.listIndex == y.socks[h].listIndex
    ensures Inv(y.(socks := y.socks[h := s]))
  {
  }

  /** An event for an id that the socket has keeps the socket safe. */
  lemma DeliverKeepsSafe(s: Sock, id: int, m: Message)
    requires SafeSock(s) && id >= 0 && (s.socketId == id || s.clientSocketId == id)
    requires m.Received? && m.size > 0 && s.onReceived ==> m.size <= s.requested && Covered(s)
    ensures SafeSock(Deliver(s, m)) && Deliver(s, m).listIndex == s.listIndex
  {
  }

  /**
   The network stack may deliver any chunk up to the length last requested, more than one for the
   same request. A socket with a receive callback is ready for all of them exactly if it is covered.
   */
  lemma AnyChunkFitsIff(s: Sock)
    requires SafeSock(s) && s.onReceived
    ensures (forall size | 0 < size <= s.requested :: SafeSock(Deliver(s, Received(size)))) <==> Covered(s)
  {
    if !Covered(s) {
      assert !SafeSock(Deliver(s, Received(s.requested)));
    }
  }

  /** Requesting anew covers a socket that has room, and so does flushing its input. */
  lemma RequestOrFlushCovers(s: Sock)
    requires SafeSock(s)
    ensures Covered(s.(inPtr := 0))
    ensures ReceivingId(s) >= 0 && Wrap16(s.inLen - s.inPtr) != 0 ==> Covered(StartReceivingSock(s))
    ensures ReceivingId(s) < 0 ==> Covered(s)
  {
  }

  /** Two chunks of a full request, and no flush in between: the input pointer leaves the buffer. */
  lemma SecondChunkOverruns(config: Config, id: nat)
    requires config.isTCP && !config.server && config.onReceived && 0 < config.inLen < 0x1_0000
    ensures var s := StartReceivingSock(ConnectSock(Fresh(0, config), id, 0));
            var t := Deliver(s, Received(s.requested));
            && SafeSock(s) && Covered(s) && SafeSock(t) && t.requested == s.requested
            && Deliver(t, Received(t.requested)).inPtr == 2 * config.inLen
  {
  }

  function Run(y: System, ops: seq<Op>): System
    requires Inv(y) && AllowedRun(y, ops)
    decreases ops
  {
    if ops == [] then y else
    StepKeepsInv(y, ops[0]);
    Run(Step(y, ops[0]), ops[1..])
  }

  predicate AllowedRun(y: System, ops: seq<Op>)
    requires Inv(y)
    decreases ops
  {
    ops != [] ==>
      && Allowed(y, ops[0])
      && (StepKeepsInv(y, ops[0]); AllowedRun(Step(y, ops[0]), ops[1..]))
  }

  /** Over every run: table and list indices agree, flags imply open sockets, pointers stay inside. */
  lemma {:induction false} RunKeepsInv(y: System, ops: seq<Op>)
    requires Inv(y) && AllowedRun(y, ops)
    ensures Inv(Run(y, ops))
    decreases ops
  {
    if ops != [] {
      StepKeepsInv(y, ops[0]);
      RunKeepsInv(Step(y, ops[0]), ops[1..]);
    }
  }

  // ---------------------------------------------------------------- what is sent

  /** Storing appends, as far as there is room. */
  lemma StoreAppends(s: Sock, data: seq<Byte>)
    requires s.outPtr <= |s.out|
    ensures var t := Store(s, data);
            && t.outPtr <= |t.out| == |s.out|
            && Written(t) == Written(s) + (if |data| <= Room(s) then data else data[..Room(s)])
  {
  }

  lemma Spliced(before: seq<Byte>, at: nat, data: seq<Byte>, after: seq<Byte>)
    requires at + |data| <= |before| == |after|
    requires forall k :: 0 <= k < |before| ==> after[k] == if at <= k < at + |data| then data[k - at] else before[k]
    ensures after == before[..at] + data + before[at + |data|..]
  {
  }

  /** A message completed with its checksum is accepted by the backend's parser. */
  lemma ChecksummedIsAccepted(s: Sock)
    requires s.outPtr <= |s.out| && Room(s) > 0
    ensures var t := Store(s, [WireFormat.Checksum(Written(s))]);
            && t.outPtr <= |t.out|
            && WireFormat.Sum(Written(t)) % 256 == 255
            && WireFormat.ParseHeader(Written(t)).Some?
  {
    StoreAppends(s, [WireFormat.Checksum(Written(s))]);
    WireFormat.ChecksumCompletes(Written(s));
    WireFormat.OddIfComplete(WireFormat.Sum(Written(s) + [WireFormat.Checksum(Written(s))]));
  }

  /** The 32-bit sum of the checksum loop keeps what the checksum needs. */
  lemma WrapKeepsLowByte(sum: nat)
    ensures Wrap32(sum) % 256 == sum % 256
  {
  }

  // ---------------------------------------------------------------- the C structures

  class Socket {
    var socketId: int
    var listIndex: int
    var isTCP: bool
    var server: bool
    var listening: bool
    var connected: bool
    var clientSocketId: int
    var bufferOut: array<Byte>
    var bufferOutPtr: nat
    var bufferInLen: nat
    var bufferInPtr: nat
    var callbackReceived: bool
    ghost var requested: nat  // kept by the network stack

    ghost function View(): Sock
      reads this, bufferOut
    {
      Sock(socketId, listIndex, isTCP, server, listening, connected, clientSocketId,
           bufferOut[..], bufferOutPtr, bufferInLen, bufferInPtr, callbackReceived, requested)
    }

    constructor ()
      ensures listIndex == -1 && socketId == -1 && SafeSock(View())
    {
      socketId, listIndex, clientSocketId := -1, -1, -1;
      isTCP, server, listening, connected, callbackReceived := true, false, false, false, false;
      bufferOut := new Byte[0];
      bufferOutPtr, bufferInLen, bufferInPtr, requested := 0, 0, 0, 0;
    }

    /** The field assignments of socketManager_createSocket. */
    method Configure(index: int, bufferOut: array<Byte>, config: Config)
      requires config.out == bufferOut[..]
      modifies this
      ensures this.bufferOut == bufferOut && View() == Fresh(index, config)
    {
      ConfigureConnection(config);
      listIndex := index;
      this.bufferOut := bufferOut;
      bufferInLen := config.inLen;
      bufferInPtr, bufferOutPtr := 0, 0;
      callbackReceived := config.onReceived;
    }

    /** The part that makes it a closed socket of the given kind. */
    method ConfigureConnection(config: Config)
      modifies this`connected, this`server, this`socketId, this`isTCP, this`listening, this`clientSocketId,
               this`requested
      ensures !connected && !listening && socketId == clientSocketId == -1 && requested == 0
      ensures server == config.server && isTCP == config.isTCP
    {
      connected := false;
      server := config.server;
      socketId := -1;
      isTCP := config.isTCP;
      listening := false;
      clientSocketId := -1;
      requested := 0;
    }

    /**
     socketManager_connect. For UDP clients neither connect nor bind is called, and `result` is
     whatever the variable tested afterwards happens to hold. `closed` are the ids closed.
     */
    method Connect(id: int, result: int) returns (ret: int, closed: seq<int>)
      modifies this`socketId
      ensures View() == ConnectSock(old(View()), id, result)
      ensures ret == 0 <==> socketId >= 0
      ensures closed == if old(socketId) < 0 && id >= 0 && result < 0 then [id] else []
    {
      if socketId < 0 {
        socketId := id;
        if socketId < 0 {
          return -1, [];
        }
        if result < 0 {
          closed := [socketId];
          socketId := -1;
          return -1, closed;
        }
      }
      return 0, [];
    }

    /** socketManager_closeClient */
    method CloseClient() returns (closed: seq<int>)
      modifies this`clientSocketId, this`requested
      ensures View() == CloseClientSock(old(View()))
      ensures closed == ClosedIds(old(View()), ClientOnly)
    {
      closed := if clientSocketId >= 0 then [clientSocketId] else [];
      if server {
        requested := 0;
      }
      clientSocketId := -1;
    }

    /** socketManager_close */
    method Close() returns (closed: seq<int>)
      modifies this
      ensures View() == CloseSock(old(View())) && bufferOut == old(bufferOut)
      ensures closed == ClosedIds(old(View()), Everything)
    {
      closed := CloseClient();
      closed := closed + if socketId >= 0 then [socketId] else [];
      requested := 0;
      listening, connected, socketId := false, false, -1;
    }

    /** socketManager_bufferOutPutByte */
    method BufferOutPutByte(data: Byte) returns (ret: int)
      requires bufferOutPtr <= bufferOut.Length
      modifies this`bufferOutPtr, bufferOut
      ensures View() == Store(old(View()), [data])
      ensures ret == if old(bufferOutPtr) < bufferOut.Length then 0 else -1
    {
      if bufferOutPtr < bufferOut.Length {
        bufferOut[bufferOutPtr] := data;
        bufferOutPtr := bufferOutPtr + 1;
        return 0;
      }
      return -1;
    }

    /** socketManager_bufferOutPutInt16 */
    method BufferOutPutInt16(data: nat) returns (ret: int)
      requires bufferOutPtr <= bufferOut.Length && data < 0x1_0000
      modifies this`bufferOutPtr, bufferOut
      ensures View() == PutInt16Sock(old(View()), data)
      ensures ret == if bufferOut.Length - old(bufferOutPtr) > 1 then 0 else -1
    {
      if bufferOut.Length - bufferOutPtr > 1 {
        bufferOut[bufferOutPtr] := data / 256;
        bufferOutPtr := bufferOutPtr + 1;
        bufferOut[bufferOutPtr] := data % 256;
        bufferOutPtr := bufferOutPtr + 1;
        return 0;
      }
      return -1;
    }

    /** socketManager_bufferOutPutBytes */
    method BufferOutPutBytes(data: seq<Byte>) returns (bytesWritten: nat)
      requires bufferOutPtr <= bufferOut.Length
      modifies this`bufferOutPtr, bufferOut
      ensures View() == Store(old(View()), data)
      ensures bytesWritten == bufferOutPtr - old(bufferOutPtr)
    {
      bytesWritten := 0;
      ghost var before := bufferOut[..];
      var dataOffset := bufferOutPtr;
      var i := 0;
      while i < |data|
        invariant 0 <= i <= |data| && dataOffset + i <= bufferOut.Length
        invariant bytesWritten == i && bufferOutPtr == dataOffset + i
        invariant forall k :: 0 <= k < bufferOut.Length ==>
                    bufferOut[k] == if dataOffset <= k < dataOffset + i then data[k - dataOffset] else before[k]
      {
        if dataOffset + i < bufferOut.Length {
          bufferOut[dataOffset + i] := data[i];
          bufferOutPtr := bufferOutPtr + 1;
          bytesWritten := bytesWritten + 1;
        } else {
          break;
        }
        i := i + 1;
      }
      Spliced(before, dataOffset, data[..i], bufferOut[..]);
    }

    /** socketManager_bufferOutGetChecksum */
    method BufferOutGetChecksum() returns (checksum: Byte)
      requires bufferOutPtr <= bufferOut.Length
      ensures checksum == WireFormat.Checksum(Written(View()))
    {
      var sum: nat := 0;
      ghost var bytes := bufferOut[..bufferOutPtr];
      for i := 0 to bufferOutPtr
        invariant sum == Wrap32(WireFormat.Sum(bytes[..i]))
      {
        assert bytes[..i + 1][..i] == bytes[..i];
        sum := Wrap32(sum + bufferOut[i]);
      }
      assert bytes[..bufferOutPtr] == bytes;
      WrapKeepsLowByte(WireFormat.Sum(bytes));
      return 0xff - sum % 256;
    }

    /** socketManager_flushBufferOut */
    method FlushBufferOut()
      modifies this`bufferOutPtr
      ensures View() == old(View()).(outPtr := 0) && Written(View()) == []
    {
      bufferOutPtr := 0;
    }

    /** socketManager_flushBufferIn */
    method FlushBufferIn()
      modifies this`bufferInPtr
      ensures View() == old(View()).(inPtr := 0)
    {
      bufferInPtr := 0;
    }

    /** socketManager_startReceiving, with the id and the length passed to recv. */
    method StartReceiving() returns (id: int, length: nat)
      modifies this`requested
      ensures View() == StartReceivingSock(old(View()))
      ensures id == ReceivingId(View()) && length == Wrap16(bufferInLen - bufferInPtr)
    {
      length := Wrap16(bufferInLen - bufferInPtr);
      if server {
        id := clientSocketId;
      } else if isTCP {
        id := socketId;
      } else {
        id := -1;
      }
      if id >= 0 && length != 0 {
        requested := length;
      }
    }

    /** The part of socket_cb that follows the lookup. */
    method OnMessage(m: Message) returns (closed: seq<int>)
      modifies this
      ensures View() == Deliver(old(View()), m) && bufferOut == old(bufferOut)
      ensures closed == ClosedIds(old(View()), ClosingFor(old(View()), m))
    {
      closed := [];
      match m
      case Bound(status) =>
        if status == 0 {
          listening := true;
        } else {
          closed := Close();
        }
      case Listening(status) =>
        if status != 0 {
          closed := Close();
        }
      case Accepted(client) =>
        if client >= 0 {
          clientSocketId := client;
          if server {
            requested := 0;
          }
        } else {
          closed := Close();
        }
      case Connected(error) =>
        if error >= 0 {
          connected := true;
        }
      case Sent =>
      case Received(size) =>
        if callbackReceived {
          if size > 0 {
            bufferInPtr := bufferInPtr + size;
          } else if server {
            closed := CloseClient();
          } else {
            closed := Close();
          }
        }
    }
  }

  /** The position of a socket among the structures of the callers. */
  ghost function IndexIn(s: Socket, handles: seq<Socket>): (h: nat)
    requires s in handles
    ensures h < |handles| && handles[h] == s
  {
    var h :| 0 <= h < |handles| && handles[h] == s;
    h
  }

  ghost function Slot(s: Socket?, handles: seq<Socket>): Option<nat>
    requires s == null || s in handles
  {
    if s == null then None else Some(IndexIn(s, handles))
  }

  ghost function Slots(list: seq<Socket?>, handles: seq<Socket>): (slots: seq<Option<nat>>)
    requires forall s <- list :: s == null || s in handles
    ensures |slots| == |list| && forall i :: 0 <= i < |list| ==> slots[i] == Slot(list[i], handles)
  {
    seq(|list|, i requires 0 <= i < |list| => Slot(list[i], handles))
  }

  ghost function Views(handles: seq<Socket>): (views: seq<Sock>)
    reads handles, set s | s in handles :: s.bufferOut
    ensures |views| == |handles| && forall h :: 0 <= h < |handles| ==> views[h] == handles[h].View()
  {
    if handles == [] then [] else [handles[0].View()] + Views(handles[1..])
  }

  class Table {
    const socketList: array<Socket?>
    /** The structures of all callers, registered or not. */
    ghost const handles: seq<Socket>

    ghost predicate Valid()
      reads socketList
    {
      && socketList.Length == MAX_N_SOCKETS && NoDuplicates(handles)
      && forall s <- socketList[..] :: s == null || s in handles
    }

    ghost function View(): System
      requires Valid()
      reads socketList, handles, set s | s in handles :: s.bufferOut
    {
      System(Slots(socketList[..], handles), Views(handles))
    }

    /** socketManager_init */
    constructor (ghost handles: seq<Socket>)
      requires NoDuplicates(handles)
      ensures Valid() && fresh(socketList) && this.handles == handles
      ensures View() == System(seq(MAX_N_SOCKETS, _ => None), Views(handles))
    {
      socketList := new Socket?[MAX_N_SOCKETS](_ => null);
      this.handles := handles;
    }

    /** getFreeSocketIndex */
    method GetFreeSocketIndex() returns (index: int)
      requires Valid()
      ensures index == var i := FreeIndex(View().table); if i < MAX_N_SOCKETS then i else -1
      ensures index >= 0 ==> socketList[index] == null
    {
      for i := 0 to socketList.Length
        invariant forall k :: 0 <= k < i ==> socketList[k] != null
      {
        if socketList[i] == null {
          assert View().table[i] == None;
          return i;
        }
      }
      return -1;
    }

    /** socketManager_createSocket */
    method CreateSocket(sock: Socket, bufferOut: array<Byte>, config: Config) returns (ret: int)
      requires Valid() && sock in handles && config.out == bufferOut[..]
      modifies sock, socketList
      ensures Valid() && View() == CreateIn(old(View()), IndexIn(sock, handles), config)
      ensures ret == if FreeIndex(old(View()).table) < MAX_N_SOCKETS then 0 else -1
      ensures ret == 0 ==> sock.bufferOut == bufferOut
    {
      var index := GetFreeSocketIndex();
      if index >= 0 {
        ConfigureHandle(sock, index, bufferOut, config);
        SetEntry(index, sock);
        return 0;
      }
      return -1;
    }

    method SetEntry(index: int, sock: Socket?)
      requires Valid() && 0 <= index < MAX_N_SOCKETS && (sock == null || sock in handles)
      modifies socketList
      ensures Valid() && View() == old(View()).(table := old(View()).table[index := Slot(sock, handles)])
    {
      SlotsUpdated(socketList[..], index, sock, handles);
      socketList[index] := sock;
      assert socketList[..] == old(socketList[..])[index := sock];
    }

    method ConfigureHandle(sock: Socket, index: int, bufferOut: array<Byte>, config: Config)
      requires Valid() && sock in handles && config.out == bufferOut[..]
      modifies sock
      ensures sock.bufferOut == bufferOut
      ensures Views(handles) == old(Views(handles))[IndexIn(sock, handles) := Fresh(index, config)]
    {
      sock.Configure(index, bufferOut, config);
      ViewsUpdated(handles, old(Views(handles)), IndexIn(sock, handles));
    }

    /** socketManager_deleteSocket */
    method DeleteSocket(sock: Socket)
      requires Valid() && sock in handles && 0 <= sock.listIndex < MAX_N_SOCKETS
      modifies sock`listIndex, socketList
      ensures Valid() && View() == DeleteIn(old(View()), IndexIn(sock, handles))
    {
      SetEntry(sock.listIndex, null);
      UnlistHandle(sock);
    }

    method UnlistHandle(sock: Socket)
      requires Valid() && sock in handles
      modifies sock`listIndex
      ensures var h := IndexIn(sock, handles);
              Views(handles) == old(Views(handles))[h := old(Views(handles)[h]).(listIndex := -1)]
    {
      sock.listIndex := -1;
      ViewsUpdated(handles, old(Views(handles)), IndexIn(sock, handles));
    }

    predicate Has(s: Socket, id: int)
      reads s
    {
      s.socketId == id || s.clientSocketId == id
    }

    /** socketManager_getSocketBySocketId: the first socket in the table with that id. */
    method GetSocketBySocketId(id: int) returns (sock: Socket?)
      requires Valid()
      ensures var i := Find(View(), id, 0);
              sock == if i < MAX_N_SOCKETS then socketList[i] else null
    {
      for i := 0 to socketList.Length
        invariant forall k :: 0 <= k < i && socketList[k] != null ==> !Has(socketList[k], id)
      {
        if socketList[i] != null {
          var candidate := socketList[i];
          if candidate.socketId == id || candidate.clientSocketId == id {
            assert Answers(View(), i, id);
            return candidate;
          }
        }
      }
      return null;
    }

    /** socket_cb */
    method SocketCallback(id: int, m: Message) returns (closed: seq<int>)
      requires Valid()
      modifies socketList[..]
      ensures Valid() && View() == CallbackIn(old(View()), id, m)
      ensures closed == ClosedInCallback(old(View()), id, m)
    {
      var sock := GetSocketBySocketId(id);
      if sock == null {
        return [];
      }
      closed := sock.OnMessage(m);
      ViewsUpdated(handles, old(Views(handles)), IndexIn(sock, handles));
    }
  }

  lemma SlotsUpdated(list: seq<Socket?>, i: nat, s: Socket?, handles: seq<Socket>)
    requires i < |list| && (s == null || s in handles)
    requires forall t <- list :: t == null || t in handles
    ensures forall t <- list[i := s] :: t == null || t in handles
    ensures Slots(list[i := s], handles) == Slots(list, handles)[i := Slot(s, handles)]
  {
  }

  /** Views that differ in one socket only. */
  lemma ViewsUpdated(handles: seq<Socket>, before: seq<Sock>, h: nat)
    requires |before| == |handles| && h < |handles|
    requires forall k :: 0 <= k < |handles| && k != h ==> handles[k].View() == before[k]
    ensures Views(handles) == before[h := handles[h].View()]
  {
  }
}
