/**
 The transmit direction of the UART (ringBuffer.c, uartRB.c): the main loop puts bytes and starts
 the transmission, in several steps each, and the transmit interrupt goes on with it, as one atomic
 step. The increment of the count is a load and a store, and an interrupt may come between them;
 so it may between the start of a transmission and the removal of the byte sent.
 */
module TransmitRing {
  import opened Words
  import opened RingBuffer

  /** A byte with its number among those put, which tells equal bytes apart. */
  datatype Item = Item(byte: Byte, number: nat)

  /** Where the main loop stands: inside ringBuffer_put, or inside uartRB_txHandler and its removal. */
  datatype MainPc =
    | Outside
    | Admitted | Filled | CountLoaded | CountStored
    | Starting | Launched | Removing | CountedDown

  /** The main loop puts a byte, sees to it that a transmission is under way, or goes on; the interrupt fires. */
  datatype TxEvent = Call(data: Byte) | Kick | Proceed | Transmit

  /**
   The ring, the position of the main loop, the item it is putting, the count it has loaded and the
   number of items removed since; inTransmittingIsr, and whether a transmission is in progress;
   then the items put, and those transmitted.
   */
  datatype Tx = Tx(ring: Ring<Item>, pc: MainPc, item: Item, loaded: Byte, clashes: nat,
                   inTransmittingIsr: bool, transmitting: bool, accepted: seq<Item>, sent: seq<Item>)

  predicate TxInBounds(s: Tx) {
    && InBounds(s.ring)
    && (|s.ring.buffer| > 0 ==> s.ring.ptrOut < |s.ring.buffer|)
    && (s.pc !in {Outside, Starting} ==> |s.ring.buffer| > 0)
  }

  /**
   The next step of the main loop. A position is advanced and brought around in one step; nothing
   but its own side looks at it, except when items get lost anyway.
   */
  function Advanced(s: Tx): (s': Tx)
    requires TxInBounds(s)
    ensures TxInBounds(s')
  {
    var r := s.ring;
    match s.pc
    case Outside => s
    case Admitted => s.(ring := r.(buffer := r.buffer[r.ptrIn := s.item]), pc := Filled)
    case Filled => s.(loaded := r.count, clashes := 0, pc := CountLoaded)
    case CountLoaded =>
      s.(ring := r.(count := Wrap8(s.loaded + 1)), accepted := s.accepted + [s.item], pc := CountStored)
    case CountStored =>
      var next := r.ptrIn + 1;
      s.(ring := r.(ptrIn := if next >= |r.buffer| then 0 else next), pc := Outside)
    case Starting =>
      if r.count > 0 && |r.buffer| > 0 then
        s.(sent := s.sent + [r.buffer[r.ptrOut]], transmitting := true, pc := Launched)
      else s.(inTransmittingIsr := false, pc := Outside)
    case Launched => s.(pc := if r.count > 0 then Removing else Outside)
    case Removing => s.(ring := r.(count := Wrap8(r.count - 1)), pc := CountedDown)
    case CountedDown =>
      var next := r.ptrOut + 1;
      s.(ring := r.(ptrOut := if next >= |r.buffer| then 0 else next), pc := Outside)
  }

  /** uartRB_txHandler in the interrupt, which the end of a transmission causes. */
  function Send(s: Tx): (s': Tx)
    requires TxInBounds(s)
    ensures TxInBounds(s')
  {
    var r := s.ring;
    if !s.transmitting then s
    else if r.count == 0 || |r.buffer| == 0 then s.(inTransmittingIsr := false, transmitting := false)
    else s.(ring := RemoveByte(r), sent := s.sent + [r.buffer[r.ptrOut]], clashes := s.clashes + 1)
  }

  /** Calls are made one after the other; a put goes on only if there is space. */
  function TxStep(s: Tx, e: TxEvent): (s': Tx)
    requires TxInBounds(s)
    ensures TxInBounds(s')
  {
    match e
    case Call(data) =>
      if s.pc == Outside && |s.ring.buffer| > 0 && FreeSpace(s.ring) > 0 then
        s.(item := Item(data, |s.accepted|), pc := Admitted)
      else s
    case Kick => if s.pc == Outside && !s.inTransmittingIsr then s.(inTransmittingIsr := true, pc := Starting) else s
    case Proceed => Advanced(s)
    case Transmit => Send(s)
  }

  /** The item at the read position has been handed to the UART and is still in the ring. */
  predicate Handing(pc: MainPc) {
    pc in {Launched, Removing, CountedDown}
  }

  /** The position of the oldest item not yet sent, and the number of those items. */
  function FirstUnsent(s: Tx): nat {
    if Handing(s.pc) then Around(s.ring, s.ring.ptrOut + 1) else s.ring.ptrOut
  }

  function Unsent(s: Tx): int {
    if s.pc in {Launched, Removing} then s.ring.count - 1 else s.ring.count
  }

  /** Items are transmitted in the order they were put, each once, and the count is exact. */
  predicate TxFifo(s: Tx) {
    && s.sent <= s.accepted
    && Unsent(s) >= 0
    && Holds(s.ring.(count := Unsent(s)), FirstUnsent(s), s.accepted[|s.sent|..])
  }

  predicate TxFifoThroughout(s: Tx, events: seq<TxEvent>)
    requires TxInBounds(s)
    decreases events
  {
    && TxFifo(s)
    && (events != [] ==> TxFifoThroughout(TxStep(s, events[0]), events[1..]))
  }

  /** What goes wrong: a removal between load and store of the count, a wrapping count, an item sent twice. */
  predicate CleanStep(s: Tx, e: TxEvent) {
    && (e == Proceed && s.pc == CountLoaded ==> s.clashes == 0 && s.loaded < 255)
    && (e == Transmit && Handing(s.pc) ==> !s.transmitting || s.ring.count == 0)
  }

  predicate CleanRun(s: Tx, events: seq<TxEvent>)
    requires TxInBounds(s)
    decreases events
  {
    events != [] ==>
      && CleanStep(s, events[0])
      && CleanRun(TxStep(s, events[0]), events[1..])
  }

  predicate Numbered(items: seq<Item>) {
    forall i :: 0 <= i < |items| ==> items[i].number == i
  }

  predicate TxInv(s: Tx) {
    var r := s.ring;
    && TxInBounds(s) && TxFifo(s) && Numbered(s.accepted) && r.count <= |r.buffer|
    && (|r.buffer| > 0 ==>
          (if s.pc == CountStored then Around(r, r.ptrIn + 1) else r.ptrIn) == Around(r, FirstUnsent(s) + Unsent(s)))
    && (s.pc in {Admitted, Filled, CountLoaded} ==> r.count < |r.buffer| && s.item.number == |s.accepted|)
    && (s.pc in {Filled, CountLoaded} ==> r.buffer[r.ptrIn] == s.item)
    && (s.pc == CountLoaded ==> s.loaded == r.count + s.clashes)
    && (Handing(s.pc) ==> s.sent != [] && r.buffer[r.ptrOut] == s.sent[|s.sent| - 1])
    && (if s.pc == Starting then s.inTransmittingIsr && !s.transmitting else s.inTransmittingIsr == s.transmitting)
  }

  /** The oldest of the items held, and the others. */
  lemma HoldsOneLess(r: Ring<Item>, from: nat, unread: seq<Item>)
    requires Holds(r, from, unread) && unread != []
    ensures r.buffer[from] == unread[0]
    ensures Holds(r.(count := r.count - 1), Around(r, from + 1), unread[1..])
  {
    WindowShrinks(r.buffer, from, r.count);
  }

  /** The entry after the items held makes one more. */
  lemma HoldsOneMore(r: Ring<Item>, from: nat, unread: seq<Item>)
    requires Holds(r, from, unread) && r.count < |r.buffer| && r.count < 255
    ensures var at := Around(r, from + r.count);
            at < |r.buffer| && Holds(r.(count := r.count + 1), from, unread + [r.buffer[at]])
  {
    var at := Around(r, from + r.count);
    WindowGrows(r.buffer, from, r.count, r.buffer[at]);
    assert r.buffer[at := r.buffer[at]] == r.buffer;
  }

  lemma HoldsBesides(r: Ring<Item>, from: nat, unread: seq<Item>, item: Item)
    requires Holds(r, from, unread) && r.count < |r.buffer|
    ensures var at := Around(r, from + r.count);
            at < |r.buffer| && Holds(r.(buffer := r.buffer[at := item]), from, unread)
  {
    var at := Around(r, from + r.count);
    assert Window(r.buffer[at := item], from, r.count) == Window(r.buffer, from, r.count);
  }

  /** The interrupt sends and removes the oldest waiting item, and nothing else changes. */
  lemma SendTakesOldest(s: Tx)
    requires TxInv(s) && s.transmitting && s.ring.count > 0 && !Handing(s.pc)
    ensures TxInv(Send(s))
    ensures |s.sent| < |s.accepted| && Send(s).sent == s.sent + [s.accepted[|s.sent|]]
    ensures Unsent(Send(s)) == Unsent(s) - 1 && Send(s).accepted == s.accepted
  {
    SendIsFifo(s);
  }

  lemma SendIsFifo(s: Tx)
    requires TxInBounds(s) && TxFifo(s) && s.transmitting && s.ring.count > 0 && !Handing(s.pc)
    requires s.ring.count <= |s.ring.buffer|
    ensures TxFifo(Send(s))
    ensures |s.sent| < |s.accepted| && Send(s).sent == s.sent + [s.accepted[|s.sent|]]
  {
    HoldsOneLess(s.ring, s.ring.ptrOut, s.accepted[|s.sent|..]);
    RestShrinks(s.accepted, s.sent);
  }

  /** Starting a transmission sends the oldest waiting item, which stays in the ring for the moment. */
  lemma LaunchKeepsInv(s: Tx)
    requires TxInv(s) && s.pc == Starting
    ensures TxInv(Advanced(s))
    ensures s.ring.count > 0 ==> |s.sent| < |s.accepted| && Advanced(s).sent == s.sent + [s.accepted[|s.sent|]]
  {
    var r, t := s.ring, Advanced(s);
    if r.count > 0 {
      HoldsOneLess(r, r.ptrOut, s.accepted[|s.sent|..]);
      RestShrinks(s.accepted, s.sent);
      assert Unsent(t) == r.count - 1 && FirstUnsent(t) == Around(r, r.ptrOut + 1);
    } else {
      assert t == s.(inTransmittingIsr := false, pc := Outside);
    }
  }

  /** Filling the free entry at the write position leaves the waiting items as they are. */
  lemma FillKeepsInv(s: Tx)
    requires TxInv(s) && s.pc == Admitted
    ensures TxInv(Advanced(s))
  {
    HoldsBesides(s.ring, s.ring.ptrOut, s.accepted[|s.sent|..], s.item);
  }

  lemma StoreKeepsInv(s: Tx)
    requires TxInv(s) && s.pc == CountLoaded && CleanStep(s, Proceed)
    ensures TxInv(Advanced(s))
  {
    var t := StoredFields(s);
    HoldsOneMore(s.ring, s.ring.ptrOut, s.accepted[|s.sent|..]);
    RestGrows(s.accepted, s.sent, s.item);
    AroundNext(s.ring, s.ring.ptrOut + s.ring.count);
    NumberedMore(s.accepted, s.item);
    assert TxFifo(t);
  }

  lemma StoredFields(s: Tx) returns (t: Tx)
    requires TxInv(s) && s.pc == CountLoaded && CleanStep(s, Proceed)
    ensures s.ring.count < 255 && t == Advanced(s)
    ensures t == s.(ring := s.ring.(count := s.ring.count + 1), accepted := s.accepted + [s.item], pc := CountStored)
  {
    t := Advanced(s);
    assert Wrap8(s.loaded + 1) == s.ring.count + 1;
  }

  lemma AroundNext(r: Ring<Item>, i: nat)
    requires i + 1 < 2 * |r.buffer|
    ensures Around(r, Around(r, i) + 1) == Around(r, i + 1)
  {
  }

  lemma NumberedMore(items: seq<Item>, item: Item)
    requires Numbered(items) && item.number == |items|
    ensures Numbered(items + [item])
  {
  }

  /** The count goes down for an item that is no longer among the unsent ones. */
  lemma CountDownKeepsTx(s: Tx)
    requires TxInv(s) && s.pc == Removing
    ensures TxInv(Advanced(s))
  {
    var r, t := s.ring, Advanced(s);
    SpaceIsDifference(r);
    assert t == s.(ring := r.(count := r.count - 1), pc := CountedDown);
    assert Unsent(t) == Unsent(s) && FirstUnsent(t) == FirstUnsent(s);
  }

  lemma ReadOnKeepsTx(s: Tx)
    requires TxInv(s) && s.pc == CountedDown
    ensures TxInv(Advanced(s))
  {
    var r, t := s.ring, Advanced(s);
    assert t == s.(ring := r.(ptrOut := Around(r, r.ptrOut + 1)), pc := Outside);
    assert Unsent(t) == Unsent(s) && FirstUnsent(t) == FirstUnsent(s);
  }

  lemma WriteOnKeepsTx(s: Tx)
    requires TxInv(s) && s.pc == CountStored
    ensures TxInv(Advanced(s))
  {
    var r, t := s.ring, Advanced(s);
    assert t == s.(ring := r.(ptrIn := Around(r, r.ptrIn + 1)), pc := Outside);
    assert Unsent(t) == Unsent(s) && FirstUnsent(t) == FirstUnsent(s);
  }

  lemma LoadKeepsTx(s: Tx)
    requires TxInv(s) && s.pc == Filled
    ensures TxInv(Advanced(s))
  {
    var t := Advanced(s);
    assert t == s.(loaded := s.ring.count, clashes := 0, pc := CountLoaded);
    assert Unsent(t) == Unsent(s) && FirstUnsent(t) == FirstUnsent(s);
  }

  lemma CheckKeepsTx(s: Tx)
    requires TxInv(s) && s.pc == Launched
    ensures TxInv(Advanced(s))
  {
    var t := Advanced(s);
    assert t == s.(pc := Removing);
    assert Unsent(t) == Unsent(s) && FirstUnsent(t) == FirstUnsent(s);
  }

  lemma ProceedKeepsInv(s: Tx)
    requires TxInv(s) && CleanStep(s, Proceed)
    ensures TxInv(Advanced(s))
  {
    match s.pc
    case Admitted => FillKeepsInv(s);
    case CountLoaded => StoreKeepsInv(s);
    case Starting => LaunchKeepsInv(s);
    case Removing => CountDownKeepsTx(s);
    case CountedDown => ReadOnKeepsTx(s);
    case CountStored => WriteOnKeepsTx(s);
    case Filled => LoadKeepsTx(s);
    case Launched => CheckKeepsTx(s);
    case Outside =>
  }

  lemma CallKeepsInv(s: Tx, e: TxEvent)
    requires TxInv(s) && (e.Call? || e.Kick?)
    ensures TxInv(TxStep(s, e))
  {
    SpaceIsDifference(s.ring);
    var t := TxStep(s, e);
    assert t.ring == s.ring && Unsent(t) == Unsent(s) && FirstUnsent(t) == FirstUnsent(s);
  }

  lemma TransmitKeepsInv(s: Tx)
    requires TxInv(s) && CleanStep(s, Transmit)
    ensures TxInv(Send(s))
  {
    if s.transmitting && s.ring.count > 0 {
      SendTakesOldest(s);
    } else {
      var t := Send(s);
      assert t.ring == s.ring && t.pc == s.pc && t.sent == s.sent;
    }
  }

  lemma CleanStepKeepsInv(s: Tx, e: TxEvent)
    requires TxInv(s) && CleanStep(s, e)
    ensures TxInv(TxStep(s, e))
  {
    match e
    case Transmit => TransmitKeepsInv(s);
    case Proceed => ProceedKeepsInv(s);
    case _ => CallKeepsInv(s, e);
  }

  /** A removal between load and store is forgotten, and so are 256 waiting items. */
  lemma UncleanStoreMiscounts(s: Tx)
    requires TxInv(s) && s.pc == CountLoaded && !CleanStep(s, Proceed)
    ensures !TxFifo(Advanced(s))
  {
    var t := Advanced(s);
    assert |t.accepted| - |t.sent| == s.ring.count + 1;
    assert t.ring.count == if s.loaded == 255 then 0 else s.ring.count + s.clashes + 1;
  }

  /** An interrupt that finds the item just sent still in the ring sends it again. */
  lemma SentTwice(s: Tx)
    requires TxInv(s) && Handing(s.pc) && s.transmitting && s.ring.count > 0
    ensures var t := Send(s);
            && |t.sent| >= 2 && t.sent[|t.sent| - 1] == t.sent[|t.sent| - 2]
            && !TxFifo(t)
  {
    var t, n := Send(s), |s.sent|;
    assert s.accepted[n - 1] == s.sent[n - 1] == t.sent[n];
    assert n < |s.accepted| ==> s.accepted[n].number != t.sent[n].number;
  }

  /**
   An interrupt between the start of a transmission and its removal sends the last item again and
   removes it; the main loop then finds the ring empty and removes nothing.
   */
  lemma SecondRemovalSkipped(s: Tx)
    requires TxInv(s) && s.pc == Launched && s.transmitting && s.ring.count == 1
    ensures var t := TxStep(TxStep(s, Transmit), Proceed);
            && |t.sent| >= 2 && t.sent[|t.sent| - 1] == t.sent[|t.sent| - 2]
            && t.ring.count == 0 && t.pc == Outside && t.ring.ptrOut == TxStep(s, Transmit).ring.ptrOut
  {
    SentTwice(s);
  }

  lemma UncleanStepBreaks(s: Tx, e: TxEvent)
    requires TxInv(s) && !CleanStep(s, e)
    ensures !TxFifo(TxStep(s, e))
  {
    if e == Transmit {
      SentTwice(s);
    } else {
      UncleanStoreMiscounts(s);
    }
  }

  /**
   The exact condition for the transmit direction, over every run and for a buffer of any length: no
   interrupt removes an item between the load and the store of the count, no store wraps it, and no
   interrupt finds an item between the start of a transmission and the end of the removal after it.
   */
  lemma {:induction false} TransmitFifoIff(s: Tx, events: seq<TxEvent>)
    requires TxInv(s)
    ensures TxFifoThroughout(s, events) <==> CleanRun(s, events)
    decreases events
  {
    if events != [] {
      if CleanStep(s, events[0]) {
        CleanStepKeepsInv(s, events[0]);
        TransmitFifoIff(TxStep(s, events[0]), events[1..]);
      } else {
        UncleanStepBreaks(s, events[0]);
      }
    }
  }

  // ---------------------------------------------------------------- runs that go wrong

  /** ringBuffer_init, and nothing in transmission. */
  function TxStart(buffer: seq<Item>): (s: Tx)
    requires |buffer| < 0x1_0000_0000
    ensures TxInv(s)
  {
    Tx(Ring(buffer, 0, 0, 0), Outside, Item(0, 0), 0, 0, false, false, [], [])
  }

  lemma RestIsClean(s: Tx, e: TxEvent, rest: seq<TxEvent>)
    requires TxInBounds(s) && CleanRun(s, [e] + rest)
    ensures CleanStep(s, e) && CleanRun(TxStep(s, e), rest)
  {
    assert ([e] + rest)[1..] == rest;
  }

  /** A number of steps of the main loop that no interrupt comes between. */
  function Proceeding(n: nat, rest: seq<TxEvent>): seq<TxEvent> {
    if n == 0 then rest else [Proceed] + Proceeding(n - 1, rest)
  }

  function PutAlone(data: Byte, rest: seq<TxEvent>): seq<TxEvent> {
    [Call(data)] + Proceeding(2, Proceeding(2, rest))
  }

  function StartAlone(rest: seq<TxEvent>): seq<TxEvent> {
    [Kick] + Proceeding(2, Proceeding(2, rest))
  }

  lemma AfterProceeding(s: Tx, n: nat, rest: seq<TxEvent>) returns (t: Tx)
    requires TxInBounds(s) && n > 0 && CleanRun(s, Proceeding(n, rest))
    ensures t == Advanced(s) && CleanRun(t, Proceeding(n - 1, rest))
  {
    RestIsClean(s, Proceed, Proceeding(n - 1, rest));
    t := Advanced(s);
  }

  /** The first half of a put. */
  lemma AfterLoading(s: Tx, data: Byte, rest: seq<TxEvent>) returns (t: Tx)
    requires TxInBounds(s) && s.pc == Outside && s.ring.count < |s.ring.buffer|
    requires CleanRun(s, [Call(data)] + Proceeding(2, rest))
    ensures TxInBounds(t) && t.pc == CountLoaded && t.loaded == t.ring.count == s.ring.count && t.clashes == 0
    ensures |t.ring.buffer| == |s.ring.buffer| && CleanRun(t, rest)
    ensures t.inTransmittingIsr == s.inTransmittingIsr && t.transmitting == s.transmitting
  {
    SpaceIsDifference(s.ring);
    RestIsClean(s, Call(data), Proceeding(2, rest));
    t := AfterProceeding(TxStep(s, Call(data)), 2, rest);
    t := AfterProceeding(t, 1, rest);
  }

  lemma AfterPutAlone(s: Tx, data: Byte, rest: seq<TxEvent>) returns (t: Tx)
    requires TxInBounds(s) && s.pc == Outside && s.ring.count < 254 && s.ring.count < |s.ring.buffer|
    requires CleanRun(s, PutAlone(data, rest))
    ensures TxInBounds(t) && t.pc == Outside && t.ring.count == s.ring.count + 1
    ensures |t.ring.buffer| == |s.ring.buffer| && CleanRun(t, rest)
    ensures t.inTransmittingIsr == s.inTransmittingIsr && t.transmitting == s.transmitting
  {
    t := AfterLoading(s, data, Proceeding(2, rest));
    t := AfterProceeding(t, 2, rest);
    t := AfterProceeding(t, 1, rest);
  }

  /** The first half of a start. */
  lemma AfterLaunching(s: Tx, rest: seq<TxEvent>) returns (t: Tx)
    requires TxInBounds(s) && s.pc == Outside && !s.inTransmittingIsr && s.ring.count > 0 && |s.ring.buffer| > 0
    requires CleanRun(s, [Kick] + Proceeding(2, rest))
    ensures TxInBounds(t) && t.pc == Removing && t.ring == s.ring && t.transmitting && CleanRun(t, rest)
  {
    RestIsClean(s, Kick, Proceeding(2, rest));
    t := AfterProceeding(TxStep(s, Kick), 2, rest);
    t := AfterProceeding(t, 1, rest);
  }

  lemma AfterStartAlone(s: Tx, rest: seq<TxEvent>) returns (t: Tx)
    requires TxInBounds(s) && s.pc == Outside && !s.inTransmittingIsr && s.ring.count > 0 && |s.ring.buffer| > 0
    requires CleanRun(s, StartAlone(rest))
    ensures TxInBounds(t) && t.pc == Outside && t.ring.count == s.ring.count - 1 && t.transmitting
    ensures |t.ring.buffer| == |s.ring.buffer| && CleanRun(t, rest)
  {
    t := AfterLaunching(s, Proceeding(2, rest));
    t := AfterProceeding(t, 2, rest);
    t := AfterProceeding(t, 1, rest);
  }

  /** A put, with an interrupt between the load and the store of the count. */
  function PutClashing(data: Byte): seq<TxEvent> {
    [Call(data)] + Proceeding(2, [Transmit] + ([Proceed] + []))
  }

  lemma ClashIsUnclean(s: Tx, data: Byte)
    requires TxInBounds(s) && s.pc == Outside && s.transmitting && s.ring.count == 1 < |s.ring.buffer|
    ensures !CleanRun(s, PutClashing(data))
  {
    if CleanRun(s, PutClashing(data)) {
      var t := AfterLoading(s, data, [Transmit] + ([Proceed] + []));
      RestIsClean(t, Transmit, [Proceed] + []);
      RestIsClean(Send(t), Proceed, []);
      assert false;
    }
  }

  /** Two bytes are put and the first is sent; the interrupt sends the second in the middle of the next put. */
  function LosingRun(): seq<TxEvent> {
    PutAlone(1, PutAlone(2, StartAlone(PutClashing(3))))
  }

  lemma LosingRunIsUnclean(s: Tx)
    requires TxInBounds(s) && s.pc == Outside && !s.inTransmittingIsr && s.ring.count == 0 && |s.ring.buffer| >= 2
    ensures !CleanRun(s, LosingRun())
  {
    if CleanRun(s, LosingRun()) {
      var t := AfterPutAlone(s, 1, PutAlone(2, StartAlone(PutClashing(3))));
      t := AfterPutAlone(t, 2, StartAlone(PutClashing(3)));
      t := AfterStartAlone(t, PutClashing(3));
      ClashIsUnclean(t, 3);
      assert false;
    }
  }

  lemma RemovalCanBeLost(buffer: seq<Item>)
    requires 2 <= |buffer| < 0x1_0000_0000
    ensures !TxFifoThroughout(TxStart(buffer), LosingRun())
  {
    LosingRunIsUnclean(TxStart(buffer));
    TransmitFifoIff(TxStart(buffer), LosingRun());
  }

  /** A start, with an interrupt before the main loop has removed what it has just sent. */
  function StartClashing(): seq<TxEvent> {
    [Kick] + ([Proceed] + ([Transmit] + []))
  }

  lemma StartClashIsUnclean(s: Tx)
    requires TxInBounds(s) && s.pc == Outside && !s.inTransmittingIsr && s.ring.count > 0 && |s.ring.buffer| > 0
    ensures !CleanRun(s, StartClashing())
  {
    if CleanRun(s, StartClashing()) {
      RestIsClean(s, Kick, [Proceed] + ([Transmit] + []));
      RestIsClean(TxStep(s, Kick), Proceed, [Transmit] + []);
      RestIsClean(Advanced(TxStep(s, Kick)), Transmit, []);
      assert false;
    }
  }

  /** One byte is put and sent twice. */
  lemma ByteCanBeSentTwice(buffer: seq<Item>)
    requires 1 <= |buffer| < 0x1_0000_0000
    ensures !TxFifoThroughout(TxStart(buffer), PutAlone(1, StartClashing()))
  {
    TransmitFifoIff(TxStart(buffer), PutAlone(1, StartClashing()));
    if CleanRun(TxStart(buffer), PutAlone(1, StartClashing())) {
      var s := AfterPutAlone(TxStart(buffer), 1, StartClashing());
      StartClashIsUnclean(s);
      assert false;
    }
  }
}
