/**
 The circular byte FIFO shared by the UART interrupts and the main loop (ringBuffer.c), in the
 receive direction. The receive interrupt puts, as one atomic step; the main loop removes in
 several steps, between any two of which interrupts may fire. The transmit interrupt removes
 from a ring of its own with the same function, whose static variable it thereby overwrites.
 */
module RingBuffer {
  import opened Words

  /** ringBuffer_t: len is |buffer|, and count is a single byte (inc/ringBuffer.h:12). The entries are bytes. */
  datatype Ring<T> = Ring(buffer: seq<T>, ptrIn: nat, ptrOut: nat, count: Byte)

  predicate InBounds<T>(r: Ring<T>) {
    && |r.buffer| < 0x1_0000_0000
    && if |r.buffer| == 0 then r.ptrIn == r.ptrOut == r.count == 0
       else r.ptrIn < |r.buffer| && r.ptrOut <= |r.buffer|
  }

  /** A buffer index that has run past the end, brought back to the start. */
  function Around<T>(r: Ring<T>, i: nat): nat {
    if i >= |r.buffer| then i - |r.buffer| else i
  }

  /** The n entries found from position `from` on, around the end of the buffer. */
  function Window<T>(buffer: seq<T>, from: nat, n: nat): (w: seq<T>)
    requires from < |buffer| && n <= |buffer|
    ensures |w| == n
  {
    if from + n <= |buffer| then buffer[from..from + n]
    else buffer[from..] + buffer[..from + n - |buffer|]
  }

  lemma WindowGrows<T>(buffer: seq<T>, from: nat, n: nat, data: T)
    requires from < |buffer| && n < |buffer|
    ensures var at := if from + n >= |buffer| then from + n - |buffer| else from + n;
            Window(buffer[at := data], from, n + 1) == Window(buffer, from, n) + [data]
  {
  }

  lemma WindowShrinks<T>(buffer: seq<T>, from: nat, n: nat)
    requires from < |buffer| && 0 < n <= |buffer|
    ensures var next := if from + 1 >= |buffer| then from + 1 - |buffer| else from + 1;
            && Window(buffer, from, n)[0] == buffer[from]
            && Window(buffer, next, n - 1) == Window(buffer, from, n)[1..]
  {
  }

  lemma RestShrinks<T>(all: seq<T>, gone: seq<T>)
    requires gone <= all && |gone| < |all|
    ensures gone + [all[|gone|]] <= all
    ensures all[|gone|..][1..] == all[|gone| + 1..]
  {
  }

  lemma RestGrows<T>(all: seq<T>, gone: seq<T>, data: T)
    requires gone <= all
    ensures gone <= all + [data]
    ensures (all + [data])[|gone|..] == all[|gone|..] + [data]
  {
  }

  /** ringBuffer_getFreeSpace, in 32 bits. */
  function FreeSpace<T>(r: Ring<T>): nat {
    Wrap32(|r.buffer| - r.count)
  }

  /** ringBuffer_put */
  function PutByte<T>(r: Ring<T>, data: T): (r': Ring<T>)
    requires InBounds(r)
    ensures InBounds(r') && |r'.buffer| == |r.buffer|
  {
    if FreeSpace(r) > 0 then
      var next := r.ptrIn + 1;
      r.(buffer := r.buffer[r.ptrIn := data],
         count := Wrap8(r.count + 1),
         ptrIn := if next >= |r.buffer| then 0 else next)
    else r
  }

  // ---------------------------------------------------------------- interleavings

  /** Where the main loop stands inside ringBuffer_remove. */
  datatype Pc = Idle | Checked | Loaded | Counted | Advanced | Wrapped

  /** A receive interrupt, a transmit interrupt that removes a byte from the other ring, or a step of the main loop. */
  datatype Event = Put(data: Byte) | OtherRemoval(sent: Byte) | MainStep

  /**
   The buffer, the position of the main loop, the static variable `data` that every removal of
   every ring shares, the byte the main loop took from this ring last, and three histories: the
   bytes put while there was space, the bytes taken off the count, and the bytes returned.
   */
  datatype Sys = Sys(ring: Ring<Byte>, pc: Pc, data: Byte, taken: Byte,
                     accepted: seq<Byte>, removed: seq<Byte>, returned: seq<Byte>)

  predicate SysInBounds(s: Sys) {
    && InBounds(s.ring)
    && (s.pc != Idle ==> |s.ring.buffer| > 0)
    && (s.pc != Advanced && |s.ring.buffer| > 0 ==> s.ring.ptrOut < |s.ring.buffer|)
  }

  /** The next step of ringBuffer_remove; a call that finds nothing pending returns at once. */
  function Advance(s: Sys): (s': Sys)
    requires SysInBounds(s)
    ensures SysInBounds(s')
  {
    var r := s.ring;
    match s.pc
    case Idle => if r.count > 0 then s.(pc := Checked) else s
    case Checked => s.(data := r.buffer[r.ptrOut], taken := r.buffer[r.ptrOut], pc := Loaded)
    case Loaded => s.(ring := r.(count := Wrap8(r.count - 1)), removed := s.removed + [s.taken], pc := Counted)
    case Counted => s.(ring := r.(ptrOut := r.ptrOut + 1), pc := Advanced)
    case Advanced => s.(ring := r.(ptrOut := if r.ptrOut >= |r.buffer| then 0 else r.ptrOut), pc := Wrapped)
    case Wrapped => s.(returned := s.returned + [s.data], pc := Idle)
  }

  function Step(s: Sys, e: Event): (s': Sys)
    requires SysInBounds(s)
    ensures SysInBounds(s') && |s'.ring.buffer| == |s.ring.buffer|
  {
    match e
    case MainStep => Advance(s)
    case OtherRemoval(sent) => s.(data := sent)
    case Put(data) =>
      s.(ring := PutByte(s.ring, data),
         accepted := if FreeSpace(s.ring) > 0 then s.accepted + [data] else s.accepted)
  }

  function Run(s: Sys, events: seq<Event>): (s': Sys)
    requires SysInBounds(s)
    ensures SysInBounds(s') && |s'.ring.buffer| == |s.ring.buffer|
    decreases events
  {
    if events == [] then s else Run(Step(s, events[0]), events[1..])
  }

  /** ringBuffer_init on a buffer with arbitrary content. */
  function Start(buffer: seq<Byte>, data: Byte): Sys {
    Sys(Ring(buffer, 0, 0, 0), Idle, data, data, [], [], [])
  }

  /** From position `from` on, the ring holds these unread bytes and no others. */
  predicate Holds<T(==)>(r: Ring<T>, from: nat, unread: seq<T>) {
    && r.count == |unread| <= |r.buffer|
    && (|r.buffer| > 0 ==> from < |r.buffer| && Window(r.buffer, from, r.count) == unread)
  }

  /** The number of bytes accepted and not yet removed. */
  function Unread(s: Sys): int {
    |s.accepted| - |s.removed|
  }

  /** The position of the oldest unread byte, given how far ringBuffer_remove has got. */
  function ReadPosition(s: Sys): nat {
    match s.pc
    case Counted => Around(s.ring, s.ring.ptrOut + 1)
    case Advanced => Around(s.ring, s.ring.ptrOut)
    case _ => s.ring.ptrOut
  }

  /**
   Bytes are removed in the order they were accepted, the count is the number of unread bytes,
   and no unread byte has been overwritten.
   */
  predicate Fifo(s: Sys) {
    && s.removed <= s.accepted
    && Holds(s.ring, ReadPosition(s), s.accepted[|s.removed|..])
  }

  /** A call of ringBuffer_remove has taken its byte and not yet returned. */
  predicate Holding(pc: Pc) {
    pc in {Loaded, Counted, Advanced, Wrapped}
  }

  /** One byte is returned for each that is removed, and a byte held is the last one removed. */
  predicate InStep(s: Sys) {
    match s.pc
    case Idle => |s.returned| == |s.removed|
    case Checked => |s.returned| == |s.removed|
    case Loaded => |s.returned| == |s.removed|
    case _ => |s.returned| + 1 == |s.removed| && s.taken == s.removed[|s.returned|]
  }

  predicate Inv(s: Sys) {
    var r := s.ring;
    && SysInBounds(s) && Fifo(s)
    && (|r.buffer| > 0 ==> r.ptrIn == Around(r, ReadPosition(s) + r.count))
    && InStep(s)
    && (s.pc == Checked || s.pc == Loaded ==> r.count > 0)
    && (s.pc == Loaded ==> s.taken == s.accepted[|s.removed|])
  }

  lemma StepKeepsInv(s: Sys, e: Event)
    requires Inv(s) && Unread(Step(s, e)) <= 255
    ensures Inv(Step(s, e))
  {
    match e
    case Put(data) => PutKeepsInv(s, data);
    case MainStep => AdvanceKeepsInv(s);
    case OtherRemoval(sent) =>
  }

  lemma SpaceIsDifference<T>(r: Ring<T>)
    requires InBounds(r) && r.count <= |r.buffer|
    ensures FreeSpace(r) == |r.buffer| - r.count
    ensures r.count > 0 ==> Wrap8(r.count - 1) == r.count - 1
  {
  }

  /** A put advances count and write position by one if there is space, and does nothing otherwise. */
  lemma PutByteFields(r: Ring<Byte>, data: Byte)
    requires InBounds(r) && r.count <= |r.buffer|
    requires r.count < 255 || |r.buffer| == 255
    ensures if r.count < |r.buffer|
            then PutByte(r, data) == Ring(r.buffer[r.ptrIn := data], Around(r, r.ptrIn + 1), r.ptrOut, r.count + 1)
            else PutByte(r, data) == r
  {
  }

  /** A put appends to the unread bytes if there is space. */
  lemma PutKeepsHolding(r: Ring<Byte>, data: Byte, from: nat, unread: seq<Byte>)
    requires InBounds(r) && Holds(r, from, unread)
    requires |r.buffer| > 0 ==> r.ptrIn == Around(r, from + r.count)
    requires r.count < 255 || |r.buffer| == 255
    ensures var t := PutByte(r, data);
            && t.ptrOut == r.ptrOut
            && (|r.buffer| > 0 ==> t.ptrIn == Around(r, from + t.count))
            && Holds(t, from, if r.count < |r.buffer| then unread + [data] else unread)
  {
    PutByteFields(r, data);
    if r.count < |r.buffer| {
      WindowGrows(r.buffer, from, r.count, data);
    }
  }

  lemma PutKeepsInv(s: Sys, data: Byte)
    requires Inv(s) && Unread(Step(s, Put(data))) <= 255
    ensures Inv(Step(s, Put(data)))
  {
    var r := s.ring;
    SpaceIsDifference(r);
    if r.count < |r.buffer| {
      RestGrows(s.accepted, s.removed, data);
      PutKeepsHolding(r, data, ReadPosition(s), s.accepted[|s.removed|..]);
      assert ReadPosition(Step(s, Put(data))) == ReadPosition(s);
    } else {
      assert Step(s, Put(data)) == s;
    }
  }

  lemma AdvanceKeepsInv(s: Sys)
    requires Inv(s)
    ensures Inv(Advance(s))
  {
    match s.pc
    case Checked => LoadKeepsInv(s);
    case Loaded => CountDownKeepsInv(s);
    case Counted => BumpKeepsInv(s);
    case _ =>
  }

  lemma LoadKeepsInv(s: Sys)
    requires Inv(s) && s.pc == Checked
    ensures Inv(Advance(s))
  {
  }

  /** The decrement is where the byte leaves the FIFO: its entry may be reused from here on. */
  lemma CountDownKeepsInv(s: Sys)
    requires Inv(s) && s.pc == Loaded
    ensures Inv(Advance(s))
  {
    WindowShrinks(s.ring.buffer, s.ring.ptrOut, s.ring.count);
    RestShrinks(s.accepted, s.removed);
  }

  lemma BumpKeepsInv(s: Sys)
    requires Inv(s) && s.pc == Counted
    ensures Inv(Advance(s))
  {
  }

  /** The run is a FIFO at every prefix. */
  predicate FifoThroughout(s: Sys, events: seq<Event>)
    requires SysInBounds(s)
    decreases events
  {
    && Fifo(s)
    && (events != [] ==> FifoThroughout(Step(s, events[0]), events[1..]))
  }

  /** No prefix of the run leaves more unread bytes than one byte can count. */
  predicate Countable(s: Sys, events: seq<Event>)
    requires SysInBounds(s)
    decreases events
  {
    && Unread(s) <= 255
    && (events != [] ==> Countable(Step(s, events[0]), events[1..]))
  }

  /** For a buffer of any length, a run is a FIFO exactly as long as its unread bytes can be counted. */
  lemma {:induction false} FifoIffCountable(s: Sys, events: seq<Event>)
    requires Inv(s)
    ensures FifoThroughout(s, events) <==> Countable(s, events)
    decreases events
  {
    if events != [] {
      var t := Step(s, events[0]);
      if Unread(t) <= 255 {
        StepKeepsInv(s, events[0]);
        FifoIffCountable(t, events[1..]);
      } else {
        assert !Fifo(t) && !Countable(t, events[1..]);
      }
    }
  }

  lemma {:induction false} CountableRunKeepsInv(s: Sys, events: seq<Event>)
    requires Inv(s) && Countable(s, events)
    ensures Inv(Run(s, events))
    decreases events
  {
    if events != [] {
      StepKeepsInv(s, events[0]);
      CountableRunKeepsInv(Step(s, events[0]), events[1..]);
    }
  }

  lemma StepFitsShortBuffer(s: Sys, e: Event)
    requires Inv(s) && |s.ring.buffer| <= 255
    ensures Unread(Step(s, e)) <= 255
  {
    SpaceIsDifference(s.ring);
  }

  lemma {:induction false} ShortBuffersAreCountable(s: Sys, events: seq<Event>)
    requires Inv(s) && |s.ring.buffer| <= 255
    ensures Countable(s, events)
    decreases events
  {
    if events != [] {
      StepFitsShortBuffer(s, events[0]);
      StepKeepsInv(s, events[0]);
      ShortBuffersAreCountable(Step(s, events[0]), events[1..]);
    }
  }

  /** Every interleaving of both interrupts with the steps of removal is a FIFO at every prefix. */
  ghost predicate InterruptSafe(len: nat)
    requires len < 0x1_0000_0000
  {
    forall buffer: seq<Byte>, data: Byte, events: seq<Event> :: |buffer| == len ==>
      FifoThroughout(Start(buffer, data), events)
  }

  /** The lengths for which no run can go wrong are those that the one-byte count can hold. */
  lemma InterruptSafeIff(len: nat)
    requires len < 0x1_0000_0000
    ensures InterruptSafe(len) <==> len <= 255
  {
    if len <= 255 {
      forall buffer: seq<Byte>, data: Byte, events: seq<Event> | |buffer| == len
        ensures FifoThroughout(Start(buffer, data), events)
      {
        ShortBuffersAreCountable(Start(buffer, data), events);
        FifoIffCountable(Start(buffer, data), events);
      }
    } else {
      LongBufferUnsafe(seq(len, _ => 0), 256);
    }
  }

  /** 256 or more puts into a longer buffer. */
  lemma LongBufferUnsafe(buffer: seq<Byte>, n: nat)
    requires 256 <= |buffer| < 0x1_0000_0000 && n >= 256
    ensures !FifoThroughout(Start(buffer, 0), Puts(n))
  {
    var s := Start(buffer, 0);
    PutsWrapCount(s, n);
    if Countable(s, Puts(n)) {
      CountableAtEnd(s, Puts(n));
      assert false;
    }
    FifoIffCountable(s, Puts(n));
  }

  lemma {:induction false} CountableAtEnd(s: Sys, events: seq<Event>)
    requires SysInBounds(s) && Countable(s, events)
    ensures Unread(Run(s, events)) <= 255
    decreases events
  {
    if events != [] {
      CountableAtEnd(Step(s, events[0]), events[1..]);
    }
  }

  function Puts(n: nat): seq<Event> {
    seq(n, _ => Put(0))
  }

  /** In a buffer of 256 bytes or more, puts are always accepted and the count forgets multiples of 256. */
  lemma {:induction false} PutsWrapCount(s: Sys, n: nat)
    requires SysInBounds(s) && |s.ring.buffer| >= 256
    ensures var t := Run(s, Puts(n));
            && t.ring.count == Wrap8(s.ring.count + n)
            && |t.accepted| == |s.accepted| + n
            && t.removed == s.removed
    decreases n
  {
    if n > 0 {
      var t := Step(s, Put(0));
      PutWrapsCount(s);
      PutsWrapCount(t, n - 1);
      assert Puts(n)[0] == Put(0) && Puts(n)[1..] == Puts(n - 1);
      assert Run(s, Puts(n)) == Run(t, Puts(n - 1));
      CountsAddUp(s.ring.count, n);
    }
  }

  lemma PutWrapsCount(s: Sys)
    requires SysInBounds(s) && |s.ring.buffer| >= 256
    ensures var t := Step(s, Put(0));
            && t.ring.count == Wrap8(s.ring.count + 1)
            && t.accepted == s.accepted + [0] && t.removed == s.removed
  {
  }

  lemma CountsAddUp(c: int, n: int)
    ensures Wrap8(Wrap8(c + 1) + (n - 1)) == Wrap8(c + n)
  {
  }

  // ---------------------------------------------------------------- the shared static variable

  function MainSteps(events: seq<Event>): nat {
    if events == [] then 0 else (if events[0].MainStep? then 1 else 0) + MainSteps(events[1..])
  }

  /** The byte removed by the last transmit interrupt among the events, or `otherwise` if there is none. */
  function LastSent(events: seq<Event>, otherwise: Byte): Byte {
    if events == [] then otherwise
    else LastSent(events[1..], if events[0].OtherRemoval? then events[0].sent else otherwise)
  }

  /** The steps that a call holding a byte has still to make, the return included. */
  function StepsLeft(pc: Pc): nat {
    match pc
    case Loaded => 4
    case Counted => 3
    case Advanced => 2
    case Wrapped => 1
    case _ => 0
  }

  lemma {:induction false} WhileHolding(s: Sys, events: seq<Event>)
    requires SysInBounds(s) && MainSteps(events) < StepsLeft(s.pc)
    ensures var t := Run(s, events);
            && StepsLeft(t.pc) == StepsLeft(s.pc) - MainSteps(events)
            && t.data == LastSent(events, s.data) && t.returned == s.returned
            && t.taken == s.taken
            && t.removed == if s.pc == Loaded && t.pc != Loaded then s.removed + [s.taken] else s.removed
    decreases events
  {
    if events != [] {
      WhileHolding(Step(s, events[0]), events[1..]);
    }
  }

  /**
   A removal takes the oldest byte off the FIFO whatever interrupts do between its load and its
   return, but it returns that byte exactly if the last transmit interrupt among them, if any,
   happened to send the same one.
   */
  lemma ReturnsTakenByteIff(s: Sys, during: seq<Event>)
    requires SysInBounds(s) && s.pc == Checked && MainSteps(during) == 3
    ensures var oldest := s.ring.buffer[s.ring.ptrOut];
            var t := Advance(Run(Advance(s), during));
            && t.pc == Idle
            && t.removed == s.removed + [oldest]
            && |t.returned| == |s.returned| + 1
            && (t.returned == s.returned + [oldest] <==> LastSent(during, oldest) == oldest)
  {
    var loaded := Advance(s);
    WhileHolding(loaded, during);
    var t := Run(loaded, during);
    assert t.pc == Wrapped;
    assert Advance(t).returned[|s.returned|] == LastSent(during, loaded.taken);
  }

  /**
   At every return, the last transmit interrupt since the load, if any, has sent the byte taken.
   `since` are the events after the last load.
   */
  predicate ReturnsOwnBytes(s: Sys, since: seq<Event>, events: seq<Event>)
    requires SysInBounds(s)
    decreases events
  {
    events != [] ==>
      && (events[0].MainStep? && s.pc == Wrapped ==> LastSent(since, s.taken) == s.taken)
      && ReturnsOwnBytes(Step(s, events[0]), Since(s, since, events[0]), events[1..])
  }

  function Since(s: Sys, since: seq<Event>, e: Event): seq<Event> {
    if s.pc == Checked && e.MainStep? then [] else since + [e]
  }

  lemma {:induction false} LastSentOfMore(events: seq<Event>, e: Event, otherwise: Byte)
    ensures LastSent(events + [e], otherwise) == if e.OtherRemoval? then e.sent else LastSent(events, otherwise)
    decreases events
  {
    if events == [] {
      assert [] + [e] == [e];
      assert [e][1..] == [];
    } else {
      assert (events + [e])[1..] == events[1..] + [e];
      LastSentOfMore(events[1..], e, if events[0].OtherRemoval? then events[0].sent else otherwise);
    }
  }

  /** The static variable holds what LastSent says, while a call holds a byte. */
  predicate DataSince(s: Sys, since: seq<Event>) {
    Holding(s.pc) ==> s.data == LastSent(since, s.taken)
  }

  lemma StepInStep(s: Sys, since: seq<Event>, e: Event)
    requires SysInBounds(s) && InStep(s) && DataSince(s, since)
    ensures InStep(Step(s, e)) && DataSince(Step(s, e), Since(s, since, e))
  {
    LastSentOfMore(since, e, s.taken);
  }

  lemma StepReturns(s: Sys, since: seq<Event>, e: Event)
    requires SysInBounds(s) && InStep(s) && DataSince(s, since)
    ensures var t := Step(s, e);
            t.returned <= t.removed
            <==> s.returned <= s.removed
                 && (e.MainStep? && s.pc == Wrapped ==> LastSent(since, s.taken) == s.taken)
  {
    var t := Step(s, e);
    if e.MainStep? && s.pc == Wrapped {
      PrefixOfMore(s.returned, s.removed, s.data);
    } else if e.MainStep? && s.pc == Loaded {
      PrefixOfLonger(s.returned, s.removed, s.taken);
    }
  }

  lemma PrefixOfMore(returned: seq<Byte>, removed: seq<Byte>, data: Byte)
    requires |returned| < |removed|
    ensures returned + [data] <= removed <==> returned <= removed && data == removed[|returned|]
  {
    var more := returned + [data];
    if more <= removed {
      assert returned == more[..|returned|] == removed[..|returned|];
      assert more[|returned|] == removed[|returned|];
    }
    if returned <= removed && data == removed[|returned|] {
      assert more == removed[..|more|];
    }
  }

  lemma PrefixOfLonger(returned: seq<Byte>, removed: seq<Byte>, taken: Byte)
    requires |returned| <= |removed|
    ensures returned <= removed + [taken] <==> returned <= removed
  {
    assert (removed + [taken])[..|returned|] == removed[..|returned|];
  }

  lemma {:induction false} ReturnedIff(s: Sys, since: seq<Event>, events: seq<Event>)
    requires SysInBounds(s) && InStep(s) && DataSince(s, since)
    ensures var t := Run(s, events);
            && InStep(t)
            && (t.returned <= t.removed <==> s.returned <= s.removed && ReturnsOwnBytes(s, since, events))
    decreases events
  {
    if events != [] {
      StepInStep(s, since, events[0]);
      StepReturns(s, since, events[0]);
      ReturnedIff(Step(s, events[0]), Since(s, since, events[0]), events[1..]);
    }
  }

  /**
   Over whole runs that the count can follow: the callers get the accepted bytes in order, none
   lost, none twice, exactly if at every return the last transmit interrupt since the load, if any,
   has sent the byte taken.
   */
  lemma DeliveredIff(buffer: seq<Byte>, data: Byte, events: seq<Event>)
    requires |buffer| < 0x1_0000_0000 && Countable(Start(buffer, data), events)
    ensures var s := Start(buffer, data);
            var t := Run(s, events);
            && |t.returned| <= |t.removed| <= |t.returned| + 1
            && (t.returned <= t.accepted <==> ReturnsOwnBytes(s, [], events))
  {
    var s := Start(buffer, data);
    CountableRunKeepsInv(s, events);
    ReturnedIff(s, [], events);
    var t := Run(s, events);
    assert t.accepted[..|t.removed|] == t.removed;
    assert t.accepted[..|t.returned|] == t.removed[..|t.returned|];
  }

  lemma {:induction false} NothingSent(events: seq<Event>, otherwise: Byte)
    requires forall i :: 0 <= i < |events| ==> events[i] == MainStep
    ensures MainSteps(events) == |events| && LastSent(events, otherwise) == otherwise
    decreases events
  {
    if events != [] {
      NothingSent(events[1..], otherwise);
    }
  }

  /**
   From an idle ring: a byte is received, taken and removed, but the caller gets the byte that
   the transmit interrupt sent meanwhile.
   */
  lemma TransmittedByteIsReturned(buffer: seq<Byte>, received: Byte, sent: Byte)
    requires 0 < |buffer| < 0x1_0000_0000 && received != sent
    ensures var checked := Advance(Step(Start(buffer, 0), Put(received)));
            var t := Advance(Run(Advance(checked), [OtherRemoval(sent), MainStep, MainStep, MainStep]));
            && checked.accepted == t.removed == [received] && t.returned == [sent]
  {
    var checked := FirstByteChecked(buffer, received);
    SentWhileHeld(checked, sent);
  }

  lemma FirstByteChecked(buffer: seq<Byte>, received: Byte) returns (s: Sys)
    requires 0 < |buffer| < 0x1_0000_0000
    ensures s == Advance(Step(Start(buffer, 0), Put(received)))
    ensures s.pc == Checked && s.ring.ptrOut == 0 < |s.ring.buffer| && s.ring.buffer[0] == received
    ensures s.accepted == [received] && s.removed == [] && s.returned == []
  {
    s := Advance(Step(Start(buffer, 0), Put(received)));
  }

  lemma SentWhileHeld(s: Sys, sent: Byte)
    requires SysInBounds(s) && s.pc == Checked
    ensures var t := Advance(Run(Advance(s), [OtherRemoval(sent), MainStep, MainStep, MainStep]));
            t.removed == s.removed + [s.ring.buffer[s.ring.ptrOut]] && t.returned == s.returned + [sent]
  {
    var during := [OtherRemoval(sent), MainStep, MainStep, MainStep];
    assert during[1..] == [MainStep, MainStep, MainStep];
    NothingSent(during[1..], sent);
    WhileHolding(Advance(s), during);
  }

  // ---------------------------------------------------------------- flushing

  function PutAll(r: Ring<Byte>, data: seq<Byte>): (r': Ring<Byte>)
    requires InBounds(r)
    ensures InBounds(r') && |r'.buffer| == |r.buffer|
    decreases data
  {
    if data == [] then r else PutAll(PutByte(r, data[0]), data[1..])
  }

  /**
   ringBuffer_flush in the main loop: three assignments, with the bytes that interrupts put
   between the first and the second, and between the second and the third.
   */
  function Flush(r: Ring<Byte>, first: seq<Byte>, second: seq<Byte>): (r': Ring<Byte>)
    requires InBounds(r)
  {
    var r1 := PutAll(r.(ptrOut := 0), first);
    var r2 := PutAll(r1.(ptrIn := 0), second);
    r2.(count := 0)
  }

  /** An empty FIFO whose next byte will be read from where it is written. */
  predicate Aligned(r: Ring<Byte>) {
    r.count == 0 && r.ptrIn == r.ptrOut
  }

  /** The entries that the unread bytes and those put before the second assignment leave free. */
  function SpaceLeft(r: Ring<Byte>, first: seq<Byte>): nat {
    if r.count + |first| <= |r.buffer| then |r.buffer| - r.count - |first| else 0
  }

  /** One byte can count the unread bytes after n further puts. */
  predicate RoomToCount(r: Ring<Byte>, n: nat) {
    |r.buffer| <= 255 || r.count + n <= 255
  }

  /**
   A flush is safe exactly when the interrupts between its last two assignments put nothing,
   find no space, or fill the whole buffer.
   */
  lemma FlushSafeIff(r: Ring<Byte>, first: seq<Byte>, second: seq<Byte>)
    requires InBounds(r) && 0 < |r.buffer| && r.count <= |r.buffer|
    requires RoomToCount(r, |first| + |second|)
    ensures var space := SpaceLeft(r, first);
            Aligned(Flush(r, first, second))
            <==> second == [] || space == 0 || (space == |r.buffer| && |second| >= space)
  {
    var r1 := PutAll(r.(ptrOut := 0), first);
    PutAllCounts(r.(ptrOut := 0), first);
    PutAllCounts(r1.(ptrIn := 0), second);
  }

  /** Puts advance the count and the write position by the number of bytes there is space for. */
  lemma {:induction false} PutAllCounts(r: Ring<Byte>, data: seq<Byte>)
    requires InBounds(r) && 0 < |r.buffer| && r.count <= |r.buffer| && RoomToCount(r, |data|)
    ensures var t := PutAll(r, data);
            var n := if |data| <= |r.buffer| - r.count then |data| else |r.buffer| - r.count;
            && t.count == r.count + n && t.ptrOut == r.ptrOut
            && t.ptrIn == Around(r, r.ptrIn + n)
    decreases data
  {
    if data != [] {
      PutByteFields(r, data[0]);
      PutAllCounts(PutByte(r, data[0]), data[1..]);
    }
  }

  /** One byte put in the wrong place misaligns a ring of two bytes. */
  lemma FlushCanMisalign()
    ensures !Aligned(Flush(Ring([0, 0], 0, 0, 0), [], [7]))
  {
    FlushSafeIff(Ring([0, 0], 0, 0, 0), [], [7]);
  }

  /** After an unsafe flush, the next byte put is not the next byte read. */
  lemma MisalignedMisreads(r: Ring<Byte>, data: Byte)
    requires InBounds(r) && r.ptrOut < |r.buffer|
    requires r.count == 0 && !Aligned(r) && data != r.buffer[r.ptrOut]
    ensures var t := PutByte(r, data);
            t.count == 1 && t.buffer[t.ptrOut] != data
  {
  }

  // ---------------------------------------------------------------- the C functions, uninterrupted

  /** The unread bytes of a ring at rest. */
  ghost function Contents(r: Ring<Byte>): seq<Byte>
    requires AtRest(r)
  {
    if |r.buffer| == 0 then [] else Window(r.buffer, r.ptrOut, r.count)
  }

  ghost predicate AtRest(r: Ring<Byte>) {
    && InBounds(r) && r.count <= |r.buffer|
    && (|r.buffer| > 0 ==> r.ptrOut < |r.buffer| && r.ptrIn == Around(r, r.ptrOut + r.count))
  }

  /** ringBuffer_remove on a ring with a pending byte, run to completion. */
  function RemoveByte<T>(r: Ring<T>): Ring<T>
    requires r.count > 0
  {
    var next := r.ptrOut + 1;
    r.(count := Wrap8(r.count - 1), ptrOut := if next >= |r.buffer| then 0 else next)
  }

  /** The six steps of an uninterrupted removal amount to RemoveByte. */
  lemma StepsAmountToRemove(s: Sys)
    requires SysInBounds(s) && s.pc == Idle && s.ring.count > 0
    ensures var t := Advance(Advance(Advance(Advance(Advance(Advance(s))))));
            && t.ring == RemoveByte(s.ring)
            && t.returned == s.returned + [s.ring.buffer[s.ring.ptrOut]]
            && t.pc == Idle
  {
  }

  lemma PutAppends(r: Ring<Byte>, data: Byte)
    requires AtRest(r) && RoomToCount(r, 1)
    ensures AtRest(PutByte(r, data))
    ensures Contents(PutByte(r, data))
            == if r.count < |r.buffer| then Contents(r) + [data] else Contents(r)
  {
    PutKeepsHolding(r, data, r.ptrOut, Contents(r));
  }

  lemma RemoveTakesOldest(r: Ring<Byte>)
    requires AtRest(r) && r.count > 0
    ensures AtRest(RemoveByte(r))
    ensures r.buffer[r.ptrOut] == Contents(r)[0]
    ensures Contents(RemoveByte(r)) == Contents(r)[1..]
  {
    SpaceIsDifference(r);
    var next := Around(r, r.ptrOut + 1);
    assert RemoveByte(r) == Ring(r.buffer, r.ptrIn, next, r.count - 1);
    WindowShrinks(r.buffer, r.ptrOut, r.count);
    assert Contents(RemoveByte(r)) == Window(r.buffer, next, r.count - 1);
  }

  class Buffer {
    const buffer: array<Byte>
    var ptrIn: nat
    var ptrOut: nat
    var count: Byte

    ghost function View(): Ring<Byte>
      reads this, buffer
    {
      Ring(buffer[..], ptrIn, ptrOut, count)
    }

    /** The positions are inside the buffer, whatever its length; nothing is said of the count. */
    ghost predicate Valid()
      reads this, buffer
    {
      InBounds(View()) && (buffer.Length > 0 ==> ptrOut < buffer.Length)
    }

    /** ringBuffer_init */
    constructor (storage: array<Byte>)
      requires storage.Length < 0x1_0000_0000
      ensures Valid() && AtRest(View()) && Contents(View()) == [] && buffer == storage
    {
      buffer := storage;
      ptrIn, ptrOut, count := 0, 0, 0;
    }

    method GetFreeSpace() returns (space: nat)
      requires Valid()
      ensures space == FreeSpace(View())
      ensures AtRest(View()) ==> space == buffer.Length - |Contents(View())|
    {
      return Wrap32(buffer.Length - count);
    }

    method GetPending() returns (pending: nat)
      requires Valid()
      ensures pending == View().count
      ensures AtRest(View()) ==> pending == |Contents(View())|
    {
      return count;
    }

    /** ringBuffer_put: a byte that finds no space is dropped. */
    method PutData(data: Byte)
      requires Valid()
      modifies this, buffer
      ensures Valid() && View() == PutByte(old(View()), data)
      ensures old(AtRest(View()) && RoomToCount(View(), 1)) ==>
                && AtRest(View())
                && Contents(View()) == if |old(Contents(View()))| < buffer.Length
                                       then old(Contents(View())) + [data] else old(Contents(View()))
    {
      ghost var r := View();
      var space := GetFreeSpace();
      if space > 0 {
        buffer[ptrIn] := data;
        count := Wrap8(count + 1);
        ptrIn := ptrIn + 1;
        if ptrIn >= buffer.Length {
          ptrIn := 0;
        }
      }
      assert View() == PutByte(r, data);
      if AtRest(r) && RoomToCount(r, 1) {
        PutAppends(r, data);
      }
    }

    /** ringBuffer_remove; `last` is its static variable, returned when nothing is pending. */
    method Remove(last: Byte) returns (data: Byte)
      requires Valid()
      modifies this
      ensures Valid()
      ensures var r := old(View());
              if r.count == 0 then data == last && View() == r
              else data == r.buffer[r.ptrOut] && View() == RemoveByte(r)
      ensures old(AtRest(View())) ==>
                var c := old(Contents(View()));
                && AtRest(View())
                && data == (if c == [] then last else c[0])
                && Contents(View()) == (if c == [] then c else c[1..])
    {
      data := last;
      var pending := GetPending();
      if pending > 0 {
        if AtRest(View()) {
          RemoveTakesOldest(View());
        }
        data := buffer[ptrOut];
        count := Wrap8(count - 1);
        ptrOut := ptrOut + 1;
        if ptrOut >= buffer.Length {
          ptrOut := 0;
        }
        assert View() == RemoveByte(old(View()));
      }
    }

    /** ringBuffer_peek */
    method Peek(last: Byte) returns (data: Byte)
      requires Valid()
      ensures data == if count == 0 then last else buffer[ptrOut]
      ensures AtRest(View()) ==> var c := Contents(View()); data == if c == [] then last else c[0]
    {
      data := last;
      var pending := GetPending();
      if pending > 0 {
        if AtRest(View()) {
          RemoveTakesOldest(View());
        }
        data := buffer[ptrOut];
      }
    }

    /** ringBuffer_flush */
    method FlushAll()
      requires Valid()
      modifies this
      ensures Valid() && AtRest(View()) && Contents(View()) == []
      ensures View() == Flush(old(View()), [], [])
    {
      ptrOut := 0;
      ptrIn := 0;
      count := 0;
    }
  }
}
