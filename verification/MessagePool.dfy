/**
 The message pool of the firmware (MessagePoolManager.c): a fixed set of message slots shared
 by one output queue and several input queues. Every queue has as many entries as the pool
 has slots (inc/MessagePoolManager.h:16-18), written N here.
 */
module MessagePool {

  /** An imMessage_t pointer: NULL, or the address of a pool slot. */
  datatype Ptr = Null | To(slot: nat)

  /** The two fields of a message the pool manages. */
  datatype Slot = Slot(free: bool, payloadPtr: nat)

  /** Where a slot is: the position in queue 0 (output) or queue 1 + flow (input), or out of the queues. */
  datatype Place = Free | Held | Leaked | In(queue: nat, index: nat)

  /**
   The pool. `place` is bookkeeping of the model only: it remembers which slots a client holds
   and which were dropped by a flush.
   */
  datatype State = State(slots: seq<Slot>, queues: seq<seq<Ptr>>, place: seq<Place>)

  datatype Op =
    | GetFree
    | Release(msg: Ptr)
    | Fill(slot: nat, len: nat)      // the client writes into the payload
    | Push(queue: nat, msg: Ptr)
    | Pop(queue: nat)
    | FlushOutput

  // ---------------------------------------------------------------- one queue

  function FirstNull(q: seq<Ptr>): (k: nat)
    ensures k <= |q|
    ensures forall i :: 0 <= i < k ==> q[i].To?
    ensures k < |q| ==> q[k].Null?
  {
    if q == [] || q[0].Null? then 0 else 1 + FirstNull(q[1..])
  }

  function PushQueue(q: seq<Ptr>, msg: Ptr): seq<Ptr> {
    var k := FirstNull(q);
    if k < |q| then q[k := msg] else q
  }

  function PopQueue(q: seq<Ptr>): seq<Ptr>
    requires q != []
  {
    q[1..] + [Null]
  }

  function Nulls(n: nat): (q: seq<Ptr>)
    ensures |q| == n && forall i :: 0 <= i < n ==> q[i] == Null
  {
    seq(n, _ => Null)
  }

  /** Messages first, then only NULL entries. */
  predicate Packed(q: seq<Ptr>) {
    forall i, j :: 0 <= i < j < |q| && q[i].Null? ==> q[j].Null?
  }

  /** The messages waiting in a queue, oldest first. */
  function Contents(q: seq<Ptr>): (c: seq<nat>)
    ensures |c| == FirstNull(q)
    ensures forall i :: 0 <= i < |c| ==> q[i] == To(c[i])
  {
    if q == [] || q[0].Null? then [] else [q[0].slot] + Contents(q[1..])
  }

  lemma PackedContents(q: seq<Ptr>)
    requires Packed(q)
    ensures forall i :: 0 <= i < |q| ==> (q[i].To? <==> i < |Contents(q)|)
  {
  }

  /** A queue is determined by its contents and its length. */
  lemma ContentsDetermine(q: seq<Ptr>, c: seq<nat>)
    requires Packed(q) && |c| <= |q|
    requires forall i :: 0 <= i < |c| ==> q[i] == To(c[i])
    requires |c| < |q| ==> q[|c|].Null?
    ensures Contents(q) == c
  {
  }

  lemma PushAppends(q: seq<Ptr>, slot: nat)
    requires Packed(q)
    ensures Packed(PushQueue(q, To(slot)))
    ensures Contents(PushQueue(q, To(slot)))
            == if |Contents(q)| < |q| then Contents(q) + [slot] else Contents(q)
  {
    if |Contents(q)| < |q| {
      ContentsDetermine(PushQueue(q, To(slot)), Contents(q) + [slot]);
    }
  }

  lemma PopRemovesHead(q: seq<Ptr>)
    requires Packed(q) && q != []
    ensures Packed(PopQueue(q))
    ensures Contents(PopQueue(q)) == if Contents(q) == [] then [] else Contents(q)[1..]
  {
    ContentsDetermine(PopQueue(q), if Contents(q) == [] then [] else Contents(q)[1..]);
  }

  // ---------------------------------------------------------------- the operations

  function FirstFree(slots: seq<Slot>): (k: nat)
    ensures k <= |slots|
    ensures forall i :: 0 <= i < k ==> !slots[i].free
    ensures k < |slots| ==> slots[k].free
  {
    if slots == [] || slots[0].free then 0 else 1 + FirstFree(slots[1..])
  }

  function Released(slots: seq<Slot>, msg: Ptr): seq<Slot> {
    if msg.To? && msg.slot < |slots| then slots[msg.slot := Slot(true, 0)] else slots
  }

  function Move(place: seq<Place>, msg: Ptr, target: Place): seq<Place> {
    if msg.To? && msg.slot < |place| then place[msg.slot := target] else place
  }

  /** After a pop, the head of the queue is free and every other message has moved up. */
  function PlacesAfterPop(place: seq<Place>, queue: nat): seq<Place> {
    seq(|place|, k requires 0 <= k < |place| =>
      if !place[k].In? || place[k].queue != queue then place[k]
      else if place[k].index == 0 then Free
      else In(queue, place[k].index - 1))
  }

  function PlacesAfterFlush(place: seq<Place>): seq<Place> {
    seq(|place|, k requires 0 <= k < |place| =>
      if place[k].In? && place[k].queue == 0 then Leaked else place[k])
  }

  function Init(n: nat, flows: nat): State {
    State(seq(n, _ => Slot(true, 0)), seq(1 + flows, _ => Nulls(n)), seq(n, _ => Free))
  }

  function Step(s: State, op: Op): State {
    match op
    case GetFree =>
      var k := FirstFree(s.slots);
      if k < |s.slots| then
        s.(slots := s.slots[k := s.slots[k].(free := false)], place := Move(s.place, To(k), Held))
      else s
    case Release(msg) =>
      s.(slots := Released(s.slots, msg), place := Move(s.place, msg, Free))
    case Fill(k, len) =>
      if k < |s.slots| then s.(slots := s.slots[k := s.slots[k].(payloadPtr := len)]) else s
    case Push(q, msg) =>
      if q < |s.queues| then
        var k := FirstNull(s.queues[q]);
        s.(queues := s.queues[q := PushQueue(s.queues[q], msg)],
           place := if k < |s.queues[q]| then Move(s.place, msg, In(q, k)) else s.place)
      else s
    case Pop(q) =>
      if q < |s.queues| && s.queues[q] != [] then
        s.(slots := Released(s.slots, s.queues[q][0]),
           queues := s.queues[q := PopQueue(s.queues[q])],
           place := PlacesAfterPop(s.place, q))
      else s
    case FlushOutput =>
      if 0 < |s.queues| then
        s.(queues := s.queues[0 := Nulls(|s.queues[0]|)], place := PlacesAfterFlush(s.place))
      else s
  }

  /** What the pool hands to the caller of GetFree. */
  function Allocated(s: State): Ptr {
    var k := FirstFree(s.slots);
    if k < |s.slots| then To(k) else Null
  }

  // ---------------------------------------------------------------- ownership

  predicate Holds(s: State, msg: Ptr) {
    msg.To? ==> msg.slot < |s.place| && s.place[msg.slot] == Held
  }

  /** The discipline of the clients: they release, fill and push only slots they hold. */
  predicate Allowed(s: State, op: Op) {
    match op
    case Release(msg) => Holds(s, msg)
    case Fill(k, _) => Holds(s, To(k))
    case Push(_, msg) => Holds(s, msg)
    case _ => true
  }

  predicate WellShaped(s: State) {
    && |s.slots| == |s.place| > 0
    && |s.queues| > 0
    && (forall q :: 0 <= q < |s.queues| ==> |s.queues[q]| == |s.slots| && Packed(s.queues[q]))
  }

  /** Every queue entry is recorded as the place of its slot. */
  predicate EntriesPlaced(s: State) {
    forall q, i :: 0 <= q < |s.queues| && 0 <= i < |s.queues[q]| && s.queues[q][i].To? ==>
      s.queues[q][i].slot < |s.place| && s.place[s.queues[q][i].slot] == In(q, i)
  }

  /** Every recorded place is an entry that holds the slot. */
  predicate PlacesReal(s: State) {
    forall k :: 0 <= k < |s.place| && s.place[k].In? ==>
      var p := s.place[k];
      p.queue < |s.queues| && p.index < |s.queues[p.queue]| && s.queues[p.queue][p.index] == To(k)
  }

  /** The free flags agree with the places, and free slots are empty. */
  predicate FlagsAgree(s: State)
    requires |s.slots| == |s.place|
  {
    forall k :: 0 <= k < |s.slots| ==>
      && (s.slots[k].free <==> s.place[k] == Free)
      && (s.slots[k].free ==> s.slots[k].payloadPtr == 0)
  }

  predicate Inv(s: State) {
    WellShaped(s) && EntriesPlaced(s) && PlacesReal(s) && FlagsAgree(s)
  }

  lemma InitInv(n: nat, flows: nat)
    requires n > 0
    ensures Inv(Init(n, flows))
  {
  }

  /** Pigeonhole: a queue as long as the pool has room for a slot that is in no queue. */
  lemma RoomForHeldSlot(s: State, q: nat, k: nat)
    requires Inv(s) && q < |s.queues| && k < |s.place| && !s.place[k].In?
    ensures FirstNull(s.queues[q]) < |s.queues[q]|
  {
    var c := Contents(s.queues[q]);
    if FirstNull(s.queues[q]) == |s.queues[q]| {
      forall i, j | 0 <= i < j < |c| ensures c[i] != c[j] && c[i] != k && c[j] != k {
        assert s.queues[q][i] == To(c[i]) && s.queues[q][j] == To(c[j]);
      }
      forall i | 0 <= i < |c| ensures c[i] < |s.slots| && c[i] != k {
        assert s.queues[q][i] == To(c[i]);
      }
      Pigeonhole(c + [k], |s.slots|);
    }
  }

  /** Distinct numbers below n are at most n many. */
  lemma {:induction false} Pigeonhole(c: seq<nat>, n: nat)
    requires forall i :: 0 <= i < |c| ==> c[i] < n
    requires forall i, j :: 0 <= i < j < |c| ==> c[i] != c[j]
    ensures |c| <= n
    decreases n
  {
    if |c| > 0 {
      assert c[0] < n;
      if m :| 0 <= m < |c| && c[m] == n - 1 {
        var rest := c[..m] + c[m + 1..];
        Pigeonhole(rest, n - 1);
      } else {
        Pigeonhole(c, n - 1);
      }
    }
  }

  lemma StepKeepsInv(s: State, op: Op)
    requires Inv(s) && Allowed(s, op)
    ensures Inv(Step(s, op))
  {
    match op
    case GetFree => GetFreeKeepsInv(s);
    case Release(msg) => ReleaseKeepsInv(s, msg);
    case Fill(k, len) => FillKeepsInv(s, k, len);
    case Push(q, msg) => PushKeepsInv(s, q, msg);
    case Pop(q) => PopKeepsInv(s, q);
    case FlushOutput => FlushKeepsInv(s);
  }

  lemma GetFreeKeepsInv(s: State)
    requires Inv(s)
    ensures Inv(Step(s, GetFree))
  {
  }

  lemma ReleaseKeepsInv(s: State, msg: Ptr)
    requires Inv(s) && Allowed(s, Release(msg))
    ensures Inv(Step(s, Release(msg)))
  {
  }

  lemma FillKeepsInv(s: State, k: nat, len: nat)
    requires Inv(s) && Allowed(s, Fill(k, len))
    ensures Inv(Step(s, Fill(k, len)))
  {
  }

  lemma FlushKeepsInv(s: State)
    requires Inv(s)
    ensures Inv(Step(s, FlushOutput))
  {
  }

  lemma PushKeepsInv(s: State, q: nat, msg: Ptr)
    requires Inv(s) && Holds(s, msg)
    ensures Inv(Step(s, Push(q, msg)))
  {
    if q >= |s.queues| {
      assert Step(s, Push(q, msg)) == s;
    } else if msg.To? {
      HeldPushKeepsInv(s, q, msg.slot);
    } else {
      NullPushChangesNothing(s, q);
    }
  }

  lemma NullPushChangesNothing(s: State, q: nat)
    requires q < |s.queues|
    ensures Step(s, Push(q, Null)) == s
  {
    assert PushQueue(s.queues[q], Null) == s.queues[q];
    assert Step(s, Push(q, Null)).queues == s.queues;
  }

  lemma HeldPushKeepsInv(s: State, q: nat, k: nat)
    requires Inv(s) && Holds(s, To(k)) && q < |s.queues|
    ensures Inv(Step(s, Push(q, To(k))))
  {
    RoomForHeldSlot(s, q, k);
    PushKeepsShape(s, q, k);
    var at := FirstNull(s.queues[q]);
    PlacedPush(s, q, k, at);
    assert Step(s, Push(q, To(k)))
        == State(s.slots, s.queues[q := s.queues[q][at := To(k)]], s.place[k := In(q, at)]);
  }

  lemma PushKeepsShape(s: State, q: nat, k: nat)
    requires WellShaped(s) && q < |s.queues|
    ensures WellShaped(Step(s, Push(q, To(k))))
  {
    PushAppends(s.queues[q], k);
  }

  /** Writing a held slot into an empty entry keeps entries and places in agreement. */
  lemma PlacedPush(s: State, q: nat, k: nat, at: nat)
    requires Inv(s) && Holds(s, To(k)) && q < |s.queues| && at < |s.queues[q]|
    requires s.queues[q][at].Null?
    ensures var t := State(s.slots, s.queues[q := s.queues[q][at := To(k)]], s.place[k := In(q, at)]);
            EntriesPlaced(t) && PlacesReal(t) && FlagsAgree(t)
  {
  }

  lemma PopKeepsInv(s: State, q: nat)
    requires Inv(s)
    ensures Inv(Step(s, Pop(q)))
  {
    if q < |s.queues| {
      var t := Step(s, Pop(q));
      PopRemovesHead(s.queues[q]);
      PopPlaces(s, q);
    }
  }

  lemma PopPlaces(s: State, q: nat)
    requires Inv(s) && q < |s.queues|
    ensures var t := Step(s, Pop(q));
            EntriesPlaced(t) && PlacesReal(t) && FlagsAgree(t)
  {
    PopEntriesPlaced(s, q);
    PopPlacesReal(s, q);
    PopFlagsAgree(s, q);
  }

  lemma PopEntriesPlaced(s: State, q: nat)
    requires Inv(s) && q < |s.queues|
    ensures EntriesPlaced(Step(s, Pop(q)))
  {
  }

  lemma PopPlacesReal(s: State, q: nat)
    requires Inv(s) && q < |s.queues|
    ensures PlacesReal(Step(s, Pop(q)))
  {
    var t := Step(s, Pop(q));
    forall k | 0 <= k < |t.place| && t.place[k].In?
      ensures var p := t.place[k];
              p.queue < |t.queues| && p.index < |t.queues[p.queue]| && t.queues[p.queue][p.index] == To(k)
    {
      var p := t.place[k];
      if p.queue == q {
        assert s.place[k] == In(q, p.index + 1);
        assert t.queues[q][p.index] == s.queues[q][p.index + 1];
      } else {
        assert s.place[k] == p;
      }
    }
  }

  lemma PopFlagsAgree(s: State, q: nat)
    requires Inv(s) && q < |s.queues|
    ensures FlagsAgree(Step(s, Pop(q)))
  {
  }

  /** All the places at which slot k can be found in the pool's own records. */
  ghost function PlacesOf(s: State, k: nat): set<Place>
    requires k < |s.slots| == |s.place|
  {
    (if s.slots[k].free then {Free} else {})
    + (if s.place[k] in {Held, Leaked} then {s.place[k]} else {})
    + (set q, i | 0 <= q < |s.queues| && 0 <= i < |s.queues[q]| && s.queues[q][i] == To(k) :: In(q, i))
  }

  /** Each slot is exactly one of free, held, leaked, or at one position of one queue. */
  lemma ExactlyOnePlace(s: State, k: nat)
    requires Inv(s) && k < |s.slots|
    ensures PlacesOf(s, k) == {s.place[k]}
  {
  }

  // ---------------------------------------------------------------- what one call does

  /** Allocation fails exactly when no slot is free; otherwise the slot is empty and in no queue. */
  lemma AllocationIsFresh(s: State)
    requires Inv(s)
    ensures Allocated(s).Null? <==> forall k :: 0 <= k < |s.slots| ==> s.place[k] != Free
    ensures Allocated(s).To? ==>
              var k := Allocated(s).slot;
              && k < |s.slots| && s.place[k] == Free && s.slots[k].payloadPtr == 0
              && Step(s, GetFree).place == s.place[k := Held]
              && forall q, i :: 0 <= q < |s.queues| && 0 <= i < |s.queues[q]| ==>
                   s.queues[q][i] != To(k)
  {
  }

  /** Pushing appends the message, whoever holds it, as long as an entry is free; NULL changes nothing. */
  lemma PushAnyMessage(s: State, q: nat, msg: Ptr)
    requires q < |s.queues| && Packed(s.queues[q])
    ensures var t, c := Step(s, Push(q, msg)), Contents(s.queues[q]);
            && t.slots == s.slots && |t.queues| == |s.queues|
            && Packed(t.queues[q])
            && Contents(t.queues[q]) == (if msg.To? && |c| < |s.queues[q]| then c + [msg.slot] else c)
            && forall r :: 0 <= r < |s.queues| && r != q ==> t.queues[r] == s.queues[r]
  {
    if msg.To? {
      PushAppends(s.queues[q], msg.slot);
    } else {
      NullPushChangesNothing(s, q);
    }
  }

  /** Pushing a held slot never finds the queue full: the message is appended, nothing else moves. */
  lemma PushNeverLoses(s: State, q: nat, k: nat)
    requires Inv(s) && Holds(s, To(k)) && q < |s.queues|
    ensures var t := Step(s, Push(q, To(k)));
            && Contents(t.queues[q]) == Contents(s.queues[q]) + [k]
            && t.place[k] == In(q, |Contents(s.queues[q])|)
            && t.slots == s.slots
            && forall r :: 0 <= r < |s.queues| && r != q ==> t.queues[r] == s.queues[r]
  {
    RoomForHeldSlot(s, q, k);
    PushAnyMessage(s, q, To(k));
  }

  /** Popping frees the oldest message and no other slot. */
  lemma PopFreesOldest(s: State, q: nat)
    requires Inv(s) && q < |s.queues|
    ensures var t, c := Step(s, Pop(q)), Contents(s.queues[q]);
            && Contents(t.queues[q]) == (if c == [] then [] else c[1..])
            && (c == [] ==> t == s)
            && (c != [] ==> t.slots == s.slots[c[0] := Slot(true, 0)] && t.place[c[0]] == Free)
  {
    PopRemovesHead(s.queues[q]);
    if Contents(s.queues[q]) == [] {
      PopOfEmpty(s, q);
    } else {
      assert s.queues[q][0] == To(Contents(s.queues[q])[0]);
    }
  }

  lemma PopOfEmpty(s: State, q: nat)
    requires Inv(s) && q < |s.queues| && Contents(s.queues[q]) == []
    ensures Step(s, Pop(q)) == s
  {
    PackedContents(s.queues[q]);
    assert PopQueue(s.queues[q]) == s.queues[q];
    assert PlacesAfterPop(s.place, q) == s.place;
  }

  /**
   A release frees the slot and nothing else, whoever holds it, and the next allocation succeeds;
   NULL is ignored.
   */
  lemma ReleaseFrees(s: State, msg: Ptr)
    requires |s.slots| == |s.place| && (msg.To? ==> msg.slot < |s.slots|)
    ensures var t := Step(s, Release(msg));
            && t.queues == s.queues
            && (msg.To? ==>
                  && t.slots == s.slots[msg.slot := Slot(true, 0)]
                  && t.place == s.place[msg.slot := Free]
                  && Allocated(t).To?)
            && (msg.Null? ==> t == s)
  {
    assert msg.To? ==> Step(s, Release(msg)).slots[msg.slot].free;
  }

  /** A flush empties the output queue without freeing anything: its slots are out of reach. */
  lemma FlushLeaks(s: State)
    requires Inv(s)
    ensures var t := Step(s, FlushOutput);
            && t.slots == s.slots
            && Contents(t.queues[0]) == []
            && (forall k :: 0 <= k < |s.place| ==>
                  t.place[k] == if k in Contents(s.queues[0]) then Leaked else s.place[k])
  {
    forall k | 0 <= k < |s.place|
      ensures k in Contents(s.queues[0]) <==> s.place[k].In? && s.place[k].queue == 0
    {
      var c := Contents(s.queues[0]);
      if s.place[k].In? && s.place[k].queue == 0 {
        PackedContents(s.queues[0]);
        assert c[s.place[k].index] == k;
      }
      if i :| 0 <= i < |c| && c[i] == k {
        assert s.queues[0][i] == To(k);
      }
    }
  }

  // ---------------------------------------------------------------- whole runs

  function Run(s: State, ops: seq<Op>): State
    decreases ops
  {
    if ops == [] then s else Run(Step(s, ops[0]), ops[1..])
  }

  predicate AllowedRun(s: State, ops: seq<Op>)
    decreases ops
  {
    ops != [] ==> Allowed(s, ops[0]) && AllowedRun(Step(s, ops[0]), ops[1..])
  }

  /** Ownership holds after every run of disciplined clients, from every consistent pool. */
  lemma {:induction false} RunKeepsInv(s: State, ops: seq<Op>)
    requires Inv(s) && AllowedRun(s, ops)
    ensures Inv(Run(s, ops))
    ensures |Run(s, ops).slots| == |s.slots| && |Run(s, ops).queues| == |s.queues|
    decreases ops
  {
    if ops != [] {
      StepKeepsInv(s, ops[0]);
      RunKeepsInv(Step(s, ops[0]), ops[1..]);
    }
  }

  function EnteringNow(op: Op, q: nat): seq<nat> {
    if op.Push? && op.queue == q && op.msg.To? then [op.msg.slot] else []
  }

  /** The slots put into queue q during a run, in order. */
  function Entered(ops: seq<Op>, q: nat): seq<nat> {
    if ops == [] then [] else EnteringNow(ops[0], q) + Entered(ops[1..], q)
  }

  /** The slots that one operation takes out of queue q. */
  function LeavingNow(s: State, op: Op, q: nat): seq<nat>
    requires q < |s.queues|
  {
    var c := Contents(s.queues[q]);
    if op == Pop(q) && c != [] then c[..1]
    else if op.FlushOutput? && q == 0 then c
    else []
  }

  /** The slots taken out of queue q during a run, in order. */
  function Left(s: State, ops: seq<Op>, q: nat): seq<nat>
    requires q < |s.queues|
    decreases ops
  {
    if ops == [] then []
    else LeavingNow(s, ops[0], q) + Left(Step(s, ops[0]), ops[1..], q)
  }

  /**
   Over every run, what leaves a queue and then what is still waiting is exactly what was
   waiting and then what entered: first in, first out, none lost, none duplicated.
   */
  lemma {:induction false} RunIsFifo(s: State, ops: seq<Op>, q: nat)
    requires Inv(s) && AllowedRun(s, ops) && q < |s.queues|
    ensures q < |Run(s, ops).queues|
    ensures Contents(s.queues[q]) + Entered(ops, q)
            == Left(s, ops, q) + Contents(Run(s, ops).queues[q])
    decreases ops
  {
    if ops == [] {
      assert Contents(s.queues[q]) + [] == [] + Contents(s.queues[q]);
    } else {
      var t := Step(s, ops[0]);
      StepIsFifo(s, ops[0], q);
      StepKeepsInv(s, ops[0]);
      RunIsFifo(t, ops[1..], q);
      Regroup(Contents(s.queues[q]), EnteringNow(ops[0], q), Entered(ops[1..], q),
              LeavingNow(s, ops[0], q), Contents(t.queues[q]),
              Left(t, ops[1..], q), Contents(Run(s, ops).queues[q]));
    }
  }

  lemma Regroup(waiting: seq<nat>, entering: seq<nat>, later: seq<nat>,
                leaving: seq<nat>, middle: seq<nat>, left: seq<nat>, end: seq<nat>)
    requires waiting + entering == leaving + middle
    requires middle + later == left + end
    ensures waiting + (entering + later) == leaving + left + end
  {
    assert waiting + (entering + later) == (waiting + entering) + later;
    assert leaving + left + end == leaving + (left + end);
    assert (leaving + middle) + later == leaving + (middle + later);
  }

  lemma StepIsFifo(s: State, op: Op, q: nat)
    requires Inv(s) && Allowed(s, op) && q < |s.queues|
    ensures q < |Step(s, op).queues|
    ensures Contents(s.queues[q]) + EnteringNow(op, q)
            == LeavingNow(s, op, q) + Contents(Step(s, op).queues[q])
  {
    if op.Push? && op.queue == q {
      PushIsFifo(s, q, op.msg);
    } else if op == Pop(q) {
      PopIsFifo(s, q);
    } else if op.FlushOutput? && q == 0 {
      FlushLeaks(s);
    } else {
      OtherQueueUntouched(s, op, q);
    }
  }

  lemma PushIsFifo(s: State, q: nat, msg: Ptr)
    requires Inv(s) && Allowed(s, Push(q, msg)) && q < |s.queues|
    ensures Contents(s.queues[q]) + EnteringNow(Push(q, msg), q) == Contents(Step(s, Push(q, msg)).queues[q])
  {
    if msg.To? {
      PushNeverLoses(s, q, msg.slot);
    } else {
      assert PushQueue(s.queues[q], msg) == s.queues[q];
    }
  }

  lemma PopIsFifo(s: State, q: nat)
    requires Inv(s) && q < |s.queues|
    ensures Contents(s.queues[q]) == LeavingNow(s, Pop(q), q) + Contents(Step(s, Pop(q)).queues[q])
  {
    var c := Contents(s.queues[q]);
    PopFreesOldest(s, q);
    assert c != [] ==> c == c[..1] + c[1..];
  }

  lemma OtherQueueUntouched(s: State, op: Op, q: nat)
    requires q < |s.queues|
    requires op.Push? || op.Pop? ==> op.queue != q
    requires op.FlushOutput? ==> q != 0
    ensures q < |Step(s, op).queues| && Step(s, op).queues[q] == s.queues[q]
  {
  }

  // ---------------------------------------------------------------- what the history tells

  /** What happens to a slot: it is handed out, written by its holder, or given back. */
  datatype Happening = Taken(slot: nat) | Written(slot: nat, len: nat) | Returned(slot: nat)

  /** An operation and its outcome: what allocation answered, what a pop found. */
  function HappensNow(s: State, op: Op): seq<Happening> {
    match op
    case GetFree => if Allocated(s).To? then [Taken(Allocated(s).slot)] else []
    case Release(msg) => if msg.To? then [Returned(msg.slot)] else []
    case Fill(k, len) => [Written(k, len)]
    case Pop(q) =>
      if q < |s.queues| && Contents(s.queues[q]) != [] then [Returned(Contents(s.queues[q])[0])] else []
    case _ => []
  }

  function History(s: State, ops: seq<Op>): seq<Happening>
    decreases ops
  {
    if ops == [] then [] else HappensNow(s, ops[0]) + History(Step(s, ops[0]), ops[1..])
  }

  /** The slot k as the last happening to it has left it; `before` if there is none. */
  function LastTold(history: seq<Happening>, k: nat, before: Slot): Slot {
    if history == [] then before
    else
      var last := history[|history| - 1];
      if last.slot != k then LastTold(history[..|history| - 1], k, before)
      else
        match last
        case Taken(_) => Slot(false, 0)
        case Written(_, len) => Slot(false, len)
        case Returned(_) => Slot(true, 0)
  }

  lemma {:induction false} ToldInTwoParts(a: seq<Happening>, b: seq<Happening>, k: nat, before: Slot)
    ensures LastTold(a + b, k, before) == LastTold(b, k, LastTold(a, k, before))
    decreases b
  {
    if b == [] {
      assert a + b == a;
    } else {
      var n := |b| - 1;
      assert (a + b)[..|a + b| - 1] == a + b[..n];
      ToldInTwoParts(a, b[..n], k, before);
    }
  }

  lemma StepTold(s: State, op: Op, k: nat)
    requires Inv(s) && Allowed(s, op) && k < |s.slots|
    ensures |Step(s, op).slots| == |s.slots|
    ensures Step(s, op).slots[k] == LastTold(HappensNow(s, op), k, s.slots[k])
  {
    match op
    case GetFree => AllocationIsFresh(s);
    case Release(msg) => ReleaseFrees(s, msg);
    case Pop(q) => PopTold(s, q, k);
    case _ =>
  }

  lemma PopTold(s: State, q: nat, k: nat)
    requires Inv(s) && k < |s.slots|
    ensures |Step(s, Pop(q)).slots| == |s.slots|
    ensures Step(s, Pop(q)).slots[k] == LastTold(HappensNow(s, Pop(q)), k, s.slots[k])
  {
    if q < |s.queues| {
      var c := Contents(s.queues[q]);
      PopFreesOldest(s, q);
      if c != [] {
        assert HappensNow(s, Pop(q)) == [Returned(c[0])];
        ReturnTold(c[0], k, s.slots[k]);
      }
    }
  }

  lemma ReturnTold(slot: nat, k: nat, before: Slot)
    ensures LastTold([Returned(slot)], k, before) == if slot == k then Slot(true, 0) else before
  {
  }

  /** Over every run, each slot is what the last happening to it says: taken, written and kept, or given back. */
  lemma {:induction false} RunTold(s: State, ops: seq<Op>, k: nat)
    requires Inv(s) && AllowedRun(s, ops) && k < |s.slots|
    ensures |Run(s, ops).slots| == |s.slots|
    ensures Run(s, ops).slots[k] == LastTold(History(s, ops), k, s.slots[k])
    decreases ops
  {
    if ops != [] {
      StepKeepsInv(s, ops[0]);
      StepTold(s, ops[0], k);
      RunTold(Step(s, ops[0]), ops[1..], k);
      ToldInTwoParts(HappensNow(s, ops[0]), History(Step(s, ops[0]), ops[1..]), k, s.slots[k]);
    }
  }

  /** The last thing that happened to slot k, if anything, is not that it was given back. */
  predicate IsOut(history: seq<Happening>, k: nat) {
    !LastTold(history, k, Slot(true, 0)).free
  }

  predicate AllOut(history: seq<Happening>, n: nat) {
    forall k :: 0 <= k < n ==> IsOut(history, k)
  }

  /** From the initial pool, allocation fails exactly when all slots are out: in use, waiting, or lost. */
  lemma AllocationFailsIff(n: nat, flows: nat, ops: seq<Op>)
    requires n > 0 && AllowedRun(Init(n, flows), ops)
    ensures Allocated(Run(Init(n, flows), ops)).Null? <==> AllOut(History(Init(n, flows), ops), n)
  {
    var s := Init(n, flows);
    InitInv(n, flows);
    RunKeepsInv(s, ops);
    var t := Run(s, ops);
    AllocationIsFresh(t);
    var history := History(s, ops);
    assert |t.slots| == |t.place| == n;
    forall k | 0 <= k < n ensures t.place[k] == Free <==> !IsOut(history, k) {
      RunTold(s, ops, k);
    }
    assert Allocated(t).Null? <==> AllOut(history, n);
  }

  /** A slot dropped by a flush is never handed out again, whatever disciplined clients do. */
  lemma {:induction false} LeakedForever(s: State, ops: seq<Op>, k: nat)
    requires Inv(s) && AllowedRun(s, ops) && k < |s.place| && s.place[k] == Leaked
    ensures k < |Run(s, ops).place| && Run(s, ops).place[k] == Leaked
    ensures Allocated(Run(s, ops)) != To(k)
    decreases ops
  {
    if ops != [] {
      StepKeepsInv(s, ops[0]);
      LeakedStays(s, ops[0], k);
      LeakedForever(Step(s, ops[0]), ops[1..], k);
    } else {
      AllocationIsFresh(s);
    }
  }

  lemma LeakedStays(s: State, op: Op, k: nat)
    requires Inv(s) && Allowed(s, op) && k < |s.place| && s.place[k] == Leaked
    ensures k < |Step(s, op).place| && Step(s, op).place[k] == Leaked
  {
  }

  /** Some flush of the run finds a message in the output queue. */
  predicate FlushesMessages(s: State, ops: seq<Op>)
    requires Inv(s) && AllowedRun(s, ops)
    decreases ops
  {
    ops != [] &&
    (StepKeepsInv(s, ops[0]);
     (ops[0].FlushOutput? && Contents(s.queues[0]) != []) || FlushesMessages(Step(s, ops[0]), ops[1..]))
  }

  ghost predicate LeakFree(s: State) {
    forall k :: 0 <= k < |s.place| ==> s.place[k] != Leaked
  }

  /** A run loses slots exactly when one of its flushes finds a message waiting. */
  lemma {:induction false} RunLeaksIff(s: State, ops: seq<Op>)
    requires Inv(s) && AllowedRun(s, ops) && LeakFree(s)
    ensures LeakFree(Run(s, ops)) <==> !FlushesMessages(s, ops)
    decreases ops
  {
    if ops != [] {
      var t := Step(s, ops[0]);
      StepKeepsInv(s, ops[0]);
      StepLeaksIff(s, ops[0]);
      if LeakFree(t) {
        RunLeaksIff(t, ops[1..]);
      } else {
        var k :| 0 <= k < |t.place| && t.place[k] == Leaked;
        LeakedForever(t, ops[1..], k);
      }
    }
  }

  lemma StepLeaksIff(s: State, op: Op)
    requires Inv(s) && Allowed(s, op) && LeakFree(s)
    ensures LeakFree(Step(s, op)) <==> !(op.FlushOutput? && Contents(s.queues[0]) != [])
  {
    if op.FlushOutput? {
      FlushLeaks(s);
      var c := Contents(s.queues[0]);
      if c != [] {
        assert s.queues[0][0] == To(c[0]);
        assert Step(s, op).place[c[0]] == Leaked;
      }
    }
  }

  /** As many waiting messages as there are slots: every slot is one of them. */
  lemma FullQueueHoldsAll(s: State)
    requires Inv(s) && |Contents(s.queues[0])| == |s.slots|
    ensures forall k :: 0 <= k < |s.place| ==> k in Contents(s.queues[0])
  {
    var c := Contents(s.queues[0]);
    forall i, j | 0 <= i < j < |c| ensures c[i] != c[j] {
      assert s.queues[0][i] == To(c[i]) && s.queues[0][j] == To(c[j]);
    }
    forall i | 0 <= i < |c| ensures c[i] < |s.slots| {
      assert s.queues[0][i] == To(c[i]);
    }
    forall k | 0 <= k < |s.place| && k !in c ensures false {
      Pigeonhole(c + [k], |s.slots|);
    }
  }

  /** Once a full output queue has timed out, no allocation ever succeeds again. */
  lemma FlushedFullPoolIsDead(s: State, ops: seq<Op>)
    requires Inv(s) && |Contents(s.queues[0])| == |s.slots|
    requires AllowedRun(Step(s, FlushOutput), ops)
    ensures Allocated(Run(Step(s, FlushOutput), ops)) == Null
  {
    var t := Step(s, FlushOutput);
    StepKeepsInv(s, FlushOutput);
    FlushLeaks(s);
    FullQueueHoldsAll(s);
    forall k | 0 <= k < |s.place| ensures Allocated(Run(t, ops)) != To(k) {
      LeakedForever(t, ops, k);
    }
    RunKeepsInv(t, ops);
    AllocationIsFresh(Run(t, ops));
  }

  /** Allocate a slot and queue it for output, m times. */
  function FillOutput(s: State, m: nat): seq<Op>
    decreases m
  {
    if m == 0 then [] else
    var ops := [GetFree, Push(0, Allocated(s))];
    ops + FillOutput(Run(s, ops), m - 1)
  }

  /** Only free slots and slots waiting for output. */
  predicate OnlyOutput(s: State) {
    forall k :: 0 <= k < |s.place| ==> s.place[k] == Free || (s.place[k].In? && s.place[k].queue == 0)
  }

  lemma SomeSlotIsFree(s: State)
    requires Inv(s) && OnlyOutput(s) && |Contents(s.queues[0])| < |s.slots|
    ensures Allocated(s).To?
  {
    AllocationIsFresh(s);
    if Allocated(s).Null? {
      var n := |Contents(s.queues[0])|;
      var indices: seq<nat> := seq(|s.slots|, k requires 0 <= k < |s.slots| => s.place[k].index);
      forall k | 0 <= k < |s.slots| ensures s.place[k].In? && indices[k] < n && s.queues[0][indices[k]] == To(k) {
        PackedContents(s.queues[0]);
      }
      Pigeonhole(indices, n);
    }
  }

  lemma FillRound(s: State)
    requires Inv(s) && OnlyOutput(s) && |Contents(s.queues[0])| < |s.slots|
    ensures var ops := [GetFree, Push(0, Allocated(s))];
            && AllowedRun(s, ops)
            && var t := Run(s, ops);
               && Inv(t) && OnlyOutput(t) && |t.slots| == |s.slots|
               && |Contents(t.queues[0])| == |Contents(s.queues[0])| + 1
  {
    SomeSlotIsFree(s);
    AllocationIsFresh(s);
    var k := Allocated(s).slot;
    var held := Step(s, GetFree);
    StepKeepsInv(s, GetFree);
    StepKeepsInv(held, Push(0, To(k)));
    PushNeverLoses(held, 0, k);
    RunOfTwo(s, GetFree, Push(0, To(k)));
  }

  lemma RunOfTwo(s: State, a: Op, b: Op)
    ensures Run(s, [a, b]) == Step(Step(s, a), b)
    ensures AllowedRun(s, [a, b]) <==> Allowed(s, a) && Allowed(Step(s, a), b)
  {
    assert [a, b][1..] == [b] && [b][1..] == [];
    assert Run(Step(s, a), [b]) == Step(Step(s, a), b);
    assert AllowedRun(Step(s, a), [b]) <==> Allowed(Step(s, a), b);
  }

  lemma {:induction false} RunInTwoParts(s: State, a: seq<Op>, b: seq<Op>)
    ensures Run(s, a + b) == Run(Run(s, a), b)
    ensures AllowedRun(s, a) && AllowedRun(Run(s, a), b) ==> AllowedRun(s, a + b)
    decreases a
  {
    if a == [] {
      assert a + b == b;
    } else {
      assert (a + b)[1..] == a[1..] + b;
      RunInTwoParts(Step(s, a[0]), a[1..], b);
    }
  }

  lemma {:induction false} FillOutputFills(s: State, m: nat)
    requires Inv(s) && OnlyOutput(s) && |Contents(s.queues[0])| + m == |s.slots|
    ensures AllowedRun(s, FillOutput(s, m))
    ensures var t := Run(s, FillOutput(s, m));
            Inv(t) && |Contents(t.queues[0])| == |t.slots|
    decreases m
  {
    if m > 0 {
      var ops := [GetFree, Push(0, Allocated(s))];
      FillRound(s);
      FillOutputFills(Run(s, ops), m - 1);
      RunInTwoParts(s, ops, FillOutput(Run(s, ops), m - 1));
    }
  }

  /**
   Disciplined clients can exhaust the pool for good: allocate and send every slot, let the
   output queue time out, and whatever follows, no allocation succeeds.
   */
  lemma PoolCanBeExhausted(n: nat, flows: nat, later: seq<Op>)
    requires n > 0
    ensures var ops := FillOutput(Init(n, flows), n) + [FlushOutput];
            && AllowedRun(Init(n, flows), ops)
            && (AllowedRun(Run(Init(n, flows), ops), later) ==>
                  Allocated(Run(Run(Init(n, flows), ops), later)) == Null)
  {
    var s := Init(n, flows);
    InitInv(n, flows);
    assert Contents(s.queues[0]) == [];
    FillOutputFills(s, n);
    var full := Run(s, FillOutput(s, n));
    RunInTwoParts(s, FillOutput(s, n), [FlushOutput]);
    assert [FlushOutput][1..] == [];
    assert Run(full, [FlushOutput]) == Step(full, FlushOutput);
    if AllowedRun(Step(full, FlushOutput), later) {
      FlushedFullPoolIsDead(full, later);
    }
  }

  // ---------------------------------------------------------------- the C globals

  /**
   messagePool, outputQueue and inputQueues with the functions that change them in place. The
   ghost field `state` is the abstract pool that the arrays show.
   */
  class Manager {
    const messagePool: array<Slot>
    const outputQueue: array<Ptr>
    const inputQueues: seq<array<Ptr>>
    ghost var state: State

    ghost predicate Valid()
      reads this, messagePool, outputQueue, inputQueues
    {
      && outputQueue !in inputQueues
      && (forall i, j :: 0 <= i < j < |inputQueues| ==> inputQueues[i] != inputQueues[j])
      && outputQueue.Length == messagePool.Length > 0
      && state.slots == messagePool[..]
      && |state.queues| == 1 + |inputQueues|
      && state.queues[0] == outputQueue[..]
      && (forall i :: 0 <= i < |inputQueues| ==>
            && inputQueues[i].Length == messagePool.Length
            && state.queues[1 + i] == inputQueues[i][..])
    }

    /** messagePool_init, on arrays allocated with the lengths the header fixes. */
    constructor (n: nat, flows: nat)
      requires n > 0
      ensures Valid() && state == Init(n, flows) && Inv(state)
      ensures fresh(messagePool) && fresh(outputQueue) && fresh(inputQueues)
    {
      var pool := new Slot[n](_ => Slot(true, 0));
      var output := new Ptr[n](_ => Null);
      var rows: seq<array<Ptr>> := [];
      for i := 0 to flows
        invariant |rows| == i
        invariant forall k :: 0 <= k < i ==> fresh(rows[k]) && rows[k][..] == Nulls(n)
        invariant forall j, k :: 0 <= j < k < i ==> rows[j] != rows[k]
        invariant output !in rows && output[..] == Nulls(n)
        invariant pool[..] == Init(n, flows).slots
      {
        var row := new Ptr[n](_ => Null);
        rows := rows + [row];
      }
      messagePool := pool;
      outputQueue := output;
      inputQueues := rows;
      state := Init(n, flows);
      InitInv(n, flows);
    }

    /** messagePool_getFreeSlot */
    method GetFreeSlot() returns (msg: Ptr)
      requires Valid()
      modifies this, messagePool
      ensures Valid() && state == Step(old(state), GetFree)
      ensures msg == Allocated(old(state))
    {
      msg := Null;
      var i := 0;
      while i < outputQueue.Length
        invariant 0 <= i <= messagePool.Length
        invariant i <= FirstFree(messagePool[..])
        invariant unchanged(this) && unchanged(messagePool)
      {
        if messagePool[i].free {
          msg := To(i);
          messagePool[i] := messagePool[i].(free := false);
          break;
        }
        i := i + 1;
      }
      state := Step(state, GetFree);
    }

    /** messagePool_releaseSlot, for NULL or a pointer into the pool. */
    method ReleaseSlot(msg: Ptr)
      requires Valid() && (msg.To? ==> msg.slot < messagePool.Length)
      modifies this, messagePool
      ensures Valid() && state == Step(old(state), Release(msg))
    {
      ClearSlot(messagePool, msg);
      state := Step(state, Release(msg));
    }

    /** messagePool_pendingOutputMessage */
    method PendingOutputMessage() returns (pending: bool)
      requires Valid() && Inv(state)
      ensures pending <==> Contents(state.queues[0]) != []
    {
      PackedContents(state.queues[0]);
      pending := AnyEntry(outputQueue);
    }

    /** messagePool_pushOutputQueue */
    method PushOutputQueue(msg: Ptr)
      requires Valid()
      modifies this, outputQueue
      ensures Valid() && state == Step(old(state), Push(0, msg))
    {
      StoreFirstNull(outputQueue, msg);
      state := Step(state, Push(0, msg));
    }

    /** messagePool_peekOutputQueue */
    method PeekOutputQueue() returns (msg: Ptr)
      requires Valid() && Inv(state)
      ensures var c := Contents(state.queues[0]); msg == if c == [] then Null else To(c[0])
    {
      PackedContents(state.queues[0]);
      return outputQueue[0];
    }

    /** messagePool_popOutputQueue */
    method PopOutputQueue()
      requires Valid() && Inv(state)
      modifies this, messagePool, outputQueue
      ensures Valid() && state == Step(old(state), Pop(0))
    {
      assert state.queues[0][0] == outputQueue[0];
      ClearSlot(messagePool, outputQueue[0]);
      ShiftOut(outputQueue);
      state := Step(state, Pop(0));
    }

    /** messagePool_flushOutputQueue */
    method FlushOutputQueue()
      requires Valid()
      modifies this, outputQueue
      ensures Valid() && state == Step(old(state), FlushOutput)
    {
      for i := 0 to outputQueue.Length
        invariant forall k :: 0 <= k < i ==> outputQueue[k] == Null
        invariant unchanged(this)
      {
        outputQueue[i] := Null;
      }
      assert outputQueue[..] == Nulls(outputQueue.Length);
      state := Step(state, FlushOutput);
    }

    /** messagePool_pendingInputMessage: false for a flow that does not exist. */
    method PendingInputMessage(flow: nat) returns (pending: bool)
      requires Valid() && Inv(state)
      ensures pending <==> flow < |inputQueues| && Contents(state.queues[1 + flow]) != []
    {
      pending := false;
      if flow < |inputQueues| {
        PackedContents(state.queues[1 + flow]);
        pending := AnyEntry(inputQueues[flow]);
      }
    }

    /** messagePool_pushInputQueue: a flow that does not exist takes nothing. */
    method PushInputQueue(flow: nat, msg: Ptr)
      requires Valid()
      modifies this, inputQueues
      ensures Valid() && state == Step(old(state), Push(1 + flow, msg))
    {
      if flow < |inputQueues| {
        StoreFirstNull(inputQueues[flow], msg);
      }
      state := Step(state, Push(1 + flow, msg));
    }

    /** messagePool_peekInputQueue: NULL for a flow that does not exist. */
    method PeekInputQueue(flow: nat) returns (msg: Ptr)
      requires Valid() && Inv(state)
      ensures msg == if flow < |inputQueues| && Contents(state.queues[1 + flow]) != []
                     then To(Contents(state.queues[1 + flow])[0]) else Null
    {
      if flow < |inputQueues| {
        PackedContents(state.queues[1 + flow]);
        return inputQueues[flow][0];
      }
      return Null;
    }

    /** messagePool_popInputQueue */
    method PopInputQueue(flow: nat)
      requires Valid() && Inv(state)
      modifies this, messagePool, inputQueues
      ensures Valid() && state == Step(old(state), Pop(1 + flow))
    {
      if flow < |inputQueues| {
        assert state.queues[1 + flow][0] == inputQueues[flow][0];
        ClearSlot(messagePool, inputQueues[flow][0]);
        ShiftOut(inputQueues[flow]);
      }
      state := Step(state, Pop(1 + flow));
    }

    // What the C file repeats for its output and its input queues.

    static method AnyEntry(queue: array<Ptr>) returns (pending: bool)
      ensures pending <==> exists i :: 0 <= i < queue.Length && queue[i].To?
    {
      for i := 0 to queue.Length
        invariant forall k :: 0 <= k < i ==> queue[k].Null?
      {
        if queue[i] != Null {
          return true;
        }
      }
      return false;
    }

    static method ClearSlot(pool: array<Slot>, msg: Ptr)
      requires msg.To? ==> msg.slot < pool.Length
      modifies pool
      ensures pool[..] == Released(old(pool[..]), msg)
    {
      if msg != Null {
        pool[msg.slot] := Slot(true, 0);
      }
    }

    static method StoreFirstNull(queue: array<Ptr>, msg: Ptr)
      modifies queue
      ensures queue[..] == PushQueue(old(queue[..]), msg)
    {
      var i := 0;
      while i < queue.Length
        invariant 0 <= i <= FirstNull(queue[..])
        invariant unchanged(queue)
      {
        if queue[i] == Null {
          queue[i] := msg;
          break;
        }
        i := i + 1;
      }
    }

    static method ShiftOut(queue: array<Ptr>)
      requires queue.Length > 0
      modifies queue
      ensures queue[..] == PopQueue(old(queue[..]))
    {
      for i := 0 to queue.Length - 1
        invariant forall k :: 0 <= k < i ==> queue[k] == old(queue[k + 1])
        invariant forall k :: i <= k < queue.Length ==> queue[k] == old(queue[k])
      {
        queue[i] := queue[i + 1];
      }
      queue[queue.Length - 1] := Null;
    }
  }
}
