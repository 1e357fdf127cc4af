/**
 The digit clock of the MPXH bus (mpxhTimeDate.c): fourteen decimal digits kept by a 4 ms
 handler, and their transfer to another device one nibble per message.
 */
module TimeDate {
  import opened Words

  const HORA2: nat := 8
  const SEG1: nat := 13
  const DIGITS: nat := 14

  // ---------------------------------------------------------------- the time of day

  /** timeAndDate[8..13]: h h m m s s */
  datatype Time = Time(h2: Byte, h1: Byte, m2: Byte, m1: Byte, s2: Byte, s1: Byte)

  predicate ValidTime(t: Time) {
    && t.s1 <= 9 && t.s2 <= 5 && t.m1 <= 9 && t.m2 <= 5
    && ((t.h2 <= 1 && t.h1 <= 9) || (t.h2 == 2 && t.h1 <= 3))
  }

  function Seconds(t: Time): nat {
    36000 * t.h2 + 3600 * t.h1 + 600 * t.m2 + 60 * t.m1 + 10 * t.s2 + t.s1
  }

  /** The hour digits an hour later, and whether they carry into the day. */
  function HourPassed(h2: Byte, h1: Byte): (Byte, Byte, bool) {
    var next := Inc(h1);
    if !((h2 < 2 && next > 9) || (h2 == 2 && next > 3)) then (h2, next, false)
    else if Inc(h2) <= 2 then (Inc(h2), 0, false)
    else (0, 0, true)
  }

  /** One minute, from a full minute on. */
  function MinutePassed(t: Time): (Time, bool) {
    var m1 := Inc(t.m1);
    if m1 <= 9 then (Time(t.h2, t.h1, t.m2, m1, 0, 0), false) else
    var m2 := Inc(t.m2);
    if m2 <= 5 then (Time(t.h2, t.h1, m2, 0, 0, 0), false) else
    var (h2, h1, carry) := HourPassed(t.h2, t.h1);
    (Time(h2, h1, 0, 0, 0, 0), carry)
  }

  /** One second: the digits after the carry cascade, and whether it carries into the day. */
  function SecondPassed(t: Time): (Time, bool) {
    var s1 := Inc(t.s1);
    if s1 <= 9 then (Time(t.h2, t.h1, t.m2, t.m1, t.s2, s1), false) else
    var s2 := Inc(t.s2);
    if s2 <= 5 then (Time(t.h2, t.h1, t.m2, t.m1, s2, 0), false)
    else MinutePassed(t)
  }

  /** The clock with the tick counter timer_250 and the number of carries into the day so far. */
  datatype Clock = Clock(time: Time, timer: Byte, days: nat)

  function Tick(c: Clock): Clock {
    var timer := Inc(c.timer);
    if timer == 250 then
      var (time, carry) := SecondPassed(c.time);
      Clock(time, 0, if carry then c.days + 1 else c.days)
    else c.(timer := timer)
  }

  function Ticks(c: Clock, n: nat): Clock {
    if n == 0 then c else Tick(Ticks(c, n - 1))
  }

  /** All seconds counted so far, days included. */
  function Elapsed(c: Clock): nat {
    86400 * c.days + Seconds(c.time)
  }

  /** The cascade is a counter modulo 86400 in disguise. */
  lemma SecondPassedCounts(t: Time)
    requires ValidTime(t)
    ensures var (t', carry) := SecondPassed(t);
            && ValidTime(t')
            && Seconds(t) < 86400
            && Seconds(t') == (if Seconds(t) == 86399 then 0 else Seconds(t) + 1)
            && (carry <==> Seconds(t) == 86399)
  {
    SecondsBelowDay(t);
    if t.s1 == 9 && t.s2 == 5 && t.m1 == 9 && t.m2 == 5 {
      HourPasses(t);
    } else {
      SecondPassesWithinHour(t);
    }
  }

  lemma SecondPassesWithinHour(t: Time)
    requires ValidTime(t) && !(t.s1 == 9 && t.s2 == 5 && t.m1 == 9 && t.m2 == 5)
    ensures var (t', carry) := SecondPassed(t);
            ValidTime(t') && !carry && Seconds(t') == Seconds(t) + 1
  {
  }

  lemma HourPasses(t: Time)
    requires ValidTime(t) && t.s1 == 9 && t.s2 == 5 && t.m1 == 9 && t.m2 == 5
    ensures var (t', carry) := SecondPassed(t);
            && ValidTime(t') && (carry <==> t == LAST_SECOND)
            && Seconds(t') == if carry then 0 else Seconds(t) + 1
  {
    HourCounts(t.h2, t.h1);
    FullHour(t);
  }

  lemma FullHour(t: Time)
    requires t.s1 == 9 && t.s2 == 5 && t.m1 == 9 && t.m2 == 5
    ensures var (h2, h1, carry) := HourPassed(t.h2, t.h1);
            SecondPassed(t) == (Time(h2, h1, 0, 0, 0, 0), carry)
    ensures Seconds(t) == 3600 * (10 * t.h2 + t.h1) + 3599
  {
  }

  lemma HourCounts(h2: Byte, h1: Byte)
    requires (h2 <= 1 && h1 <= 9) || (h2 == 2 && h1 <= 3)
    ensures var (h2', h1', carry) := HourPassed(h2, h1);
            && ((h2' <= 1 && h1' <= 9) || (h2' == 2 && h1' <= 3))
            && (carry <==> h2 == 2 && h1 == 3)
            && 10 * h2' as int + h1' == if carry then 0 else 10 * h2 as int + h1 + 1
  {
  }

  const LAST_SECOND := Time(2, 3, 5, 9, 5, 9)

  lemma SecondsBelowDay(t: Time)
    requires ValidTime(t)
    ensures Seconds(t) < 86400
    ensures Seconds(t) == 86399 <==> t == LAST_SECOND
  {
  }

  /** The tick counter as a distance from the last second: a value of 250 or more must wrap first. */
  function Phase(timer: Byte): int {
    if timer < 250 then timer else timer - 256
  }

  /** From any counter value, seconds pass at the ticks where phase + n reaches a multiple of 250. */
  lemma {:induction false} TicksCount(c: Clock, n: nat)
    requires ValidTime(c.time)
    ensures var t, reached := Ticks(c, n), Phase(c.timer) + n;
            && ValidTime(t.time)
            && Phase(t.timer) == (if reached < 0 then reached else reached % 250)
            && Elapsed(t) == Elapsed(c) + (if reached < 0 then 0 else reached / 250)
  {
    if n > 0 {
      TicksCount(c, n - 1);
      TickCounts(Ticks(c, n - 1));
      NextMultiple(Phase(c.timer) + (n - 1));
    }
  }

  lemma TickCounts(c: Clock)
    requires ValidTime(c.time)
    ensures var t, due := Tick(c), Phase(c.timer) + 1 == 250;
            && ValidTime(t.time)
            && Phase(t.timer) == (if due then 0 else Phase(c.timer) + 1)
            && Elapsed(t) == Elapsed(c) + (if due then 1 else 0)
  {
    SecondPassedCounts(c.time);
  }

  lemma NextMultiple(x: int)
    ensures x >= 0 ==> (if x % 250 == 249 then (x + 1) % 250 == 0 && (x + 1) / 250 == x / 250 + 1
                        else (x + 1) % 250 == x % 250 + 1 && (x + 1) / 250 == x / 250)
  {
  }

  /** The digits and the day carries after n ticks, as a counter modulo 86400 predicts them. */
  predicate CountsAsExpected(c: Clock, n: nat) {
    var t, seconds := Ticks(c, n), Seconds(c.time) + (c.timer + n) / 250;
    && ValidTime(t.time)
    && Seconds(t.time) == seconds % 86400
    && t.days == c.days + seconds / 86400
  }

  /** The digit clock refines the counter for all numbers of ticks exactly when its tick counter is below 250. */
  lemma DigitClockRefinesCounter(c: Clock)
    requires ValidTime(c.time)
    ensures (forall n :: CountsAsExpected(c, n)) <==> c.timer < 250
  {
    if c.timer < 250 {
      forall n: nat ensures CountsAsExpected(c, n) {
        TicksCount(c, n);
        SecondsBelowDay(c.time);
        SecondsBelowDay(Ticks(c, n).time);
        DaySplit(c.days, Seconds(c.time) + (c.timer + n) / 250, Ticks(c, n));
      }
    } else {
      SecondsBelowDay(c.time);
      assert !CountsAsExpected(c, 0);
    }
  }

  /** Fewer seconds have been counted than the ticks make up. */
  predicate Behind(c: Clock, n: nat) {
    Elapsed(Ticks(c, n)) < Elapsed(c) + n / 250
  }

  /**
   The clock never falls behind exactly when its tick counter is below 250; from any other value
   it first does so at the 250th tick.
   */
  lemma NeverBehindIff(c: Clock)
    requires ValidTime(c.time)
    ensures (forall n: nat :: !Behind(c, n)) <==> c.timer < 250
    ensures c.timer >= 250 ==> Behind(c, 250) && forall n: nat :: n < 250 ==> !Behind(c, n)
  {
    forall n: nat ensures c.timer < 250 || n < 250 ==> !Behind(c, n) {
      TicksCount(c, n);
    }
    if c.timer >= 250 {
      TicksCount(c, 250);
      assert Behind(c, 250);
    }
  }

  lemma DaySplit(days: nat, seconds: nat, t: Clock)
    requires Seconds(t.time) < 86400 && Elapsed(t) == 86400 * days + seconds
    ensures Seconds(t.time) == seconds % 86400 && t.days == days + seconds / 86400
  {
  }

  // Digits that are no time of day: a transfer may bring any nibbles.

  predicate Nibbles(t: Time) {
    t.h2 < 16 && t.h1 < 16 && t.m2 < 16 && t.m1 < 16 && t.s2 < 16 && t.s1 < 16
  }

  function SecondsLater(t: Time, n: nat): Time {
    if n == 0 then t else SecondPassed(SecondsLater(t, n - 1)).0
  }

  lemma {:induction false} OneSecondFirst(t: Time, n: nat)
    ensures SecondsLater(t, n + 1) == SecondsLater(SecondPassed(t).0, n)
  {
    if n > 0 {
      OneSecondFirst(t, n - 1);
    }
  }

  function Short(digit: Byte, limit: nat): nat {
    if digit < limit then limit - digit else 0
  }

  /** The seconds before the last one of the hour, as the digits count. */
  function LeftInHour(t: Time): nat {
    600 * Short(t.m2, 5) + 60 * Short(t.m1, 9) + 10 * Short(t.s2, 5) + Short(t.s1, 9)
  }

  /** Until the hour passes, whatever the digits, they count down to it; then minutes and seconds are zero. */
  lemma CountsDownToHour(t: Time)
    requires Nibbles(t)
    ensures var t' := SecondPassed(t).0;
            if LeftInHour(t) > 0 then
              Nibbles(t') && t'.h2 == t.h2 && t'.h1 == t.h1 && LeftInHour(t') == LeftInHour(t) - 1
            else t' == Time(HourPassed(t.h2, t.h1).0, HourPassed(t.h2, t.h1).1, 0, 0, 0, 0)
  {
  }

  lemma {:induction false} HourComes(t: Time)
    requires Nibbles(t)
    ensures SecondsLater(t, LeftInHour(t) + 1) == Time(HourPassed(t.h2, t.h1).0, HourPassed(t.h2, t.h1).1, 0, 0, 0, 0)
    decreases LeftInHour(t)
  {
    CountsDownToHour(t);
    OneSecondFirst(t, LeftInHour(t));
    if LeftInHour(t) > 0 {
      HourComes(SecondPassed(t).0);
    }
  }

  lemma {:induction false} HourStuck(t: Time, n: nat)
    requires t.h2 > 2
    ensures SecondsLater(t, n).h2 == t.h2
  {
    if n > 0 {
      HourStuck(t, n - 1);
    }
  }

  /**
   From any nibbles the clock returns to a time of day exactly if the first digit of the hour is at
   most two, and then within the hour; otherwise that digit never changes again.
   */
  lemma RecoversIff(t: Time)
    requires Nibbles(t)
    ensures (exists n: nat :: ValidTime(SecondsLater(t, n))) <==> t.h2 <= 2
    ensures t.h2 <= 2 ==> LeftInHour(t) < 3600 && ValidTime(SecondsLater(t, LeftInHour(t) + 1))
    ensures t.h2 > 2 ==> forall n: nat :: SecondsLater(t, n).h2 == t.h2
  {
    HourComes(t);
    forall n: nat ensures t.h2 > 2 ==> SecondsLater(t, n).h2 == t.h2 {
      if t.h2 > 2 {
        HourStuck(t, n);
      }
    }
  }

  /** mpxhTimeDate_vinoMinutoPatron: round to the minute mark. */
  function MinuteMark(c: Clock): Clock {
    if c.time.s2 >= 3 then c.(time := c.time.(s2 := 5, s1 := 9), timer := 250)
    else c.(time := c.time.(s2 := 0, s1 := 0))
  }

  /** The seconds become 00 in the first half of the minute and 59 in the second; minutes and hours stay. */
  lemma MinuteMarkRounds(c: Clock)
    requires ValidTime(c.time)
    ensures var t, seconds := MinuteMark(c), Seconds(c.time);
            && ValidTime(t.time) && t.days == c.days
            && Seconds(t.time) == seconds - seconds % 60 + (if seconds % 60 < 30 then 0 else 59)
            && t.timer == if seconds % 60 < 30 then c.timer else 250
  {
    MinuteSeconds(c.time);
  }

  lemma MinuteSeconds(t: Time)
    requires t.s2 <= 5 && t.s1 <= 9
    ensures Seconds(t) % 60 == 10 * t.s2 + t.s1
  {
  }

  /** Rounded up, the clock stands still for 255 ticks and completes the minute with the 256th. */
  lemma MinuteMarkDelays(c: Clock, n: nat)
    requires ValidTime(c.time) && c.time.s2 >= 3
    ensures n < 256 ==> Elapsed(Ticks(MinuteMark(c), n)) == Elapsed(MinuteMark(c))
    ensures n == 256 ==> Elapsed(Ticks(MinuteMark(c), n)) == Elapsed(MinuteMark(c)) + 1
  {
    TicksCount(MinuteMark(c), n);
  }

  // ---------------------------------------------------------------- the transfer

  /** mpxh_ArmaMensaje(high, low, ...) */
  datatype Message = Message(high: Byte, low: Byte)

  const BEGIN_DATE_TIME := Message(0x0a, 0x90)
  const BEGIN_TIME := Message(0x0a, 0xa0)

  /** Both halves of a byte exchanged (inc/basicDefinitions.h:10, cut to the byte parameter). */
  function NibbleSwap(b: Byte): Byte {
    b / 16 + b % 16 * 16
  }

  datatype Sender = Sender(digits: seq<Byte>, ptrOut: Byte, beginTime: bool, beginDateTime: bool)

  predicate ValidSender(s: Sender) {
    |s.digits| == DIGITS
  }

  /** mpxhTimeDate_sendNextNibble; at most one message leaves. */
  function SendNext(s: Sender, busy: bool): (r: (Sender, seq<Message>))
    requires ValidSender(s)
    ensures ValidSender(r.0)
  {
    if s.ptrOut > SEG1 || busy then (s, [])
    else if s.beginDateTime then (s.(beginDateTime := false), [BEGIN_DATE_TIME])
    else if s.beginTime then (s.(beginTime := false), [BEGIN_TIME])
    else (s.(ptrOut := s.ptrOut + 1), [Message(0x0c, NibbleSwap(s.digits[s.ptrOut]))])
  }

  /** Everything emitted while the bus follows the given busy pattern, one call per entry. */
  function Emitted(s: Sender, busy: seq<bool>): seq<Message>
    requires ValidSender(s)
    decreases busy
  {
    if busy == [] then []
    else var (s', sent) := SendNext(s, busy[0]); sent + Emitted(s', busy[1..])
  }

  function IdleCalls(busy: seq<bool>): nat {
    if busy == [] then 0 else (if busy[0] then 0 else 1) + IdleCalls(busy[1..])
  }

  function NibbleMessages(digits: seq<Byte>): (m: seq<Message>)
    ensures |m| == |digits|
    ensures forall i :: 0 <= i < |m| ==> m[i] == Message(0x0c, NibbleSwap(digits[i]))
  {
    seq(|digits|, i requires 0 <= i < |digits| => Message(0x0c, NibbleSwap(digits[i])))
  }

  /** The messages a sender still has to send. */
  function Outstanding(s: Sender): seq<Message>
    requires ValidSender(s)
  {
    if s.ptrOut > SEG1 then [] else
    (if s.beginDateTime then [BEGIN_DATE_TIME] else [])
    + (if s.beginTime then [BEGIN_TIME] else [])
    + NibbleMessages(s.digits[s.ptrOut..])
  }

  function Min(a: nat, b: nat): nat {
    if a < b then a else b
  }

  /** Under every busy pattern the outstanding messages leave in order, one per idle call, and then nothing. */
  lemma {:induction false} EmitsOutstanding(s: Sender, busy: seq<bool>)
    requires ValidSender(s)
    ensures var out := Outstanding(s);
            Emitted(s, busy) == out[..Min(IdleCalls(busy), |out|)]
    decreases busy
  {
    if busy != [] {
      var (s', sent) := SendNext(s, busy[0]);
      EmitsOutstanding(s', busy[1..]);
      SendTakesHead(s, busy[0]);
      PrefixGrows(sent, Outstanding(s'), IdleCalls(busy[1..]));
    }
  }

  lemma PrefixGrows(sent: seq<Message>, rest: seq<Message>, n: nat)
    ensures sent + rest[..Min(n, |rest|)] == (sent + rest)[..Min(|sent| + n, |sent + rest|)]
  {
  }

  lemma SendTakesHead(s: Sender, busy: bool)
    requires ValidSender(s)
    ensures var (s', sent) := SendNext(s, busy);
            && Outstanding(s) == sent + Outstanding(s')
            && |sent| == (if busy || Outstanding(s) == [] then 0 else 1)
  {
    if s.ptrOut <= SEG1 && !busy && !s.beginDateTime && !s.beginTime {
      var rest := s.digits[s.ptrOut + 1..];
      assert s.digits[s.ptrOut..] == [s.digits[s.ptrOut]] + rest;
      assert NibbleMessages(s.digits[s.ptrOut..])
          == [Message(0x0c, NibbleSwap(s.digits[s.ptrOut]))] + NibbleMessages(rest);
    }
  }

  /** `past` counts the nibbles written past the end of the mirror array; what they overwrite is not modelled. */
  datatype Receiver = Receiver(digits: seq<Byte>, mirror: seq<Byte>, ptrIn: Byte, ptrSet: Byte,
                               newTimeDate: bool, raised: nat, past: nat)

  predicate ValidReceiver(r: Receiver) {
    |r.digits| == |r.mirror| == DIGITS && r.ptrSet < DIGITS
  }

  /** The digits after mirror[from..13) has been copied: the last digit is never reached. */
  function CopyMirror(digits: seq<Byte>, mirror: seq<Byte>, from: nat): (d: seq<Byte>)
    requires |digits| == |mirror| == DIGITS && from <= SEG1
    ensures |d| == DIGITS
  {
    digits[..from] + mirror[from..SEG1] + digits[SEG1..]
  }

  /** mpxhTimeDate_newNibble */
  function NewNibble(r: Receiver, nibble: Byte): (r': Receiver)
    requires ValidReceiver(r)
    ensures ValidReceiver(r')
  {
    var stored := if r.ptrIn <= SEG1 then r.(mirror := r.mirror[r.ptrIn := NibbleSwap(nibble) % 16])
                  else r.(past := r.past + 1);
    var next := stored.(ptrIn := Inc(r.ptrIn));
    if next.ptrIn > SEG1 then
      next.(digits := CopyMirror(r.digits, next.mirror, r.ptrSet), newTimeDate := true, raised := r.raised + 1)
    else next
  }

  /** How a device reacts to the messages of a transfer (dateTime.c:863-891). */
  function Receive(r: Receiver, m: Message): (r': Receiver)
    requires ValidReceiver(r)
    ensures ValidReceiver(r')
  {
    if m == BEGIN_DATE_TIME then r.(ptrIn := 0, ptrSet := 0)
    else if m == BEGIN_TIME then r.(ptrIn := HORA2, ptrSet := HORA2)
    else if m.high == 0x0c then NewNibble(r, m.low)
    else r
  }

  function ReceiveAll(r: Receiver, ms: seq<Message>): (r': Receiver)
    requires ValidReceiver(r)
    ensures ValidReceiver(r')
    decreases ms
  {
    if ms == [] then r else ReceiveAll(Receive(r, ms[0]), ms[1..])
  }

  /** The messages whose first byte is that of a begin message or of a nibble. */
  function OfTransfers(ms: seq<Message>): seq<Message> {
    if ms == [] then []
    else (if ms[0].high == 0x0a || ms[0].high == 0x0c then [ms[0]] else []) + OfTransfers(ms[1..])
  }

  /** Messages of other kinds may come in between: they change nothing. */
  lemma {:induction false} OthersIgnored(r: Receiver, ms: seq<Message>)
    requires ValidReceiver(r)
    ensures ReceiveAll(r, ms) == ReceiveAll(r, OfTransfers(ms))
    decreases ms
  {
    if ms != [] {
      OthersIgnored(Receive(r, ms[0]), ms[1..]);
      if ms[0].high == 0x0a || ms[0].high == 0x0c {
        assert OfTransfers(ms)[1..] == OfTransfers(ms[1..]);
      } else {
        assert OfTransfers(ms) == OfTransfers(ms[1..]);
      }
    }
  }

  /** The two nibbles change places, so that swapping twice loses nothing. */
  lemma SwapLosesNothing(d: Byte)
    ensures NibbleSwap(d) / 16 == d % 16 && NibbleSwap(d) % 16 == d / 16
    ensures NibbleSwap(NibbleSwap(d)) == d
  {
    HalvesOf(d / 16, d % 16);
    HalvesOf(d % 16, d / 16);
  }

  lemma HalvesOf(high: nat, low: nat)
    requires high < 16 && low < 16
    ensures (16 * high + low) / 16 == high && (16 * high + low) % 16 == low
  {
  }

  /** Nibbles short of the last one only fill the mirror. */
  lemma {:induction false} NibblesFillMirror(r: Receiver, digits: seq<Byte>)
    requires ValidReceiver(r) && r.ptrIn + |digits| <= SEG1
    ensures var t := ReceiveAll(r, NibbleMessages(digits));
            && t.(mirror := r.mirror, ptrIn := r.ptrIn) == r
            && t.ptrIn == r.ptrIn + |digits|
            && (forall i :: 0 <= i < r.ptrIn ==> t.mirror[i] == r.mirror[i])
            && (forall i :: 0 <= i < |digits| ==> t.mirror[r.ptrIn + i] == digits[i] % 16)
    decreases digits
  {
    var ms := NibbleMessages(digits);
    if digits != [] {
      SwapLosesNothing(digits[0]);
      assert ms[1..] == NibbleMessages(digits[1..]);
      var next := Receive(r, ms[0]);
      NibblesFillMirror(next, digits[1..]);
      var t := ReceiveAll(r, ms);
      assert t == ReceiveAll(next, NibbleMessages(digits[1..]));
      forall i | 0 <= i < |digits| ensures t.mirror[r.ptrIn + i] == digits[i] % 16 {
        if i > 0 {
          assert t.mirror[next.ptrIn + (i - 1)] == digits[1..][i - 1] % 16;
        }
      }
    }
  }

  /** The whole of a transfer that starts at digit `from` (0 for date and time, 8 for time alone). */
  function Transfer(digits: seq<Byte>, from: nat): seq<Message>
    requires |digits| == DIGITS && (from == 0 || from == HORA2)
  {
    [if from == 0 then BEGIN_DATE_TIME else BEGIN_TIME] + NibbleMessages(digits[from..])
  }

  /**
   From the start position on, all digits but the last are those of the sender (their low nibbles),
   the last is the receiver's own, the flag has been raised once more, and nothing has been written
   past the mirror.
   */
  predicate Arrived(t: Receiver, r: Receiver, digits: seq<Byte>, from: nat)
    requires ValidReceiver(t) && ValidReceiver(r) && |digits| == DIGITS
  {
    && (forall i :: 0 <= i < DIGITS ==> t.digits[i] == if from <= i < SEG1 then digits[i] % 16 else r.digits[i])
    && t.newTimeDate && t.raised == r.raised + 1 && t.past == r.past
  }

  /** A complete transfer brings all digits but the last. */
  lemma TransferArrives(r: Receiver, digits: seq<Byte>, from: nat)
    requires ValidReceiver(r) && |digits| == DIGITS && (from == 0 || from == HORA2)
    ensures Arrived(ReceiveAll(r, Transfer(digits, from)), r, digits, from)
  {
    var filled := TransferFillsMirror(r, digits, from);
    LastNibbleCopies(filled, r, digits, from);
  }

  lemma LastNibbleCopies(filled: Receiver, r: Receiver, digits: seq<Byte>, from: nat)
    requires ValidReceiver(filled) && filled.ptrIn == SEG1 && filled.ptrSet == from
    requires ValidReceiver(r) && filled.digits == r.digits && filled.raised == r.raised && filled.past == r.past
    requires |digits| == DIGITS && forall i :: from <= i < SEG1 ==> filled.mirror[i] == digits[i] % 16
    ensures Arrived(NewNibble(filled, NibbleSwap(digits[SEG1])), r, digits, from)
  {
    var t := NewNibble(filled, NibbleSwap(digits[SEG1]));
    forall i | from <= i < SEG1 ensures t.digits[i] == digits[i] % 16 {
      assert t.digits[i] == filled.mirror[i];
    }
  }

  /** The receiver when only the last digit is missing. */
  lemma TransferFillsMirror(r: Receiver, digits: seq<Byte>, from: nat) returns (filled: Receiver)
    requires ValidReceiver(r) && |digits| == DIGITS && (from == 0 || from == HORA2)
    ensures ValidReceiver(filled) && filled.ptrIn == SEG1 && filled.ptrSet == from
    ensures filled.digits == r.digits && filled.raised == r.raised && filled.past == r.past
    ensures forall i :: from <= i < SEG1 ==> filled.mirror[i] == digits[i] % 16
    ensures ReceiveAll(r, Transfer(digits, from)) == NewNibble(filled, NibbleSwap(digits[SEG1]))
  {
    var ms, begun := Transfer(digits, from), r.(ptrIn := from, ptrSet := from);
    var body, last := digits[from..SEG1], Message(0x0c, NibbleSwap(digits[SEG1]));
    assert digits[from..] == body + [digits[SEG1]];
    assert NibbleMessages(digits[from..]) == NibbleMessages(body) + [last];
    assert Receive(r, ms[0]) == begun && ms[1..] == NibbleMessages(digits[from..]);
    ReceiveInTwoParts(begun, NibbleMessages(body), [last]);
    filled := BodyFillsMirror(begun, digits, from);
  }

  lemma BodyFillsMirror(begun: Receiver, digits: seq<Byte>, from: nat) returns (filled: Receiver)
    requires ValidReceiver(begun) && |digits| == DIGITS && from <= SEG1 && begun.ptrIn == begun.ptrSet == from
    ensures ValidReceiver(filled) && filled == ReceiveAll(begun, NibbleMessages(digits[from..SEG1]))
    ensures filled.ptrIn == SEG1 && filled.ptrSet == from
    ensures filled.digits == begun.digits && filled.raised == begun.raised && filled.past == begun.past
    ensures forall i :: from <= i < SEG1 ==> filled.mirror[i] == digits[i] % 16
  {
    var body := digits[from..SEG1];
    NibblesFillMirror(begun, body);
    filled := ReceiveAll(begun, NibbleMessages(body));
    forall i | from <= i < SEG1 ensures filled.mirror[i] == digits[i] % 16 {
      assert filled.mirror[from + (i - from)] == body[i - from] % 16;
    }
  }

  lemma {:induction false} ReceiveInTwoParts(r: Receiver, a: seq<Message>, b: seq<Message>)
    requires ValidReceiver(r)
    ensures ReceiveAll(r, a + b) == ReceiveAll(ReceiveAll(r, a), b)
    decreases a
  {
    if a == [] {
      assert a + b == b;
    } else {
      assert (a + b)[1..] == a[1..] + b;
      ReceiveInTwoParts(Receive(r, a[0]), a[1..], b);
    }
  }

  lemma NibblePrefix(digits: seq<Byte>, n: nat)
    requires n <= |digits|
    ensures NibbleMessages(digits)[..n] == NibbleMessages(digits[..n])
  {
  }

  /** Digits and flag are as before, and nothing has been written past the mirror. */
  predicate Untouched(t: Receiver, r: Receiver) {
    t.digits == r.digits && t.newTimeDate == r.newTimeDate && t.raised == r.raised && t.past == r.past
  }

  /** An incomplete transfer changes neither digits nor flag. */
  lemma PartialTransferInvisible(r: Receiver, digits: seq<Byte>, from: nat, n: nat)
    requires ValidReceiver(r) && |digits| == DIGITS && (from == 0 || from == HORA2)
    requires n < |Transfer(digits, from)|
    ensures Untouched(ReceiveAll(r, Transfer(digits, from)[..n]), r)
  {
    if n > 0 {
      var ms, begun := Transfer(digits, from), r.(ptrIn := from, ptrSet := from);
      var body := digits[from..from + (n - 1)];
      assert Receive(r, ms[0]) == begun;
      NibblePrefix(digits[from..], n - 1);
      assert digits[from..][..n - 1] == body;
      assert ms[..n][1..] == NibbleMessages(digits[from..])[..n - 1];
      NibblesFillMirror(begun, body);
    }
  }

  /** mpxhTimeDate_empezarSacarFyh and mpxhTimeDate_empezarSacarHora */
  function StartSending(s: Sender, from: nat): Sender
    requires from == 0 || from == HORA2
  {
    if from == 0 then s.(ptrOut := 0, beginDateTime := true) else s.(ptrOut := HORA2, beginTime := true)
  }

  /** The begin message of a time alone is still to be sent when date and time are started. */
  predicate Mixed(s: Sender, from: nat) {
    from == 0 && s.beginTime
  }

  /** What is outstanding after a start: a transfer, announced twice if the other begin flag was set. */
  lemma StartedOutstanding(s: Sender, from: nat)
    requires ValidSender(s) && (from == 0 || from == HORA2)
    ensures var out := Outstanding(StartSending(s, from));
            if Mixed(s, from) then out == [BEGIN_DATE_TIME, BEGIN_TIME] + NibbleMessages(s.digits)
            else if from == HORA2 && s.beginDateTime then out == [BEGIN_DATE_TIME] + Transfer(s.digits, from)
            else out == Transfer(s.digits, from)
  {
    var nibbles := NibbleMessages(s.digits[from..]);
    if Mixed(s, from) {
      assert s.digits[0..] == s.digits;
      assert [BEGIN_DATE_TIME] + [BEGIN_TIME] == [BEGIN_DATE_TIME, BEGIN_TIME];
    } else if from == HORA2 && s.beginDateTime {
      assert [BEGIN_DATE_TIME] + [BEGIN_TIME] + nibbles == [BEGIN_DATE_TIME] + ([BEGIN_TIME] + nibbles);
    } else if from == HORA2 {
      assert [] + [BEGIN_TIME] == [BEGIN_TIME];
    } else {
      assert [BEGIN_DATE_TIME] + [] == [BEGIN_DATE_TIME];
    }
  }

  /**
   The state after n messages of a mixed transfer: the first five digits of the date stand where
   those of the time belong, and from the seventh nibble on the receiver writes past its mirror.
   */
  predicate MixedUp(t: Receiver, r: Receiver, digits: seq<Byte>, n: nat)
    requires ValidReceiver(t) && ValidReceiver(r) && |digits| == DIGITS
  {
    if n < 8 then Untouched(t, r)
    else
      && (forall i :: 0 <= i < DIGITS ==>
            t.digits[i] == if HORA2 <= i < SEG1 then digits[i - HORA2] % 16 else r.digits[i])
      && t.newTimeDate && t.raised == r.raised + (n - 7) && t.past == r.past + (n - 8)
  }

  /** Nibbles after the last position are written past the mirror, and the mirror is copied once more for each. */
  lemma {:induction false} ExtraNibbles(r: Receiver, digits: seq<Byte>)
    requires ValidReceiver(r) && SEG1 < r.ptrIn && r.ptrIn + |digits| <= 255 && r.newTimeDate
    requires r.digits == CopyMirror(r.digits, r.mirror, r.ptrSet)
    ensures var t := ReceiveAll(r, NibbleMessages(digits));
            && t.digits == r.digits && t.newTimeDate
            && t.raised == r.raised + |digits| && t.past == r.past + |digits|
    decreases digits
  {
    if digits != [] {
      var ms := NibbleMessages(digits);
      assert ms[1..] == NibbleMessages(digits[1..]);
      ExtraNibbles(Receive(r, ms[0]), digits[1..]);
    }
  }

  lemma MixedTransfer(r: Receiver, digits: seq<Byte>, n: nat)
    requires ValidReceiver(r) && |digits| == DIGITS && n <= 16
    ensures MixedUp(ReceiveAll(r, ([BEGIN_DATE_TIME, BEGIN_TIME] + NibbleMessages(digits))[..n]), r, digits, n)
  {
    var ms := [BEGIN_DATE_TIME, BEGIN_TIME] + NibbleMessages(digits);
    var shifted := digits[..8] + digits[..6];
    if n == 0 {
      assert ms[..0] == [];
    } else if n < 8 {
      MixedPrefix(digits, shifted, n);
      MixedHead(r, shifted, n - 1);
    } else {
      MixedPrefix(digits, shifted, n);
      MixedTail(r, shifted, digits[6..n - 2]);
    }
  }

  /** The messages of a mixed transfer, as those of a time transfer of the first digits of the date. */
  lemma MixedPrefix(digits: seq<Byte>, shifted: seq<Byte>, n: nat)
    requires |digits| == DIGITS && 0 < n <= 16 && shifted == digits[..8] + digits[..6]
    ensures var ms := [BEGIN_DATE_TIME, BEGIN_TIME] + NibbleMessages(digits);
            ms[..n] == if n < 8 then [BEGIN_DATE_TIME] + Transfer(shifted, HORA2)[..n - 1]
                       else [BEGIN_DATE_TIME] + Transfer(shifted, HORA2) + NibbleMessages(digits[6..n - 2])
  {
    assert shifted[HORA2..] == digits[..6];
    NibblePrefix(digits, 6);
  }

  lemma MixedHead(r: Receiver, shifted: seq<Byte>, n: nat)
    requires ValidReceiver(r) && |shifted| == DIGITS && n < |Transfer(shifted, HORA2)|
    ensures Untouched(ReceiveAll(r, [BEGIN_DATE_TIME] + Transfer(shifted, HORA2)[..n]), r)
  {
    var ms := [BEGIN_DATE_TIME] + Transfer(shifted, HORA2)[..n];
    assert ms[1..] == Transfer(shifted, HORA2)[..n];
    PartialTransferInvisible(Receive(r, BEGIN_DATE_TIME), shifted, HORA2, n);
  }

  /** A date-and-time announcement, a time transfer, and nibbles that nobody announced. */
  lemma MixedTail(r: Receiver, shifted: seq<Byte>, rest: seq<Byte>)
    requires ValidReceiver(r) && |shifted| == DIGITS && |rest| <= 8
    ensures var t := ReceiveAll(r, [BEGIN_DATE_TIME] + Transfer(shifted, HORA2) + NibbleMessages(rest));
            && (forall i :: 0 <= i < DIGITS ==>
                  t.digits[i] == if HORA2 <= i < SEG1 then shifted[i] % 16 else r.digits[i])
            && t.newTimeDate && t.raised == r.raised + 1 + |rest| && t.past == r.past + |rest|
  {
    var begun := Receive(r, BEGIN_DATE_TIME);
    var announced := [BEGIN_DATE_TIME] + Transfer(shifted, HORA2);
    ReceiveInTwoParts(r, announced, NibbleMessages(rest));
    assert announced[1..] == Transfer(shifted, HORA2);
    var filled := TransferFillsMirror(begun, shifted, HORA2);
    LastNibbleCopies(filled, begun, shifted, HORA2);
    ExtraNibbles(NewNibble(filled, NibbleSwap(shifted[SEG1])), rest);
  }

  /**
   End to end, for all begin flags, every busy pattern of the bus and every receiver: what was
   started arrives, once enough calls found the bus idle, if and only if it is not date and time
   while the begin message of a time is still to be sent. Before that, nothing of it shows.
   */
  lemma TimeTransfer(s: Sender, r: Receiver, from: nat, busy: seq<bool>)
    requires ValidSender(s) && ValidReceiver(r) && (from == 0 || from == HORA2)
    ensures var started := StartSending(s, from);
            var t, needed := ReceiveAll(r, Emitted(started, busy)), |Outstanding(started)|;
            && (IdleCalls(busy) >= needed ==> (Arrived(t, r, s.digits, from) <==> !Mixed(s, from)))
            && (IdleCalls(busy) < needed && !Mixed(s, from) ==> Untouched(t, r))
            && (Mixed(s, from) ==> needed == 16 && MixedUp(t, r, s.digits, Min(IdleCalls(busy), 16)))
  {
    var started := StartSending(s, from);
    EmitsOutstanding(started, busy);
    StartedOutstanding(s, from);
    var out := Outstanding(started);
    if Mixed(s, from) {
      MixedTransfer(r, s.digits, Min(IdleCalls(busy), 16));
    } else if from == HORA2 && s.beginDateTime {
      TwiceAnnounced(r, s.digits, Min(IdleCalls(busy), |out|));
    } else {
      OnceAnnounced(r, s.digits, from, Min(IdleCalls(busy), |out|));
    }
  }

  lemma OnceAnnounced(r: Receiver, digits: seq<Byte>, from: nat, n: nat)
    requires ValidReceiver(r) && |digits| == DIGITS && (from == 0 || from == HORA2)
    requires n <= |Transfer(digits, from)|
    ensures var t, all := ReceiveAll(r, Transfer(digits, from)[..n]), |Transfer(digits, from)|;
            if n == all then Arrived(t, r, digits, from) else Untouched(t, r)
  {
    var all := Transfer(digits, from);
    if n == |all| {
      assert all[..n] == all;
      TransferArrives(r, digits, from);
    } else {
      PartialTransferInvisible(r, digits, from, n);
    }
  }

  /** A time transfer that date and time were announced before: the second announcement counts. */
  lemma TwiceAnnounced(r: Receiver, digits: seq<Byte>, n: nat)
    requires ValidReceiver(r) && |digits| == DIGITS && n <= 1 + |Transfer(digits, HORA2)|
    ensures var all := [BEGIN_DATE_TIME] + Transfer(digits, HORA2);
            var t := ReceiveAll(r, all[..n]);
            if n == |all| then Arrived(t, r, digits, HORA2) else Untouched(t, r)
  {
    var all := [BEGIN_DATE_TIME] + Transfer(digits, HORA2);
    if n > 0 {
      assert all[..n][0] == BEGIN_DATE_TIME && all[..n][1..] == Transfer(digits, HORA2)[..n - 1];
      OnceAnnounced(Receive(r, BEGIN_DATE_TIME), digits, HORA2, n - 1);
    }
  }

  /** The sender after a number of calls. */
  function AfterCalls(s: Sender, busy: seq<bool>): (s': Sender)
    requires ValidSender(s)
    ensures ValidSender(s')
    decreases busy
  {
    if busy == [] then s else AfterCalls(SendNext(s, busy[0]).0, busy[1..])
  }

  /** Once a time has been started, its begin message leaves with the first idle call. */
  lemma {:induction false} FlagsAfterCalls(s: Sender, busy: seq<bool>)
    requires ValidSender(s) && s.ptrOut <= SEG1 && !s.beginDateTime
    ensures var t := AfterCalls(s, busy);
            && t.digits == s.digits && !t.beginDateTime
            && (t.beginTime <==> s.beginTime && IdleCalls(busy) == 0)
    decreases busy
  {
    if busy != [] {
      var next := SendNext(s, busy[0]).0;
      if next.ptrOut <= SEG1 {
        FlagsAfterCalls(next, busy[1..]);
      } else {
        SentOut(next, busy[1..]);
      }
    }
  }

  lemma {:induction false} SentOut(s: Sender, busy: seq<bool>)
    requires ValidSender(s) && s.ptrOut > SEG1
    ensures AfterCalls(s, busy) == s
    decreases busy
  {
    if busy != [] {
      SentOut(s, busy[1..]);
    }
  }

  /**
   From clear flags, a time is started, some calls are made, and date and time are started: they
   arrive exactly if one of those calls found the bus idle.
   */
  lemma SecondStartArrivesIff(s: Sender, r: Receiver, between: seq<bool>, busy: seq<bool>)
    requires ValidSender(s) && !s.beginTime && !s.beginDateTime && ValidReceiver(r)
    requires IdleCalls(busy) >= 16
    ensures var restarted := StartSending(AfterCalls(StartSending(s, HORA2), between), 0);
            var t := ReceiveAll(r, Emitted(restarted, busy));
            && (Arrived(t, r, s.digits, 0) <==> IdleCalls(between) > 0)
            && (IdleCalls(between) == 0 ==> t.digits[HORA2] == s.digits[0] % 16 && t.past == r.past + 8)
  {
    var waiting := AfterCalls(StartSending(s, HORA2), between);
    FlagsAfterCalls(StartSending(s, HORA2), between);
    TimeTransfer(waiting, r, 0, busy);
    StartedOutstanding(waiting, 0);
    assert IdleCalls(between) == 0 ==> MixedUp(ReceiveAll(r, Emitted(StartSending(waiting, 0), busy)), r, s.digits, 16);
  }

  // ---------------------------------------------------------------- ticks inside a transfer

  /** One call of mpxhTimeDate_sendNextNibble: the digits as they are at that moment, and the state of the bus. */
  datatype Call = Call(digits: seq<Byte>, busy: bool)

  ghost predicate ValidCalls(calls: seq<Call>) {
    forall i :: 0 <= i < |calls| ==> |calls[i].digits| == DIGITS
  }

  function BusyPattern(calls: seq<Call>): (busy: seq<bool>)
    ensures |busy| == |calls| && forall i :: 0 <= i < |busy| ==> busy[i] == calls[i].busy
  {
    seq(|calls|, i requires 0 <= i < |calls| => calls[i].busy)
  }

  /** Everything emitted while the clock goes on running. */
  ghost function EmittedDuring(s: Sender, calls: seq<Call>): seq<Message>
    requires ValidCalls(calls)
    decreases calls
  {
    if calls == [] then []
    else
      var (s', sent) := SendNext(s.(digits := calls[0].digits), calls[0].busy);
      sent + EmittedDuring(s', calls[1..])
  }

  /** Each digit as it was at the call that sent it. */
  ghost function Sampled(s: Sender, calls: seq<Call>): (digits: seq<Byte>)
    requires ValidSender(s) && ValidCalls(calls)
    ensures |digits| == DIGITS
    decreases calls
  {
    if calls == [] then s.digits
    else
      var (s', sent) := SendNext(s.(digits := calls[0].digits), calls[0].busy);
      var later := Sampled(s', calls[1..]);
      if s'.ptrOut == s.ptrOut then later else later[s.ptrOut := calls[0].digits[s.ptrOut]]
  }

  /** Digits that have been sent do not matter any more. */
  lemma {:induction false} EmittedIgnoresSent(s: Sender, t: Sender, busy: seq<bool>)
    requires ValidSender(s) && ValidSender(t) && t == s.(digits := t.digits)
    requires forall i :: s.ptrOut <= i < DIGITS ==> s.digits[i] == t.digits[i]
    ensures Emitted(s, busy) == Emitted(t, busy)
    decreases busy
  {
    if busy != [] {
      EmittedIgnoresSent(SendNext(s, busy[0]).0, SendNext(t, busy[0]).0, busy[1..]);
    }
  }

  /** What leaves while the clock runs is what a stopped clock with the sampled digits would send. */
  lemma {:induction false} EmitsSampled(s: Sender, calls: seq<Call>)
    requires ValidSender(s) && ValidCalls(calls)
    ensures EmittedDuring(s, calls) == Emitted(s.(digits := Sampled(s, calls)), BusyPattern(calls))
    decreases calls
  {
    if calls != [] {
      var (s', sent) := SendNext(s.(digits := calls[0].digits), calls[0].busy);
      var stopped := s.(digits := Sampled(s, calls));
      EmitsSampled(s', calls[1..]);
      assert BusyPattern(calls)[1..] == BusyPattern(calls[1..]);
      assert SendNext(stopped, calls[0].busy) == (s'.(digits := stopped.digits), sent);
      EmittedIgnoresSent(s'.(digits := Sampled(s', calls[1..])), s'.(digits := stopped.digits),
                         BusyPattern(calls[1..]));
    }
  }

  /** The position of the idle call number k. */
  function IdleCall(busy: seq<bool>, k: nat): (at: nat)
    requires k < IdleCalls(busy)
    ensures at < |busy| && !busy[at]
  {
    if busy[0] then 1 + IdleCall(busy[1..], k)
    else if k == 0 then 0
    else 1 + IdleCall(busy[1..], k - 1)
  }

  /** The messages still to go before the digit at position i. */
  function SentBefore(s: Sender, i: nat): int {
    (if s.beginDateTime then 1 else 0) + (if s.beginTime then 1 else 0) + i - s.ptrOut
  }

  lemma {:induction false} SampledAtItsCall(s: Sender, calls: seq<Call>, i: nat)
    requires ValidSender(s) && ValidCalls(calls) && s.ptrOut <= i < DIGITS
    requires SentBefore(s, i) < IdleCalls(BusyPattern(calls))
    ensures var at := IdleCall(BusyPattern(calls), SentBefore(s, i));
            Sampled(s, calls)[i] == calls[at].digits[i]
    decreases calls
  {
    var c, rest := calls[0], calls[1..];
    var s' := SendNext(s.(digits := c.digits), c.busy).0;
    assert BusyPattern(calls)[1..] == BusyPattern(rest);
    assert SentBefore(s', i) == SentBefore(s, i) - (if c.busy then 0 else 1);
    if s'.ptrOut == s.ptrOut || i > s.ptrOut {
      SampledAtItsCall(s', rest, i);
      assert Sampled(s, calls)[i] == Sampled(s', rest)[i];
    }
  }

  /** The call that sends the digit at position i of a transfer that has been started, if there is one. */
  function SendCall(started: Sender, calls: seq<Call>, i: nat): (at: nat)
    ensures at <= |calls|
  {
    if 0 <= SentBefore(started, i) < IdleCalls(BusyPattern(calls)) then
      IdleCall(BusyPattern(calls), SentBefore(started, i))
    else |calls|
  }

  /** All that was started has been sent. */
  predicate Completed(started: Sender, calls: seq<Call>)
    requires ValidSender(started)
  {
    started.ptrOut <= SEG1 && IdleCalls(BusyPattern(calls)) >= |Outstanding(started)|
  }

  /** Each of the digits is what it was at the call that sent it. */
  ghost predicate FromCalls(started: Sender, calls: seq<Call>, digits: seq<Byte>)
    requires ValidCalls(calls) && |digits| == DIGITS
  {
    forall i :: started.ptrOut <= i < DIGITS ==>
      && SendCall(started, calls, i) < |calls|
      && digits[i] == calls[SendCall(started, calls, i)].digits[i]
  }

  lemma SampledFromCalls(started: Sender, calls: seq<Call>)
    requires ValidSender(started) && ValidCalls(calls) && Completed(started, calls)
    ensures FromCalls(started, calls, Sampled(started, calls))
  {
    forall i | started.ptrOut <= i < DIGITS
      ensures SendCall(started, calls, i) < |calls|
      ensures Sampled(started, calls)[i] == calls[SendCall(started, calls, i)].digits[i]
    {
      assert SentBefore(started, i) < IdleCalls(BusyPattern(calls));
      SampledAtItsCall(started, calls, i);
    }
  }

  /**
   End to end, with the clock of the sender running: what a completed transfer delivers is each
   digit as it was at the call that sent it, and the conditions are those of a stopped clock.
   */
  lemma TransferWhileTicking(s: Sender, r: Receiver, from: nat, calls: seq<Call>)
    requires ValidSender(s) && ValidCalls(calls) && ValidReceiver(r) && (from == 0 || from == HORA2)
    ensures var started := StartSending(s, from);
            var t, sampled := ReceiveAll(r, EmittedDuring(started, calls)), Sampled(started, calls);
            if Completed(started, calls) then
              && (Arrived(t, r, sampled, from) <==> !Mixed(s, from))
              && (Mixed(s, from) ==> MixedUp(t, r, sampled, 16))
              && FromCalls(started, calls, sampled)
            else !Mixed(s, from) ==> Untouched(t, r)
  {
    var started, busy := StartSending(s, from), BusyPattern(calls);
    var sampled := Sampled(started, calls);
    EmitsSampled(started, calls);
    assert started.(digits := sampled) == StartSending(s.(digits := sampled), from);
    TimeTransfer(s.(digits := sampled), r, from, busy);
    OutstandingLength(started, sampled);
    if Completed(started, calls) {
      SampledFromCalls(started, calls);
    }
  }

  lemma OutstandingLength(s: Sender, digits: seq<Byte>)
    requires ValidSender(s) && |digits| == DIGITS
    ensures |Outstanding(s.(digits := digits))| == |Outstanding(s)|
  {
  }

  /** What has arrived is what the clock showed when it showed these digits. */
  predicate Shows(t: Receiver, digits: seq<Byte>, from: nat)
    requires ValidReceiver(t) && |digits| == DIGITS
  {
    forall i :: from <= i < SEG1 ==> t.digits[i] == digits[i] % 16
  }

  /** The digits are `before` up to the call number c, and `after` from that call on. */
  ghost predicate OneChange(calls: seq<Call>, c: nat, before: seq<Byte>, after: seq<Byte>) {
    && |before| == |after| == DIGITS
    && forall i :: 0 <= i < |calls| ==> calls[i].digits == if i < c then before else after
  }

  /** The digit at position i changes. */
  predicate DigitChanges(before: seq<Byte>, after: seq<Byte>, i: nat)
    requires |before| == |after| == DIGITS && i < DIGITS
  {
    before[i] % 16 != after[i] % 16
  }

  /**
   The digits change once inside the transfer: a single moment arrives exactly if the digits that
   change were not sent some before and some after the change.
   */
  lemma SingleMomentIff(s: Sender, r: Receiver, from: nat, calls: seq<Call>, c: nat, before: seq<Byte>,
        after: seq<Byte>)
    requires ValidSender(s) && ValidReceiver(r) && (from == 0 || from == HORA2) && !Mixed(s, from)
    requires OneChange(calls, c, before, after) && Completed(StartSending(s, from), calls)
    ensures var started := StartSending(s, from);
            var t := ReceiveAll(r, EmittedDuring(started, calls));
            Shows(t, before, from) || Shows(t, after, from)
            <==> !exists i, j :: from <= i < SEG1 && from <= j < SEG1
                                 && DigitChanges(before, after, i) && DigitChanges(before, after, j)
                                 && SendCall(started, calls, i) < c <= SendCall(started, calls, j)
  {
    var started := StartSending(s, from);
    var t := ReceiveAll(r, EmittedDuring(started, calls));
    OldAndNewDigits(s, r, from, calls, c, before, after);
    if i :| from <= i < SEG1 && DigitChanges(before, after, i) && SendCall(started, calls, i) < c {
      assert !Shows(t, after, from);
    } else {
      assert Shows(t, after, from);
    }
    if j :| from <= j < SEG1 && DigitChanges(before, after, j) && c <= SendCall(started, calls, j) {
      assert !Shows(t, before, from);
    } else {
      assert Shows(t, before, from);
    }
  }

  lemma OldAndNewDigits(s: Sender, r: Receiver, from: nat, calls: seq<Call>, c: nat, before: seq<Byte>,
        after: seq<Byte>)
    requires ValidSender(s) && ValidReceiver(r) && (from == 0 || from == HORA2) && !Mixed(s, from)
    requires OneChange(calls, c, before, after) && Completed(StartSending(s, from), calls)
    ensures var started := StartSending(s, from);
            var t := ReceiveAll(r, EmittedDuring(started, calls));
            forall i :: from <= i < SEG1 ==>
              t.digits[i] == if SendCall(started, calls, i) < c then before[i] % 16 else after[i] % 16
  {
    var started := StartSending(s, from);
    assert ValidCalls(calls);
    TransferWhileTicking(s, r, from, calls);
    var t, sampled := ReceiveAll(r, EmittedDuring(started, calls)), Sampled(started, calls);
    forall i | from <= i < SEG1
      ensures t.digits[i] == if SendCall(started, calls, i) < c then before[i] % 16 else after[i] % 16
    {
      assert t.digits[i] == sampled[i] % 16 && sampled[i] == calls[SendCall(started, calls, i)].digits[i];
    }
  }

  /** n calls that find the bus idle. */
  function Unhindered(n: nat): (busy: seq<bool>)
    ensures |busy| == n && forall i :: 0 <= i < n ==> !busy[i]
  {
    seq(n, _ => false)
  }

  lemma {:induction false} EveryCallIdle(n: nat, k: nat)
    requires k < n
    ensures IdleCalls(Unhindered(n)) == n && IdleCall(Unhindered(n), k) == k
    decreases n
  {
    assert Unhindered(n)[1..] == Unhindered(n - 1);
    if n == 1 {
      assert Unhindered(1)[1..] == [];
    } else {
      EveryCallIdle(n - 1, if k == 0 then 0 else k - 1);
    }
  }

  /**
   The hour strikes eight in the evening after the first digit of the time has been sent: what
   arrives is ten in the morning, which it neither was nor is.
   */
  lemma TornTime(s: Sender, r: Receiver, calls: seq<Call>, before: seq<Byte>, after: seq<Byte>)
    requires ValidSender(s) && !s.beginTime && !s.beginDateTime && ValidReceiver(r)
    requires |calls| == 7 && OneChange(calls, 2, before, after)
    requires forall i :: 0 <= i < 7 ==> !calls[i].busy
    requires before[HORA2..] == [1, 9, 5, 9, 5, 9] && after[HORA2..] == [2, 0, 0, 0, 0, 0]
    ensures var t := ReceiveAll(r, EmittedDuring(StartSending(s, HORA2), calls));
            && t.digits[HORA2..SEG1] == [1, 0, 0, 0, 0]
            && !Shows(t, before, HORA2) && !Shows(t, after, HORA2)
  {
    FirstDigitIsOlder(s, r, calls, before, after);
    TornDigits(ReceiveAll(r, EmittedDuring(StartSending(s, HORA2), calls)), before, after);
  }

  lemma FirstDigitIsOlder(s: Sender, r: Receiver, calls: seq<Call>, before: seq<Byte>, after: seq<Byte>)
    requires ValidSender(s) && !s.beginTime && !s.beginDateTime && ValidReceiver(r)
    requires |calls| == 7 && OneChange(calls, 2, before, after)
    requires forall i :: 0 <= i < 7 ==> !calls[i].busy
    ensures var t := ReceiveAll(r, EmittedDuring(StartSending(s, HORA2), calls));
            forall i :: HORA2 <= i < SEG1 ==> t.digits[i] == if i == HORA2 then before[i] % 16 else after[i] % 16
  {
    var started := StartSending(s, HORA2);
    assert BusyPattern(calls) == Unhindered(7);
    EveryCallIdle(7, 1);
    OldAndNewDigits(s, r, HORA2, calls, 2, before, after);
    forall i | HORA2 <= i < SEG1 ensures SendCall(started, calls, i) == 1 + i - HORA2 {
      EveryCallIdle(7, 1 + i - HORA2);
    }
  }

  lemma TornDigits(t: Receiver, before: seq<Byte>, after: seq<Byte>)
    requires ValidReceiver(t) && |before| == |after| == DIGITS
    requires before[HORA2..] == [1, 9, 5, 9, 5, 9] && after[HORA2..] == [2, 0, 0, 0, 0, 0]
    requires forall i :: HORA2 <= i < SEG1 ==> t.digits[i] == if i == HORA2 then before[i] % 16 else after[i] % 16
    ensures t.digits[HORA2..SEG1] == [1, 0, 0, 0, 0]
    ensures !Shows(t, before, HORA2) && !Shows(t, after, HORA2)
  {
    assert before[8] == before[HORA2..][0] == 1 && before[9] == before[HORA2..][1] == 9;
    assert after[8] == after[HORA2..][0] == 2 && after[9] == after[HORA2..][1] == 0;
    assert after[10] == after[HORA2..][2] == 0 && after[11] == after[HORA2..][3] == 0;
    assert after[12] == after[HORA2..][4] == 0;
    assert t.digits[8] == 1 && t.digits[9] == 0;
  }

  // ---------------------------------------------------------------- the C globals

  function TimeOf(digits: seq<Byte>): Time
    requires |digits| == DIGITS
  {
    Time(digits[8], digits[9], digits[10], digits[11], digits[12], digits[13])
  }

  /**
   The date digits stay, unless the hours carry into the day: then the day digit is one higher, and
   past 9 the calendar, which is not modelled, decides.
   */
  predicate DateAfter(before: seq<Byte>, after: seq<Byte>, carry: bool)
    requires |before| == |after| == DIGITS
  {
    if !carry then after[..HORA2] == before[..HORA2]
    else before[1] < 9 ==> after[..HORA2] == before[..HORA2][1 := before[1] + 1]
  }

  class MpxhTimeDate {
    const timeAndDate: array<Byte>
    const timeAndDateMirror: array<Byte>
    var ptrTimeDateIn: Byte
    var ptrTimeDateOut: Byte
    var ptrSet: Byte
    var timer250: Byte
    var newMpxhTimeDate: bool
    var mandarBeginHora: bool
    var mandarBeginFechaHora: bool
    ghost var dayCarries: nat   // how often the day digit has been incremented
    ghost var timesRaised: nat  // how often newMpxhTimeDate has been set
    ghost var nibblesPast: nat  // how many nibbles have been written past timeAndDateMirror

    ghost predicate Valid()
      reads this
    {
      && timeAndDate.Length == timeAndDateMirror.Length == DIGITS
      && timeAndDate != timeAndDateMirror
      && ptrSet < DIGITS
    }

    ghost function AsClock(): Clock
      requires Valid()
      reads this, timeAndDate
    {
      Clock(TimeOf(timeAndDate[..]), timer250, dayCarries)
    }

    ghost function AsSender(): Sender
      reads this, timeAndDate
    {
      Sender(timeAndDate[..], ptrTimeDateOut, mandarBeginHora, mandarBeginFechaHora)
    }

    ghost function AsReceiver(): Receiver
      reads this, timeAndDate, timeAndDateMirror
    {
      Receiver(timeAndDate[..], timeAndDateMirror[..], ptrTimeDateIn, ptrSet, newMpxhTimeDate,
               timesRaised, nibblesPast)
    }

    /** mpxhTimeDate_init; counters without an initial value of their own start at zero. */
    constructor ()
      ensures Valid() && fresh(timeAndDate) && fresh(timeAndDateMirror)
      ensures timeAndDate[..] == [2, 5, 1, 0, 2, 0, 1, 9, 0, 0, 0, 0, 0, 1]
      ensures AsClock() == Clock(Time(0, 0, 0, 0, 0, 1), 0, 0) && ValidTime(AsClock().time)
      ensures Outstanding(AsSender()) == []
    {
      timeAndDate := new Byte[DIGITS] [2, 5, 1, 0, 2, 0, 1, 9, 0, 0, 0, 0, 0, 1];
      timeAndDateMirror := new Byte[DIGITS](_ => 0);
      ptrTimeDateIn, ptrTimeDateOut, ptrSet, timer250 := 0, 15, 0, 0;
      newMpxhTimeDate, mandarBeginHora, mandarBeginFechaHora := false, false, false;
      dayCarries, timesRaised, nibblesPast := 0, 0, 0;
    }

    /** mpxhTimeDate_handler: one tick of the clock; the date changes only with a carry into the day. */
    method Handler()
      requires Valid()
      modifies this`timer250, this`dayCarries, timeAndDate
      ensures Valid() && AsClock() == Tick(old(AsClock()))
      ensures DateAfter(old(timeAndDate[..]), timeAndDate[..], dayCarries != old(dayCarries))
    {
      timer250 := Inc(timer250);
      if timer250 == 250 {
        timer250 := 0;
        timeAndDate[13] := Inc(timeAndDate[13]);
        if timeAndDate[13] > 9 {
          timeAndDate[13] := 0;
          timeAndDate[12] := Inc(timeAndDate[12]);
          if timeAndDate[12] > 5 {
            timeAndDate[12] := 0;
            PassMinute();
          }
        }
      }
    }

    /** The part of the cascade from the minutes on, with the seconds at zero. */
    method PassMinute()
      requires Valid() && timeAndDate[12] == timeAndDate[13] == 0
      modifies this`dayCarries, timeAndDate
      ensures var (t, carry) := MinutePassed(old(TimeOf(timeAndDate[..])));
              && TimeOf(timeAndDate[..]) == t
              && dayCarries == old(dayCarries) + (if carry then 1 else 0)
              && DateAfter(old(timeAndDate[..]), timeAndDate[..], carry)
    {
      timeAndDate[11] := Inc(timeAndDate[11]);
      if timeAndDate[11] > 9 {
        timeAndDate[11] := 0;
        timeAndDate[10] := Inc(timeAndDate[10]);
        if timeAndDate[10] > 5 {
          timeAndDate[10] := 0;
          PassHour();
        }
      }
    }

    /** The innermost part of the cascade: the hours and the carry into the day. */
    method PassHour()
      requires Valid()
      modifies this`dayCarries, timeAndDate
      ensures timeAndDate[10..] == old(timeAndDate[10..])
      ensures var (h2, h1, carry) := HourPassed(old(timeAndDate[8]), old(timeAndDate[9]));
              && timeAndDate[8] == h2 && timeAndDate[9] == h1
              && dayCarries == old(dayCarries) + (if carry then 1 else 0)
              && DateAfter(old(timeAndDate[..]), timeAndDate[..], carry)
    {
      timeAndDate[9] := Inc(timeAndDate[9]);
      if (timeAndDate[8] < 2 && timeAndDate[9] > 9) || (timeAndDate[8] == 2 && timeAndDate[9] > 3) {
        timeAndDate[9] := 0;
        timeAndDate[8] := Inc(timeAndDate[8]);
        if timeAndDate[8] > 2 {
          timeAndDate[8] := 0;
          timeAndDate[1] := Inc(timeAndDate[1]);
          dayCarries := dayCarries + 1;
          if timeAndDate[1] > 9 {
            CarryIntoCalendar();
          }
        }
      }
    }

    /** The calendar part of the handler is not modelled: any eight date digits may result. */
    method CarryIntoCalendar()
      requires Valid()
      modifies timeAndDate
      ensures timeAndDate[HORA2..] == old(timeAndDate[HORA2..])
    {
      for i := 0 to HORA2
        invariant timeAndDate[HORA2..] == old(timeAndDate[HORA2..])
      {
        var digit: Byte := *;
        timeAndDate[i] := digit;
      }
    }

    /** mpxhTimeDate_vinoMinutoPatron */
    method VinoMinutoPatron()
      requires Valid()
      modifies this`timer250, timeAndDate
      ensures AsClock() == MinuteMark(old(AsClock()))
      ensures timeAndDate[..12] == old(timeAndDate[..12])
    {
      if timeAndDate[12] >= 3 {
        timeAndDate[12] := 5;
        timeAndDate[13] := 9;
        timer250 := 250;
      } else {
        timeAndDate[12] := 0;
        timeAndDate[13] := 0;
      }
    }

    /** mpxhTimeDate_empezarSacarFyh */
    method EmpezarSacarFyh()
      modifies this`ptrTimeDateOut, this`mandarBeginFechaHora
      ensures AsSender() == StartSending(old(AsSender()), 0)
    {
      ptrTimeDateOut := 0;
      mandarBeginFechaHora := true;
    }

    /** mpxhTimeDate_empezarSacarHora */
    method EmpezarSacarHora()
      modifies this`ptrTimeDateOut, this`mandarBeginHora
      ensures AsSender() == StartSending(old(AsSender()), HORA2)
    {
      ptrTimeDateOut := 8;
      mandarBeginHora := true;
    }

    /** mpxhTimeDate_resetTimeDate: ready for fourteen nibbles, and nothing more to send. */
    method ResetTimeDate()
      requires Valid()
      modifies this`ptrTimeDateIn, this`ptrTimeDateOut, this`ptrSet
      ensures Valid() && AsReceiver() == Receive(old(AsReceiver()), BEGIN_DATE_TIME)
      ensures Outstanding(AsSender()) == []
    {
      ptrTimeDateIn, ptrTimeDateOut, ptrSet := 0, 15, 0;
    }

    /** mpxhTimeDate_resetTime: ready for the six time nibbles, and nothing more to send. */
    method ResetTime()
      requires Valid()
      modifies this`ptrTimeDateIn, this`ptrTimeDateOut, this`ptrSet
      ensures Valid() && AsReceiver() == Receive(old(AsReceiver()), BEGIN_TIME)
      ensures Outstanding(AsSender()) == []
    {
      ptrTimeDateIn, ptrTimeDateOut, ptrSet := 8, 14, 8;
    }

    /** mpxhTimeDate_newTimeDate: the flag is reported once. */
    method NewTimeDate() returns (ret: bool)
      modifies this`newMpxhTimeDate
      ensures ret == old(newMpxhTimeDate) && !newMpxhTimeDate
    {
      ret := newMpxhTimeDate;
      newMpxhTimeDate := false;
    }

    /** mpxhTimeDate_setTime: the time digits only. */
    method SetTime(t: seq<Byte>)
      requires Valid() && |t| == 6
      modifies this`ptrTimeDateIn, this`ptrTimeDateOut, this`ptrSet, timeAndDate
      ensures Valid() && timeAndDate[..] == old(timeAndDate[..HORA2]) + t
      ensures Outstanding(AsSender()) == []
    {
      ResetTime();
      var i, j: nat := 8, 0;
      while i <= SEG1
        invariant 8 <= i <= DIGITS && j == i - 8
        invariant timeAndDate[..HORA2] == old(timeAndDate[..HORA2])
        invariant forall k :: 0 <= k < j ==> timeAndDate[8 + k] == t[k]
        modifies timeAndDate
      {
        timeAndDate[i] := t[j];
        i, j := i + 1, j + 1;
      }
    }

    /** mpxhTimeDate_sendNextNibble; what it hands to the bus, if anything, is returned. */
    method SendNextNibble(busy: bool) returns (sent: seq<Message>)
      requires Valid()
      modifies this`ptrTimeDateOut, this`mandarBeginHora, this`mandarBeginFechaHora
      ensures (AsSender(), sent) == SendNext(old(AsSender()), busy)
    {
      sent := [];
      if ptrTimeDateOut <= SEG1 {
        if !busy {
          if mandarBeginFechaHora {
            mandarBeginFechaHora := false;
            sent := [BEGIN_DATE_TIME];
          } else if mandarBeginHora {
            mandarBeginHora := false;
            sent := [BEGIN_TIME];
          } else {
            sent := [Message(0x0c, NibbleSwap(timeAndDate[ptrTimeDateOut]))];
            ptrTimeDateOut := ptrTimeDateOut + 1;
          }
        }
      }
    }

    /** mpxhTimeDate_newNibble; a nibble that would be written past the mirror array is only counted. */
    method ReceiveNibble(nibble: Byte)
      requires Valid()
      modifies this`ptrTimeDateIn, this`newMpxhTimeDate, this`timesRaised, this`nibblesPast
      modifies timeAndDate, timeAndDateMirror
      ensures AsReceiver() == NewNibble(old(AsReceiver()), nibble)
    {
      if ptrTimeDateIn <= SEG1 {
        timeAndDateMirror[ptrTimeDateIn] := NibbleSwap(nibble) % 16;
      } else {
        nibblesPast := nibblesPast + 1;
      }
      ptrTimeDateIn := Inc(ptrTimeDateIn);
      if ptrTimeDateIn > SEG1 {
        ghost var digits, mirror := timeAndDate[..], timeAndDateMirror[..];
        var i: nat := ptrSet;
        while i < SEG1
          invariant ptrSet <= i <= SEG1
          invariant forall k :: 0 <= k < DIGITS ==>
                      timeAndDate[k] == if ptrSet <= k < i then mirror[k] else digits[k]
          modifies timeAndDate
        {
          timeAndDate[i] := timeAndDateMirror[i];
          i := i + 1;
        }
        assert timeAndDate[..] == CopyMirror(digits, mirror, ptrSet);
        newMpxhTimeDate := true;
        timesRaised := timesRaised + 1;
      }
    }

    /** mpxhTimeDate_setTimeDate: date digits, then time digits, from the two parts of the argument. */
    method SetTimeDate(d: seq<Byte>, t: seq<Byte>)
      requires Valid() && |d| == 8 && |t| == 6
      modifies this`ptrTimeDateIn, this`ptrTimeDateOut, this`ptrSet, timeAndDate
      ensures Valid() && timeAndDate[..] == d + t
      ensures ptrTimeDateIn == 0 && ptrSet == 0 && Outstanding(AsSender()) == []
    {
      ptrTimeDateIn, ptrTimeDateOut, ptrSet := 0, 15, 0;
      var i: nat := ptrSet;
      while i <= 7
        invariant i <= 8 && forall k :: 0 <= k < i ==> timeAndDate[k] == d[k]
        modifies timeAndDate
      {
        timeAndDate[i] := d[i];
        i := i + 1;
      }
      var j := 0;
      while i <= SEG1
        invariant 8 <= i <= DIGITS && j == i - 8
        invariant forall k :: 0 <= k < i ==> timeAndDate[k] == (d + t)[k]
        modifies timeAndDate
      {
        timeAndDate[i] := t[j];
        i, j := i + 1, j + 1;
      }
    }

    /** mpxhTimeDate_getTimeDate undoes SetTimeDate. */
    method GetTimeDate() returns (d: seq<Byte>, t: seq<Byte>)
      requires Valid()
      ensures |d| == 8 && |t| == 6 && d + t == timeAndDate[..]
    {
      d, t := [], [];
      var i := 0;
      while i <= 7
        invariant i <= 8 && d == timeAndDate[..i]
      {
        d := d + [timeAndDate[i]];
        i := i + 1;
      }
      while i <= SEG1
        invariant 8 <= i <= DIGITS && t == timeAndDate[8..i]
      {
        t := t + [timeAndDate[i]];
        i := i + 1;
      }
    }
  }
}
