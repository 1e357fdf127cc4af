/**
 Software timers on a wrapping 32-bit tick counter (softTimers.c), the blinking LED that is
 driven by one (BlinkingLed.c) and the stop watch (stopWatch.c).
 */
module Timers {
  import opened Words

  datatype Timer = Timer(running: bool, start: Word32, interval: Word32)

  /** The tick counter n calls of softTimer_handler after it read `now`. */
  function TicksAfter(now: Word32, n: nat): Word32 {
    if n == 0 then now else Wrap32(TicksAfter(now, n - 1) + 1)
  }

  lemma {:induction false} TicksWrap(now: Word32, n: nat)
    ensures TicksAfter(now, n) == Wrap32(now + n)
  {
    if n > 0 {
      TicksWrap(now, n - 1);
      NextWrap(now + (n - 1));
    }
  }

  lemma NextWrap(x: int)
    ensures Wrap32(Wrap32(x) + 1) == Wrap32(x + 1)
  {
  }

  /** A counter that was read n ticks ago, for n below 2^32: it has wrapped at most once. */
  lemma TicksValue(now: Word32, n: Word32)
    ensures TicksAfter(now, n) == if Wrapped(now, n) then now + n - 0x1_0000_0000 else now + n
  {
  }

  /** softTimer_expired */
  function Expired(t: Timer, now: Word32): bool {
    t.running &&
    if now >= t.start then now - t.start > t.interval
    else Wrap32(65535 - t.start + now) > t.interval
  }

  /** The counter has passed zero since the start. */
  predicate Wrapped(start: Word32, n: nat) {
    start + n >= 0x1_0000_0000
  }

  /**
   A timer restarted n ticks ago, for every n below 2^32: exact until the counter wraps; then
   65535 ticks early; and late once n + 65535 reaches 2^32.
   */
  lemma ExpiryReported(start: Word32, interval: Word32, n: Word32)
    ensures var reported := Expired(Timer(true, start, interval), TicksAfter(start, n));
            if !Wrapped(start, n) then reported <==> n > interval
            else if n + 65535 < 0x1_0000_0000 then reported <==> n + 65535 > interval
            else reported <==> n + 65535 - 0x1_0000_0000 > interval
  {
    TicksValue(start, n);
    if Wrapped(start, n) {
      Wrap32Once(65535 - start + TicksAfter(start, n));
    }
  }

  /** Every interval is reported as soon as it has elapsed, exactly outside the last 65535 counts of a wrapped run. */
  lemma NeverLateIff(start: Word32, n: Word32)
    ensures (forall interval: Word32 :: n > interval ==> Expired(Timer(true, start, interval), TicksAfter(start, n)))
            <==> !Wrapped(start, n) || n + 65535 < 0x1_0000_0000
  {
    forall interval: Word32 {
      ExpiryReported(start, interval, n);
    }
    if Wrapped(start, n) && n + 65535 >= 0x1_0000_0000 {
      assert !Expired(Timer(true, start, n - 1), TicksAfter(start, n));
    }
  }

  /** No interval is reported before it has elapsed, except after a wrap, by at most 65535 ticks. */
  lemma NeverEarlyBeyond(start: Word32, interval: Word32, n: Word32)
    requires Expired(Timer(true, start, interval), TicksAfter(start, n))
    ensures n > interval || (Wrapped(start, n) && n + 65535 > interval)
  {
    ExpiryReported(start, interval, n);
  }

  class SystemTicks {
    var systemTicks: Word32

    /** softTimer_handler */
    method Handler()
      modifies this
      ensures systemTicks == TicksAfter(old(systemTicks), 1)
    {
      systemTicks := Wrap32(systemTicks + 1);
    }
  }

  class SoftTimer {
    var start: Word32
    var interval: Word32
    var running: bool

    function View(): Timer
      reads this
    {
      Timer(running, start, interval)
    }

    /** softTimer_init */
    method Init(clock: SystemTicks, interval: Word32)
      modifies this
      ensures View() == Timer(true, clock.systemTicks, interval)
    {
      running, start := true, clock.systemTicks;
      this.interval := interval;
    }

    /** softTimer_restart */
    method Restart(clock: SystemTicks)
      modifies this
      ensures View() == Timer(true, clock.systemTicks, old(interval))
    {
      running, start := true, clock.systemTicks;
    }

    /** softTimer_stop: a stopped timer never expires. */
    method Stop()
      modifies this`running
      ensures forall now: Word32 :: !Expired(View(), now)
    {
      running := false;
    }

    method IsExpired(clock: SystemTicks) returns (expired: bool)
      ensures expired <==> Expired(View(), clock.systemTicks)
    {
      if running {
        if clock.systemTicks >= start {
          return clock.systemTicks - start > interval;
        } else {
          return Wrap32(65535 - start + clock.systemTicks) > interval;
        }
      }
      return false;
    }
  }

  // ---------------------------------------------------------------- the blinking LED

  /** (a & b) != 0 */
  predicate CommonBit(a: nat, b: nat) {
    a > 0 && b > 0 && ((a % 2 == 1 && b % 2 == 1) || CommonBit(a / 2, b / 2))
  }

  lemma {:induction false} CommonBitWithPower(a: nat, k: nat)
    ensures CommonBit(a, Pow2(k)) <==> Bit(a, k)
    decreases k
  {
    ZeroHasNoBits(k);
    if k > 0 {
      CommonBitWithPower(a / 2, k - 1);
      HalfShiftsBits(a, k - 1);
    } else {
      QuotientUnique(a, 1, a);
      assert !CommonBit(a / 2, 0);
    }
  }

  /** The slot after one output: shifted, and back to the first once it passes the length mark. */
  function NextSlot(len: Word32, slot: Word32): Word32 {
    var shifted := Wrap32(slot * 2);
    if shifted > len then 1 else shifted
  }

  function SlotAfter(len: Word32, n: nat): Word32 {
    if n == 0 then 1 else NextSlot(len, SlotAfter(len, n - 1))
  }

  /** The n-th level put on the pin since the pattern was set. */
  function Output(pattern: Word32, len: Word32, n: nat): bool {
    CommonBit(pattern, SlotAfter(len, n))
  }

  /** The number of slots up to the length mark: floor(log2 len) + 1. */
  function Period(len: nat): (p: nat)
    ensures p >= 1
  {
    if len < 2 then 1 else 1 + Period(len / 2)
  }

  lemma {:induction false} PeriodBounds(len: nat)
    requires len >= 1
    ensures Pow2(Period(len) - 1) <= len < Pow2(Period(len))
  {
    if len >= 2 {
      PeriodBounds(len / 2);
    }
  }

  /** n mod p goes up by one until it returns to zero. */
  lemma ModStep(n: nat, p: nat)
    requires p >= 1
    ensures 0 <= n % p < p && n % p <= n
    ensures n % p == p - 1 ==> (n + 1) % p == 0 && (n + 1) / p == n / p + 1
    ensures n % p < p - 1 ==> (n + 1) % p == n % p + 1 && (n + 1) / p == n / p
  {
    QuotientBounds(n, p);
    var q := n / p;
    MulLe(0, q, p);
    MulDistributes(q, 1, p);
    QuotientUnique(n + 1, p, if n % p == p - 1 then q + 1 else q);
  }

  /** Below 2^31 the slots run through the powers of two up to the length mark, over and over. */
  lemma {:induction false} SlotsCycle(len: Word32, n: nat)
    requires len < 0x8000_0000
    ensures SlotAfter(len, n) == Pow2(n % Period(len))
  {
    if n > 0 {
      var p := Period(len);
      var before, after := (n - 1) % p, n % p;
      SlotsCycle(len, n - 1);
      ModStep(n - 1, p);
      assert after == if before == p - 1 then 0 else before + 1;
      SlotStep(len, before);
    } else {
      QuotientUnique(0, Period(len), 0);
    }
  }

  lemma SlotStep(len: Word32, k: nat)
    requires len < 0x8000_0000 && k < Period(len)
    ensures Pow2(k) < 0x8000_0000
    ensures NextSlot(len, Pow2(k)) == if k == Period(len) - 1 then 1 else Pow2(k + 1)
  {
    if len >= 1 {
      PeriodBounds(len);
      Pow2Monotonic(k, Period(len) - 1);
      if k < Period(len) - 1 {
        Pow2Monotonic(k + 1, Period(len) - 1);
      }
    }
  }

  /** From 2^31 on the slot is shifted out after 32 outputs and never comes back. */
  lemma {:induction false} SlotShiftedOut(len: Word32, n: nat)
    requires len >= 0x8000_0000
    ensures SlotAfter(len, n) == if n < 32 then Pow2(n) else 0
  {
    if n > 0 {
      SlotShiftedOut(len, n - 1);
      if n <= 32 {
        ShiftTowardsTop(len, n - 1);
      }
    }
  }

  lemma ShiftTowardsTop(len: Word32, k: nat)
    requires len >= 0x8000_0000 && k < 32
    ensures Pow2(k) < 0x1_0000_0000
    ensures NextSlot(len, Pow2(k)) == if k < 31 then Pow2(k + 1) else 0
  {
    Pow2OfWidths();
    assert Pow2(32) == 2 * Pow2(31);
    Pow2Monotonic(k, 31);
    if k < 31 {
      Pow2Monotonic(k + 1, 31);
    }
  }

  /**
   The LED shows the pattern bits up to the length mark periodically, for every pattern,
   exactly when the length mark is below 2^31.
   */
  lemma BlinksPeriodicallyIff(len: Word32)
    ensures (forall pattern: Word32, n: nat :: Output(pattern, len, n) == Bit(pattern, n % Period(len)))
            <==> len < 0x8000_0000
  {
    if len < 0x8000_0000 {
      forall pattern: Word32, n: nat ensures Output(pattern, len, n) == Bit(pattern, n % Period(len)) {
        SlotsCycle(len, n);
        CommonBitWithPower(pattern, n % Period(len));
      }
    } else {
      SlotShiftedOut(len, 32);
      MaximalPeriod(len);
      QuotientUnique(1, 1, 1);
      assert Output(1, len, 32) != Bit(1, 32 % Period(len));
    }
  }

  lemma MaximalPeriod(len: Word32)
    requires len >= 0x8000_0000
    ensures Period(len) == 32
  {
    PeriodBounds(len);
    Pow2OfWidths();
    if Period(len) <= 31 {
      Pow2Monotonic(Period(len), 31);
    } else if Period(len) >= 33 {
      Pow2Monotonic(32, Period(len) - 1);
    }
  }

  datatype Led = Led(pattern: Word32, len: Word32, slot: Word32, timer: Timer)

  /** blinkingLed_handler: an expired timer is restarted and one output made. */
  function Poll(led: Led, now: Word32): (Led, seq<bool>) {
    if Expired(led.timer, now) then
      (led.(timer := led.timer.(running := true, start := now), slot := NextSlot(led.len, led.slot)),
       [CommonBit(led.pattern, led.slot)])
    else (led, [])
  }

  /** The LED and its outputs after n ticks, each followed by one poll. */
  function PollRun(led: Led, now: Word32, n: nat): (Led, seq<bool>) {
    if n == 0 then (led, []) else
    var (before, outputs) := PollRun(led, now, n - 1);
    var (after, output) := Poll(before, TicksAfter(now, n));
    (after, outputs + output)
  }

  /** The first k outputs of a pattern. */
  function Outputs(pattern: Word32, len: Word32, k: nat): (o: seq<bool>)
    ensures |o| == k && forall i :: 0 <= i < k ==> o[i] == Output(pattern, len, i)
  {
    if k == 0 then [] else Outputs(pattern, len, k - 1) + [Output(pattern, len, k - 1)]
  }

  /**
   While the tick counter does not wrap, a pattern set at `now` is put out one slot every
   base + 1 ticks.
   */
  lemma OutputsEveryBasePlusOne(pattern: Word32, len: Word32, base: Word32, now: Word32, n: nat)
    requires now + n < 0x1_0000_0000
    ensures PollRun(Led(pattern, len, 1, Timer(true, now, base)), now, n).1
            == Outputs(pattern, len, n / (base + 1))
  {
    QuotientBounds(n, base + 1);
    RoundsAreProduct(n / (base + 1), base + 1);
    PolledRounds(pattern, len, base, now, n, n / (base + 1), n % (base + 1));
  }

  /** The ticks of q rounds of p ticks each. */
  function Rounds(q: nat, p: nat): nat {
    if q == 0 then 0 else Rounds(q - 1, p) + p
  }

  lemma {:induction false} RoundsAreProduct(q: nat, p: nat)
    ensures Rounds(q, p) == q * p
  {
    if q > 0 {
      RoundsAreProduct(q - 1, p);
      MulDistributes(q - 1, 1, p);
    }
  }

  lemma {:induction false} PolledRounds(pattern: Word32, len: Word32, base: Word32, now: Word32, n: nat, q: nat, r: nat)
    requires now + n < 0x1_0000_0000 && n == Rounds(q, base + 1) + r && r <= base
    ensures PollRun(Led(pattern, len, 1, Timer(true, now, base)), now, n)
            == (LedAfter(pattern, len, base, now + n, q, r), Outputs(pattern, len, q))
    decreases n
  {
    if n == 0 {
      NoTickYet(pattern, len, base, now);
    } else if r > 0 {
      PolledRounds(pattern, len, base, now, n - 1, q, r - 1);
      QuietPoll(pattern, len, base, now, n, q, r - 1);
    } else {
      PolledRounds(pattern, len, base, now, n - 1, q - 1, base);
      OutputPoll(pattern, len, base, now, n, q - 1);
    }
  }

  lemma NoTickYet(pattern: Word32, len: Word32, base: Word32, now: Word32)
    ensures PollRun(Led(pattern, len, 1, Timer(true, now, base)), now, 0)
            == (LedAfter(pattern, len, base, now, 0, 0), Outputs(pattern, len, 0))
  {
  }

  lemma QuietPoll(pattern: Word32, len: Word32, base: Word32, now: Word32, n: nat, q: nat, r: nat)
    requires now + n < 0x1_0000_0000 && r < base && r < n
    requires PollRun(Led(pattern, len, 1, Timer(true, now, base)), now, n - 1)
             == (LedAfter(pattern, len, base, now + (n - 1), q, r), Outputs(pattern, len, q))
    ensures PollRun(Led(pattern, len, 1, Timer(true, now, base)), now, n)
            == (LedAfter(pattern, len, base, now + n, q, r + 1), Outputs(pattern, len, q))
  {
    TicksBeforeWrap(now, n);
    PollOnce(pattern, len, base, now + n, q, r);
    assert Outputs(pattern, len, q) + [] == Outputs(pattern, len, q);
  }

  lemma OutputPoll(pattern: Word32, len: Word32, base: Word32, now: Word32, n: nat, q: nat)
    requires now + n < 0x1_0000_0000 && base < n
    requires PollRun(Led(pattern, len, 1, Timer(true, now, base)), now, n - 1)
             == (LedAfter(pattern, len, base, now + (n - 1), q, base), Outputs(pattern, len, q))
    ensures PollRun(Led(pattern, len, 1, Timer(true, now, base)), now, n)
            == (LedAfter(pattern, len, base, now + n, q + 1, 0), Outputs(pattern, len, q + 1))
  {
    TicksBeforeWrap(now, n);
    PollOnce(pattern, len, base, now + n, q, base);
  }

  lemma TicksBeforeWrap(now: Word32, n: nat)
    requires now + n < 0x1_0000_0000
    ensures TicksAfter(now, n) == now + n
  {
  }

  /** An LED that has made q outputs, the last of them r ticks ago. */
  function LedAfter(pattern: Word32, len: Word32, base: Word32, now: Word32, q: nat, r: nat): Led {
    Led(pattern, len, SlotAfter(len, q), Timer(true, if r <= now then now - r else 0, base))
  }

  lemma PollOnce(pattern: Word32, len: Word32, base: Word32, now: Word32, q: nat, r: nat)
    requires r <= base && r < now
    ensures var (led, output) := Poll(LedAfter(pattern, len, base, now - 1, q, r), now);
            if r == base
            then led == LedAfter(pattern, len, base, now, q + 1, 0) && output == [Output(pattern, len, q)]
            else led == LedAfter(pattern, len, base, now, q, r + 1) && output == []
  {
  }

  // Polls at any times, given in ticks since power-on: the counter shows them modulo 2^32.

  /**
   A timer started at `since` is reported at `time`: the ticks between them, modulo 2^32 and with
   65535 added if the counter has passed zero, exceed the base.
   */
  predicate Due(base: Word32, since: nat, time: nat) {
    var n := Wrap32(time - since);
    if Wrapped(Wrap32(since), n) then Wrap32(n + 65535) > base else n > base
  }

  lemma DueIsExpired(base: Word32, since: nat, time: nat)
    ensures Expired(Timer(true, Wrap32(since), base), Wrap32(time)) <==> Due(base, since, time)
  {
    var n := Wrap32(time - since);
    TicksWrap(Wrap32(since), n);
    SumOfWraps(since, time - since);
    ExpiryReported(Wrap32(since), base, n);
  }

  lemma SumOfWraps(a: int, b: int)
    ensures Wrap32(Wrap32(a) + Wrap32(b)) == Wrap32(a + b)
  {
  }

  /** Before the counter wraps: more than `base` ticks have passed. */
  lemma DueBeforeWrap(base: Word32, since: nat, time: nat)
    requires since <= time < 0x1_0000_0000
    ensures Due(base, since, time) <==> time - since > base
  {
  }

  /** The time of the last output before poll i, or of the setting of the pattern if there is none. */
  function LastOutput(base: Word32, begin: nat, times: seq<nat>, i: nat): nat
    requires i <= |times|
  {
    if i == 0 then begin
    else if Due(base, LastOutput(base, begin, times, i - 1), times[i - 1]) then times[i - 1]
    else LastOutput(base, begin, times, i - 1)
  }

  /** The number of outputs before poll i. */
  function OutputsBefore(base: Word32, begin: nat, times: seq<nat>, i: nat): nat
    requires i <= |times|
  {
    if i == 0 then 0
    else OutputsBefore(base, begin, times, i - 1)
         + if Due(base, LastOutput(base, begin, times, i - 1), times[i - 1]) then 1 else 0
  }

  /** The LED before poll i. */
  function PolledAt(led: Led, times: seq<nat>, i: nat): Led
    requires i <= |times|
  {
    if i == 0 then led else Poll(PolledAt(led, times, i - 1), Wrap32(times[i - 1])).0
  }

  /** What poll i puts out. */
  function ShownAt(led: Led, times: seq<nat>, i: nat): seq<bool>
    requires i < |times|
  {
    Poll(PolledAt(led, times, i), Wrap32(times[i])).1
  }

  /**
   For every sequence of poll times: a poll makes an output exactly if the timer that has run since
   the poll of the last output is due, and the outputs are those of the pattern in order.
   */
  lemma PollsShowPattern(pattern: Word32, len: Word32, base: Word32, begin: nat, times: seq<nat>, i: nat)
    requires i < |times|
    ensures ShownAt(Led(pattern, len, 1, Timer(true, Wrap32(begin), base)), times, i)
            == if Due(base, LastOutput(base, begin, times, i), times[i])
               then [Output(pattern, len, OutputsBefore(base, begin, times, i))] else []
  {
    PolledLed(pattern, len, base, begin, times, i);
    DueIsExpired(base, LastOutput(base, begin, times, i), times[i]);
  }

  lemma {:induction false} PolledLed(pattern: Word32, len: Word32, base: Word32, begin: nat, times: seq<nat>, i: nat)
    requires i <= |times|
    ensures PolledAt(Led(pattern, len, 1, Timer(true, Wrap32(begin), base)), times, i)
            == Led(pattern, len, SlotAfter(len, OutputsBefore(base, begin, times, i)),
                   Timer(true, Wrap32(LastOutput(base, begin, times, i)), base))
    decreases i
  {
    if i > 0 {
      PolledLed(pattern, len, base, begin, times, i - 1);
      DueIsExpired(base, LastOutput(base, begin, times, i - 1), times[i - 1]);
    }
  }

  predicate InOrder(begin: nat, times: seq<nat>) {
    && (times != [] ==> begin <= times[0])
    && forall i :: 0 < i < |times| ==> times[i - 1] <= times[i]
  }

  /**
   While the counter does not wrap, a poll makes an output exactly if more than `base` ticks have
   passed since the poll of the last output, or since the pattern was set.
   */
  lemma LatePollsRestart(pattern: Word32, len: Word32, base: Word32, begin: nat, times: seq<nat>, i: nat)
    requires InOrder(begin, times) && i < |times| && times[i] < 0x1_0000_0000
    ensures begin <= LastOutput(base, begin, times, i) <= times[i]
    ensures ShownAt(Led(pattern, len, 1, Timer(true, Wrap32(begin), base)), times, i)
            == if times[i] - LastOutput(base, begin, times, i) > base
               then [Output(pattern, len, OutputsBefore(base, begin, times, i))] else []
  {
    LastOutputPast(base, begin, times, i);
    DueBeforeWrap(base, LastOutput(base, begin, times, i), times[i]);
    PollsShowPattern(pattern, len, base, begin, times, i);
  }

  lemma {:induction false} LastOutputPast(base: Word32, begin: nat, times: seq<nat>, i: nat)
    requires InOrder(begin, times) && i < |times|
    ensures begin <= LastOutput(base, begin, times, i) <= times[i]
    decreases i
  {
    if i > 0 {
      LastOutputPast(base, begin, times, i - 1);
      assert times[i - 1] <= times[i];
    }
  }

  class BlinkingLed {
    var pattern: Word32
    var patternLen: Word32
    var slot: Word32
    var baseTimer: Timer

    function View(): Led
      reads this
    {
      Led(pattern, patternLen, slot, baseTimer)
    }

    /** blinkingLed_setPattern */
    method SetPattern(clock: SystemTicks, pattern: Word32, len: Word32, timeBase: Word32)
      modifies this
      ensures View() == Led(pattern, len, 1, Timer(true, clock.systemTicks, timeBase))
    {
      this.pattern := pattern;
      patternLen := len;
      slot := 1;
      baseTimer := Timer(true, clock.systemTicks, timeBase);
    }

    /** blinkingLed_handler; the pin level it sets, if any, is returned. */
    method Handler(clock: SystemTicks) returns (output: seq<bool>)
      modifies this
      ensures (View(), output) == Poll(old(View()), clock.systemTicks)
    {
      output := [];
      if Expired(baseTimer, clock.systemTicks) {
        baseTimer := baseTimer.(running := true, start := clock.systemTicks);
        if CommonBit(pattern, slot) {
          output := [true];
        } else {
          output := [false];
        }
        slot := Wrap32(slot * 2);
        if slot > patternLen {
          slot := 1;
        }
      }
    }
  }

  // ---------------------------------------------------------------- the stop watch

  datatype WatchState = Clear | Stopped | Running

  class StopWatch {
    var start: Word32
    var stop: Word32
    var state: WatchState

    /** stopWatch_start */
    method Start(clock: SystemTicks)
      modifies this
      ensures start == clock.systemTicks && stop == 0 && state == Running
    {
      start, stop, state := clock.systemTicks, 0, Running;
    }

    /** stopWatch_stop */
    method Stop(clock: SystemTicks)
      modifies this
      ensures start == old(start) && stop == clock.systemTicks && state == Stopped
    {
      stop, state := clock.systemTicks, Stopped;
    }

    /** stopWatch_clear */
    method Reset()
      modifies this
      ensures start == stop == 0 && state == Clear
    {
      start, stop, state := 0, 0, Clear;
    }

    /** stopWatch_elapsedTime: the ticks between start and stop, up to 2^32, also across a wrap. */
    method ElapsedTime(ghost n: Word32) returns (elapsed: Word32)
      requires state == Stopped ==> stop == TicksAfter(start, n)
      ensures elapsed == if state == Stopped then n else 0
    {
      if state == Stopped {
        DifferenceSurvivesWrap(start, n);
        return Wrap32(stop - start);
      }
      return 0;
    }

    /** stopWatch_currentElapsedTime */
    method CurrentElapsedTime(clock: SystemTicks, ghost n: Word32) returns (elapsed: Word32)
      requires state == Running ==> clock.systemTicks == TicksAfter(start, n)
      ensures elapsed == if state == Running then n else 0
    {
      if state == Running {
        DifferenceSurvivesWrap(start, n);
        return Wrap32(clock.systemTicks - start);
      }
      return 0;
    }
  }

  /** The 32-bit difference of two readings is the number of ticks between them. */
  lemma DifferenceSurvivesWrap(start: Word32, n: Word32)
    ensures Wrap32(TicksAfter(start, n) as int - start) == n
  {
    TicksValue(start, n);
    Wrap32Once(TicksAfter(start, n) as int - start);
  }
}
