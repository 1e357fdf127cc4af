/**
 Baud-rate registers of the SERCOM driver (sercom.c): the hand-written 64-bit divider
 and the three divisor computations that rest on it.
 */
module SercomBaud {
  import opened Words

  datatype Mode = Arithmetic | Fractional

  /** SERCOM_ASYNC_SAMPLE_NUM_x */
  type Samples = s: int | s == 3 || s == 8 || s == 16 witness 16

  /** STATUS_ERR_BAUDRATE_UNAVAILABLE leaves the output untouched; STATUS_OK stores a register. */
  datatype BaudResult = Unavailable | Register(value: nat)

  const BAUD_INT_MAX := 8192

  // ---------------------------------------------------------------- bit-serial division

  /** What the divider answers: the floor, or all ones when the divisor is zero. */
  function Quotient(n: nat, d: nat): nat
  {
    if d == 0 then 0x1_0000_0000_0000_0000 - 1 else n / d
  }

  /** The k high quotient bits and the partial remainder once a k-bit prefix has been consumed. */
  function PrefixQuotient(prefix: nat, d: nat, k: nat): nat {
    if d == 0 then Pow2(k) - 1 else prefix / d
  }

  function PrefixRemainder(prefix: nat, d: nat): nat {
    if d == 0 then prefix else prefix % d
  }

  /** The bits of n from position i upwards. */
  function Prefix(n: nat, i: nat): nat {
    QuotientBounds(n, Pow2(i));
    n / Pow2(i)
  }

  lemma PrefixGrows(n: nat, i: nat)
    requires n < 0x1_0000_0000_0000_0000
    ensures Prefix(n, i) == 2 * Prefix(n, i + 1) + (if Bit(n, i) then 1 else 0)
    ensures Prefix(n, i) < 0x1_0000_0000_0000_0000
  {
    var p := Pow2(i);
    var low := n / p;
    var high := low / 2;
    QuotientBounds(n, p);
    assert 2 * high <= low <= 2 * high + 1;
    MulLe(2 * high, low, p);
    MulLe(low, 2 * high + 1, p);
    assert high * (2 * p) == 2 * high * p;
    assert (2 * high + 1) * p + p == high * (2 * p) + 2 * p;
    QuotientUnique(n, 2 * p, high);
  }

  /** One bit of schoolbook division; the shifted remainder stays within the consumed prefix. */
  lemma DivisionStep(prefix: nat, bit: nat, d: nat, k: nat)
    requires bit < 2
    ensures var r := 2 * PrefixRemainder(prefix, d) + bit;
            && r <= 2 * prefix + bit
            && PrefixRemainder(2 * prefix + bit, d) == (if r >= d then r - d else r)
            && PrefixQuotient(2 * prefix + bit, d, k + 1)
               == 2 * PrefixQuotient(prefix, d, k) + (if r >= d then 1 else 0)
  {
    if d > 0 {
      QuotientBounds(prefix, d);
      ShiftedQuotient(prefix, bit, d, prefix / d, prefix % d);
    }
  }

  lemma ShiftedQuotient(prefix: nat, bit: nat, d: nat, q: nat, r: nat)
    requires bit < 2 && prefix == q * d + r && r < d
    ensures var r' := 2 * r + bit;
            && (2 * prefix + bit) / d == (if r' >= d then 2 * q + 1 else 2 * q)
            && (2 * prefix + bit) % d == (if r' >= d then r' - d else r')
  {
    var q' := if 2 * r + bit >= d then 2 * q + 1 else 2 * q;
    MulDistributes(2 * q, 1, d);
    assert 2 * q * d == 2 * (q * d);
    QuotientUnique(2 * prefix + bit, d, q');
  }

  /** The remainder and the quotient bits held by the loop once bits 63 down to i are consumed. */
  ghost predicate DividedDownTo(n: nat, d: nat, i: nat, r: nat, q: nat)
    requires i <= 64
  {
    var prefix := Prefix(n, i);
    r == PrefixRemainder(prefix, d) && q == Pow2(i) * PrefixQuotient(prefix, d, 64 - i)
  }

  lemma DivisionRound(n: nat, d: nat, i: nat, r: nat, q: nat)
    requires n < 0x1_0000_0000_0000_0000 && i < 64 && DividedDownTo(n, d, i + 1, r, q)
    ensures var shifted := 2 * r + (if Bit(n, i) then 1 else 0);
            && shifted <= Prefix(n, i) < 0x1_0000_0000_0000_0000
            && (shifted < d ==> DividedDownTo(n, d, i, shifted, q))
            && (shifted >= d ==> DividedDownTo(n, d, i, shifted - d, SetBit(q, i)))
  {
    var prefix, bit := Prefix(n, i + 1), if Bit(n, i) then 1 else 0;
    var m := PrefixQuotient(prefix, d, 63 - i);
    PrefixGrows(n, i);
    DivisionStep(prefix, bit, d, 63 - i);
    SetClearBit(m, i);
    if 2 * r + bit < d {
      assert Pow2(i) * PrefixQuotient(2 * prefix + bit, d, 64 - i) == Pow2(i) * (2 * m) == q;
    } else {
      assert Pow2(i) * PrefixQuotient(2 * prefix + bit, d, 64 - i) == Pow2(i) * (2 * m + 1);
    }
  }

  lemma DivisionStarts(n: nat, d: nat)
    requires n < 0x1_0000_0000_0000_0000
    ensures DividedDownTo(n, d, 64, 0, 0)
  {
    Pow2OfWidths();
    QuotientUnique(n, 0x1_0000_0000_0000_0000, 0);
  }

  lemma DivisionEnds(n: nat, d: nat, r: nat, q: nat)
    requires n < 0x1_0000_0000_0000_0000
    requires DividedDownTo(n, d, 0, r, q)
    ensures q == Quotient(n, d) < 0x1_0000_0000_0000_0000
  {
    Pow2OfWidths();
    QuotientUnique(n, 1, n);
    if d > 0 {
      QuotientBounds(n, d);
    }
  }

  lemma ShiftFits(r: nat)
    ensures 2 * r < 0x1_0000_0000_0000_0000 ==> Wrap64(r * 2) == 2 * r
  {
  }

  /** long_division: correct for every pair of 64-bit words, the zero divisor included. */
  method LongDivision(n: Word64, d: Word64) returns (q: nat)
    ensures q == Quotient(n, d)
    ensures q < 0x1_0000_0000_0000_0000
  {
    q := 0;
    var r: nat := 0;
    var i := 63;
    DivisionStarts(n, d);
    while i >= 0
      invariant -1 <= i <= 63
      invariant DividedDownTo(n, d, i + 1, r, q)
    {
      DivisionRound(n, d, i, r, q);
      var bit := Bit(n, i);
      ShiftFits(r);
      r := Wrap64(r * 2);  // no bit is lost: 2 * r <= n / 2^i
      if bit {
        r := r + 1;
      }
      if r >= d {
        r := r - d;
        q := SetBit(q, i);
      }
      i := i - 1;
    }
    DivisionEnds(n, d, r, q);
  }

  // ---------------------------------------------------------------- synchronous mode

  /** How often baudrate fits into half the clock. */
  function HalfClockQuotient(baudrate: nat, clock: nat): nat
    requires baudrate >= 1
  {
    clock / 2 / baudrate
  }

  /** clock_value after a number of iterations of the subtraction loop. */
  function SyncLoop(clockValue: nat, baudrate: nat, rounds: nat): nat {
    if rounds == 0 then clockValue else
    var before := SyncLoop(clockValue, baudrate, rounds - 1);
    if before < baudrate then before else before - baudrate
  }

  /** The loop guard fails after some number of rounds exactly when the baud rate is not zero. */
  lemma SyncLoopEndsIff(clockValue: nat, baudrate: nat)
    ensures (exists rounds: nat :: SyncLoop(clockValue, baudrate, rounds) < baudrate)
            <==> baudrate >= 1
  {
    if baudrate >= 1 {
      SyncLoopShrinks(clockValue, baudrate, clockValue);
    }
  }

  lemma {:induction false} SyncLoopShrinks(clockValue: nat, baudrate: nat, rounds: nat)
    requires baudrate >= 1
    ensures var now := SyncLoop(clockValue, baudrate, rounds);
            now < baudrate || now <= clockValue - rounds
  {
    if rounds > 0 {
      SyncLoopShrinks(clockValue, baudrate, rounds - 1);
    }
  }

  /** Register b divides half the clock down to baudrate or just above it. */
  predicate Brackets(b: nat, baudrate: nat, half: nat) {
    (b + 1) * baudrate <= half < (b + 2) * baudrate
  }

  /** What the 16-bit counter of the subtraction loop makes of the quotient. */
  function SyncResult(baudrate: nat, clock: nat): BaudResult
    requires baudrate >= 1
  {
    if baudrate > clock / 2 then Unavailable else
    var counted := Wrap16(HalfClockQuotient(baudrate, clock) - 1);
    if counted > 0xFF then Unavailable else Register(counted)
  }

  /** _sercom_get_sync_baud_val; for a baud rate of zero its loop does not end. */
  method SyncBaud(baudrate: Word32, clock: Word32) returns (result: BaudResult)
    requires baudrate >= 1
    ensures result == SyncResult(baudrate, clock)
  {
    var half := clock / 2;
    if baudrate > half {
      return Unavailable;
    }
    var baudCalculated := 0;
    var clockValue := half;
    ghost var rounds: nat := 0;
    while clockValue >= baudrate
      invariant 0 <= clockValue <= half
      invariant InSyncLoop(half, baudrate, rounds, clockValue)
      invariant baudCalculated == Wrap16(rounds)
    {
      SyncRound(half, baudrate, rounds, clockValue);
      PredecessorWraps(rounds + 1);
      clockValue := clockValue - baudrate;
      baudCalculated := Wrap16(baudCalculated + 1);
      rounds := rounds + 1;
    }
    SyncQuotient(baudrate, clock, rounds, clockValue);
    PredecessorWraps(rounds);
    var last: int := baudCalculated;
    baudCalculated := Wrap16(last - 1);
    if baudCalculated > 0xFF {
      return Unavailable;
    }
    return Register(baudCalculated);
  }

  lemma PredecessorWraps(x: int)
    ensures Wrap16(Wrap16(x) - 1) == Wrap16(x - 1)
    ensures Wrap16(Wrap16(x - 1) + 1) == Wrap16(x)
  {
  }

  lemma SyncQuotient(baudrate: nat, clock: nat, rounds: nat, clockValue: nat)
    requires baudrate >= 1
    requires InSyncLoop(clock / 2, baudrate, rounds, clockValue) && clockValue < baudrate
    ensures rounds == HalfClockQuotient(baudrate, clock)
  {
    QuotientUnique(clock / 2, baudrate, rounds);
  }

  /**
   A register is accepted when the wrapped count is at most 255, and it brackets the baud rate
   exactly when the quotient is at most 256: larger ones have wrapped around 16 bits.
   */
  lemma SyncBracketsIff(baudrate: Word32, clock: Word32)
    requires baudrate >= 1
    ensures var quotient, result := HalfClockQuotient(baudrate, clock), SyncResult(baudrate, clock);
            && (result.Register? <==> baudrate <= clock / 2 && Wrap16(quotient - 1) <= 255)
            && (result.Register? ==> (Brackets(result.value, baudrate, clock / 2) <==> quotient <= 256))
  {
    if SyncResult(baudrate, clock).Register? {
      var half := clock / 2;
      QuotientBounds(half, baudrate);
      if half / baudrate < 1 {
        MulLe(half / baudrate, 0, baudrate);
      }
      BracketIffSmall(baudrate, half, half / baudrate, Wrap16(half / baudrate - 1));
    }
  }

  /** A quotient of 65537 has wrapped to a count of 1, and the register of 0 is accepted. */
  lemma WrappedCountAccepted()
    ensures SyncResult(1, 131074) == Register(0) && !Brackets(0, 1, 131074 / 2)
  {
    SyncBracketsIff(1, 131074);
  }

  /** clock_value after a number of full rounds, none of which was refused. */
  ghost predicate InSyncLoop(half: nat, baudrate: nat, rounds: nat, clockValue: nat) {
    clockValue == SyncLoop(half, baudrate, rounds) && half == rounds * baudrate + clockValue
  }

  lemma SyncRound(half: nat, baudrate: nat, rounds: nat, clockValue: nat)
    requires InSyncLoop(half, baudrate, rounds, clockValue) && clockValue >= baudrate
    ensures InSyncLoop(half, baudrate, rounds + 1, clockValue - baudrate)
  {
  }

  lemma BracketIffSmall(baudrate: nat, half: nat, quotient: nat, b: nat)
    requires baudrate >= 1 && quotient >= 1
    requires quotient * baudrate <= half < quotient * baudrate + baudrate
    requires b == Wrap16(quotient - 1) <= 255
    ensures Brackets(b, baudrate, half) <==> quotient <= 256
  {
    assert (quotient + 1) * baudrate == quotient * baudrate + baudrate;
    if quotient > 256 {
      assert b + 2 <= quotient;
      MulLe(b + 2, quotient, baudrate);
    }
  }

  // ---------------------------------------------------------------- asynchronous modes

  /**
   The value stored in arithmetic mode for product == samples * baudrate: every step is a
   64-bit word, the store keeps 16 bits.
   */
  function ArithmeticRegister(product: nat, clock: Word32): nat {
    var ratio := Quotient(Wrap64(product * 0x1_0000_0000), clock);
    ScaledRegister(ratio)
  }

  function ScaledRegister(ratio: nat): nat {
    Wrap16(Wrap64(65536 * Wrap64(0x1_0000_0000 - ratio)) / 0x1_0000_0000)
  }

  /** baud_int and baud_fp packed into one word, from the two quotients. */
  function FractionalRegister(quotient: nat, eighths: nat): nat {
    var baudInt := Wrap32(quotient);
    var baudFp: nat := Wrap8(eighths - 8 * baudInt);
    Wrap16(BitOr(baudInt, baudFp * 8192))
  }

  /** samples * baudrate; the operands never overflow 64 bits. */
  function Product(baudrate: Word32, samples: Samples): (p: Word64)
    ensures p < 0x10_0000_0000
  {
    if samples == 3 then 3 * baudrate else if samples == 8 then 8 * baudrate else 16 * baudrate
  }

  lemma ProductIsProduct(baudrate: Word32, samples: Samples)
    ensures Product(baudrate, samples) == samples * baudrate == baudrate * samples
  {
  }

  /** The outcome of _sercom_get_async_baud_val; the range check multiplies in 32 bits. */
  function AsyncResult(baudrate: Word32, clock: Word32, mode: Mode, samples: Samples): BaudResult {
    var product := Product(baudrate, samples);
    if Wrap32(product) > clock then
      Unavailable
    else if mode.Arithmetic? then
      Register(ArithmeticRegister(product, clock))
    else if Wrap32(Quotient(clock, product)) > BAUD_INT_MAX then
      Unavailable
    else
      Register(FractionalRegister(Quotient(clock, product), Quotient(8 * clock, product)))
  }

  /** _sercom_get_async_baud_val */
  method AsyncBaud(baudrate: Word32, clock: Word32, mode: Mode, samples: Samples)
    returns (result: BaudResult)
    ensures result == AsyncResult(baudrate, clock, mode, samples)
  {
    var product := Product(baudrate, samples);
    if Wrap32(product) > clock {
      return Unavailable;
    }
    if mode.Arithmetic? {
      result := ArithmeticBaud(product, clock);
    } else {
      result := FractionalBaud(product, clock);
    }
  }

  method ArithmeticBaud(product: Word64, clock: Word32) returns (result: BaudResult)
    ensures result == Register(ArithmeticRegister(product, clock))
  {
    var temp1 := Wrap64((product as int) * 0x1_0000_0000);
    var ratio := LongDivision(temp1, clock);
    var scale := Wrap64(0x1_0000_0000 - ratio as int);
    var baudCalculated := Wrap64(65536 * (scale as int)) / 0x1_0000_0000;
    return Register(Wrap16(baudCalculated));
  }

  method FractionalBaud(product: Word64, clock: Word32) returns (result: BaudResult)
    ensures result == if Wrap32(Quotient(clock, product)) > BAUD_INT_MAX then Unavailable
                      else Register(FractionalRegister(Quotient(clock, product),
                                                       Quotient(8 * clock, product)))
  {
    var quotient := LongDivision(clock, product);
    var baudInt := Wrap32(quotient);
    if baudInt > BAUD_INT_MAX {
      return Unavailable;
    }
    var eighths := LongDivision(8 * clock, product);
    var baudFp: nat := Wrap8(eighths - 8 * baudInt);
    var baudCalculated := BitOr(baudInt, baudFp * 8192);
    return Register(Wrap16(baudCalculated));
  }

  /** The real number that the arithmetic register approximates. */
  ghost function ExactBaud(product: nat, clock: nat): real
    requires clock > 0
  {
    65536.0 * (1.0 - product as real / clock as real)
  }

  /** Within one unit: less than 1 below the exact value and less than 2^-16 above it. */
  ghost predicate Accurate(register: nat, product: nat, clock: nat)
    requires clock > 0
  {
    -1.0 / 65536.0 < ExactBaud(product, clock) - register as real < 1.0
  }

  /** The integer part and the eighths of a fractional register, in eighths. */
  function Eighths(register: nat): nat {
    8 * (register % 8192) + register / 8192
  }

  /**
   Arithmetic mode, all inputs: an accepted register approximates the exact value precisely
   when the baud rate is not zero and the product did not overflow the 32-bit range check. A
   clock of zero, for which there is no such value, gives a register of zero.
   */
  lemma ArithmeticModeAccuracy(baudrate: Word32, clock: Word32, samples: Samples)
    ensures var product, result := Product(baudrate, samples), AsyncResult(baudrate, clock, Arithmetic, samples);
            && (result.Register? <==> Wrap32(product) <= clock)
            && (result.Register? ==>
                  if clock == 0 then result.value == 0
                  else Accurate(result.value, product, clock) <==> baudrate >= 1 && product < 0x1_0000_0000)
  {
    var product := Product(baudrate, samples);
    if Wrap32(product) <= clock {
      if clock == 0 {
        ZeroClock(product);
      } else {
        ArithmeticAccuracy(product, clock);
      }
    }
  }

  /** A clock of 16 Hz, and a baud rate whose product with the 16 samples wraps to 16. */
  lemma OverflowedProductAccepted()
    ensures var result := AsyncResult(0x1000_0001, 16, Arithmetic, 16);
            result.Register? && !Accurate(result.value, Product(0x1000_0001, 16), 16)
  {
    ArithmeticModeAccuracy(0x1000_0001, 16, 16);
  }

  /**
   Fractional mode, all inputs: accepted are the positive products that pass the range check
   and divide the clock at most 8192 times, and the register decodes to the exact number of
   eighths precisely when the integer part fits its 13 bits.
   */
  lemma FractionalModeExact(baudrate: Word32, clock: Word32, samples: Samples)
    ensures var product, result := Product(baudrate, samples), AsyncResult(baudrate, clock, Fractional, samples);
            && (result.Register? <==> Wrap32(product) <= clock && 0 < product && clock / product <= 8192)
            && (result.Register? ==>
                  (Eighths(result.value) == 8 * clock / product <==> clock / product < 8192))
  {
    var product := Product(baudrate, samples);
    FractionalIntegerPart(product, clock);
    if product > 0 && clock / product <= 8192 {
      EighthsOfQuotient(clock, product);
      FractionalFields(clock / product, 8 * clock / product);
    }
  }

  /** An integer part of 8192 is accepted, and the register does not decode to it. */
  lemma SpilledIntegerPartAccepted()
    ensures var result := AsyncResult(1, 65536, Fractional, 8);
            65536 / Product(1, 8) == 8192 && result.Register? && Eighths(result.value) != 8 * 65536 / Product(1, 8)
  {
    FractionalModeExact(1, 65536, 8);
  }

  // ------------------------------------------------ fractional mode: packing the two fields

  lemma FractionalIntegerPart(product: Word64, clock: Word32)
    ensures Wrap32(Quotient(clock, product))
            == (if product > 0 then clock / product else 0x1_0000_0000 - 1)
  {
  }

  /** An integer part of 8192 does not fit its 13 bits and spills into the eighths. */
  lemma FractionalFields(whole: nat, eighths: nat)
    requires whole <= 8192 && 0 <= eighths - 8 * whole < 8
    ensures Eighths(FractionalRegister(whole, eighths)) == eighths <==> whole < 8192
  {
    var fp := eighths - 8 * whole;
    NarrowFields(whole, fp);
    if whole < 8192 {
      FieldsDisjoint(whole, fp);
    } else {
      FieldsOverlap(fp);
    }
  }

  lemma NarrowFields(whole: nat, fp: nat)
    requires whole <= 8192 && fp < 8
    ensures FractionalRegister(whole, 8 * whole + fp) == Wrap16(BitOr(whole, fp * 8192))
  {
    assert Wrap32(whole) == whole;
    assert Wrap8(fp) == fp;
  }

  lemma FieldsDisjoint(whole: nat, fp: nat)
    requires whole < 8192 && fp < 8
    ensures Eighths(Wrap16(BitOr(whole, fp * 8192))) == 8 * whole + fp
  {
    Pow2Of13();
    OrDisjoint(whole, fp, 13);
    EighthsOfFields(whole, fp);
  }

  lemma FieldsOverlap(fp: nat)
    requires fp < 8
    ensures Eighths(Wrap16(BitOr(8192, fp * 8192))) < 8
  {
    Pow2Of13();
    OrShifted(1, fp, 13);
    OrDisjoint(0, fp / 2, 0);
    EighthsOfFields(0, 2 * (fp / 2) + 1);
  }

  lemma Pow2Of13()
    ensures Pow2(13) == 8192
  {
  }

  lemma EighthsOfFields(whole: nat, fp: nat)
    requires whole < 8192 && fp < 8
    ensures Eighths(Wrap16(whole + fp * 8192)) == 8 * whole + fp
  {
  }

  lemma EighthsOfQuotient(clock: nat, product: nat)
    requires product > 0
    ensures 0 <= 8 * clock / product - 8 * (clock / product) < 8
  {
    var whole, eighths := clock / product, 8 * clock / product;
    QuotientBounds(clock, product);
    QuotientBounds(8 * clock, product);
    assert 8 * whole * product == 8 * (whole * product);
    assert (8 * whole + 8) * product == 8 * (whole * product) + 8 * product;
    if eighths < 8 * whole {
      MulLe(eighths + 1, 8 * whole, product);
    } else if eighths >= 8 * whole + 8 {
      MulLe(8 * whole + 8, eighths, product);
    }
  }

  // ------------------------------------------------ arithmetic mode: the error bound

  lemma ArithmeticAccuracy(product: nat, clock: Word32)
    requires 0 < clock && Wrap32(product) <= clock
    ensures Accurate(ArithmeticRegister(product, clock), product, clock)
            <==> 1 <= product < 0x1_0000_0000
  {
    if product == 0 {
      ZeroProduct(clock);
    } else if product < 0x1_0000_0000 {
      InRangeIsAccurate(product, clock);
    } else {
      OverflowIsInaccurate(ArithmeticRegister(product, clock), product, clock);
    }
  }

  lemma ZeroClock(product: nat)
    requires Wrap32(product) == 0
    ensures ArithmeticRegister(product, 0) == 0
  {
    assert Wrap64(product * 0x1_0000_0000) == 0;
    assert ScaledRegister(0x1_0000_0000_0000_0000 - 1) == 0;
  }

  lemma ZeroProduct(clock: Word32)
    requires 0 < clock
    ensures ArithmeticRegister(0, clock) == 0
    ensures !Accurate(0, 0, clock)
  {
    QuotientUnique(0, clock, 0);
    assert ScaledRegister(0) == 0;
  }

  lemma InRangeIsAccurate(product: nat, clock: Word32)
    requires 1 <= product <= clock
    ensures Accurate(ArithmeticRegister(product, clock), product, clock)
  {
    var ratio := product * 0x1_0000_0000 / clock;
    RatioBounds(product, clock, ratio);
    var register := (0x1_0000_0000 - ratio) / 65536;
    assert Wrap64(product * 0x1_0000_0000) == product * 0x1_0000_0000;
    NoOverflow(ratio);
    RegisterBounds(product, clock, ratio, register);
    RealBounds(register, product, clock);
  }

  lemma NoOverflow(ratio: nat)
    requires 1 <= ratio <= 0x1_0000_0000
    ensures ScaledRegister(ratio) == (0x1_0000_0000 - ratio) / 65536
  {
  }

  lemma RatioBounds(product: nat, clock: nat, ratio: nat)
    requires 1 <= product <= clock < 0x1_0000_0000
    requires ratio == product * 0x1_0000_0000 / clock
    ensures 1 <= ratio <= 0x1_0000_0000
    ensures ratio * clock <= product * 0x1_0000_0000 < ratio * clock + clock
  {
  }

  /** The integer form of the bound. */
  lemma RegisterBounds(product: nat, clock: nat, ratio: nat, register: nat)
    requires 1 <= product <= clock && 1 <= ratio <= 0x1_0000_0000
    requires ratio * clock <= product * 0x1_0000_0000 < ratio * clock + clock
    requires register == (0x1_0000_0000 - ratio) / 65536
    ensures 65536 * (register * clock - 65536 * (clock - product)) < clock
    ensures 65536 * (clock - product) < register * clock + clock
  {
    var scale := 0x1_0000_0000 - ratio;
    MulDistributes(0x1_0000_0000, ratio, clock);
    ScaleBounds(scale, clock, register);
  }

  lemma ScaleBounds(scale: nat, clock: nat, register: nat)
    requires 65536 * register <= scale < 65536 * register + 65536 && clock > 0
    ensures 65536 * (register * clock) <= scale * clock < 65536 * (register * clock) + 65536 * clock
  {
    MulLe(65536 * register, scale, clock);
    MulLt(scale, 65536 * register + 65536, clock);
    MulDistributes(65536 * register, 65536, clock);
    assert 65536 * register * clock == 65536 * (register * clock);
  }

  lemma RealBounds(register: nat, product: nat, clock: nat)
    requires clock > 0
    requires 65536 * (register * clock - 65536 * (clock - product)) < clock
    requires 65536 * (clock - product) < register * clock + clock
    ensures Accurate(register, product, clock)
  {
    var c, p, v := clock as real, product as real, register as real;
    assert (register * clock) as real == v * c;
    assert 65536.0 * (v * c - 65536.0 * (c - p)) < c;
    assert 65536.0 * (c - p) < v * c + c;
    ErrorInReals(c, p, v);
  }

  lemma ErrorInReals(c: real, p: real, v: real)
    requires c > 0.0
    requires 65536.0 * (v * c - 65536.0 * (c - p)) < c
    requires 65536.0 * (c - p) < v * c + c
    ensures -1.0 / 65536.0 < 65536.0 * (1.0 - p / c) - v < 1.0
  {
    var exact := 65536.0 * (1.0 - p / c);
    ScaledExact(c, p, exact);
    RealDistributes(exact, v, c);
    RealCancel(c, exact - v, 1.0);
    RealCancel(c, v - exact, 1.0 / 65536.0);
  }

  lemma ScaledExact(c: real, p: real, exact: real)
    requires c > 0.0 && exact == 65536.0 * (1.0 - p / c)
    ensures c * exact == 65536.0 * (c - p)
  {
  }

  lemma RealDistributes(a: real, b: real, c: real)
    ensures c * (a - b) == c * a - b * c
    ensures c * (b - a) == b * c - c * a
  {
  }

  /** A product of 2^32 or more exceeds every clock, so the exact value lies below every register. */
  lemma OverflowIsInaccurate(register: nat, product: nat, clock: nat)
    requires 0 < clock < 0x1_0000_0000 <= product
    ensures !Accurate(register, product, clock)
  {
  }

  lemma RealCancel(c: real, a: real, b: real)
    requires c > 0.0 && c * a < c * b
    ensures a < b
  {
  }
}
