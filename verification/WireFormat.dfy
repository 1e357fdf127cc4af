/**
 The frames exchanged with the broker: the serializer of the API services (brokerMessage.js)
 and the parser of the IoT service (parser.js), which were written separately.
 */
module WireFormat {
  import opened Calendar
  import opened Options
  import opened Words
  import opened Text

  /** Buffer.from on an array of integers keeps the low eight bits of each. */
  function ToBytes(xs: seq<int>): (b: seq<Byte>)
    ensures |b| == |xs| && forall i :: 0 <= i < |b| ==> b[i] == Wrap8(xs[i])
  {
    seq(|xs|, i requires 0 <= i < |xs| => Wrap8(xs[i]))
  }

  function Sum(bytes: seq<Byte>): nat {
    if bytes == [] then 0 else Sum(bytes[..|bytes| - 1]) + bytes[|bytes| - 1]
  }

  lemma {:induction false} SumConcat(a: seq<Byte>, b: seq<Byte>)
    ensures Sum(a + b) == Sum(a) + Sum(b)
    decreases b
  {
    if b == [] {
      assert a + b == a;
    } else {
      assert (a + b)[..|a + b| - 1] == a + b[..|b| - 1];
      SumConcat(a, b[..|b| - 1]);
    }
  }

  /** The clock readings put into a frame: the month counted from one, the year from 2000. */
  datatype Now = Now(day: int, month: int, year: int, hours: int, minutes: int, seconds: int)

  // ---------------------------------------------------------------- the serializer

  /** Everything before the payload: 13 bytes. */
  function Header(command: int, register: nat, layer: int, now: Now, random: nat, length: nat): (h: seq<Byte>)
    ensures |h| == 13
  {
    ToBytes([command, register, register / 256, layer, now.day, now.month, now.year,
             now.hours, now.minutes, now.seconds, random, length, length / 256])
  }

  function Checksum(bytes: seq<Byte>): Byte {
    0xff - Sum(bytes) % 256
  }

  /** getBufferToSend, or None where writeUInt16LE throws. */
  function Frame(command: int, register: int, layer: int, now: Now, random: nat, payload: seq<int>)
    : Option<seq<Byte>>
  {
    if !(0 <= register < 0x1_0000) || |payload| >= 0x1_0000 then None else
    var body := Header(command, register, layer, now, random, |payload|) + ToBytes(payload);
    Some(body + [Checksum(body)])
  }

  class BrokerMessage {
    var command: int
    var register: int
    var layer: int
    var random: nat
    var length: nat
    var payload: seq<int>
    var checksum: Byte

    /** The length field counts the payload, whichever way it was added. */
    ghost predicate Valid()
      reads this
    {
      length == |payload|
    }

    /** `draw` is Math.random(); Buffer.from later truncates draw * 255. */
    constructor (command: int, register: int, layer: int, draw: real)
      requires 0.0 <= draw < 1.0
      ensures Valid() && payload == []
      ensures this.command == command && this.register == register && this.layer == layer
      ensures random == (draw * 255.0).Floor && random < 255
    {
      this.command, this.register, this.layer := command, register, layer;
      random := (draw * 255.0).Floor;
      length, payload, checksum := 0, [], 0;
    }

    method AddByte(data: int)
      requires Valid()
      modifies this`payload, this`length
      ensures Valid() && payload == old(payload) + [data]
    {
      payload := payload + [data];
      length := length + 1;
    }

    method AddBytes(data: seq<int>)
      requires Valid()
      modifies this`payload, this`length
      ensures Valid() && payload == old(payload) + data
    {
      payload := payload + data;
      length := length + |data|;
    }

    method GetChecksum(buffer: seq<Byte>) returns (sum8: Byte)
      ensures sum8 == Checksum(buffer)
    {
      var sum: nat := 0;
      for i := 0 to |buffer|
        invariant sum == Sum(buffer[..i])
      {
        assert buffer[..i + 1][..i] == buffer[..i];
        sum := sum + buffer[i];
      }
      assert buffer[..|buffer|] == buffer;
      return 0xff - sum % 256;
    }

    method GetBufferToSend(now: Now) returns (frame: Option<seq<Byte>>)
      requires Valid()
      modifies this`checksum
      ensures frame == Frame(command, register, layer, now, random, payload)
    {
      if !(0 <= register < 0x1_0000) || length >= 0x1_0000 {
        return None;
      }
      var head: seq<Byte> := [Wrap8(command), register % 256, Wrap8(register / 256), Wrap8(layer)];
      var date: seq<Byte> := [Wrap8(now.day), Wrap8(now.month), Wrap8(now.year)];
      var time: seq<Byte> := [Wrap8(now.hours), Wrap8(now.minutes), Wrap8(now.seconds)];
      var tail: seq<Byte> := [Wrap8(random), length % 256, Wrap8(length / 256)];
      assert head + date + time + tail == Header(command, register, layer, now, random, length);
      var bufferToSend := head + date + time + tail + ToBytes(payload);
      checksum := GetChecksum(bufferToSend);
      return Some(bufferToSend + [checksum]);
    }
  }

  // ---------------------------------------------------------------- the parser

  /** message[i], undefined beyond the end. */
  function At<T>(message: seq<T>, i: nat): Option<T> {
    if i < |message| then Some(message[i]) else None
  }

  /** In arithmetic and bit operators undefined counts as zero. */
  function OrZero(b: Option<Byte>): Byte {
    if b.Some? then b.value else 0
  }

  /** The arguments of new Date, whose months count from zero. */
  datatype Timestamp = Timestamp(year: Option<nat>, monthIndex: Option<Byte>, day: Option<Byte>,
                                 hours: Option<Byte>, minutes: Option<Byte>, seconds: Option<Byte>)

  /** What parseHeader recovers. */
  datatype Parsed = Parsed(comando: Option<Byte>, registro: nat, layer: Option<Byte>, timestamp: Timestamp,
                           random: Option<Byte>, largo: nat, payload: seq<Option<Byte>>)

  /** undefined + 2000 is not a number, and makes the date invalid. */
  function YearOf(b: Option<Byte>): Option<nat> {
    if b.Some? then Some(b.value + 2000) else None
  }

  function TimestampOf(message: seq<Byte>): Timestamp {
    Timestamp(YearOf(At(message, 6)), At(message, 5), At(message, 4),
              At(message, 7), At(message, 8), At(message, 9))
  }

  function Fields(message: seq<Byte>): Parsed {
    var largo := OrZero(At(message, 11));  // the high byte is shifted out by & 0xff
    Parsed(At(message, 0), OrZero(At(message, 2)) * 256 + OrZero(At(message, 1)), At(message, 3),
           TimestampOf(message), At(message, 10), largo, PayloadFields(message, largo))
  }

  function PayloadFields(message: seq<Byte>, largo: nat): (p: seq<Option<Byte>>)
    ensures |p| == largo && forall i :: 0 <= i < largo ==> p[i] == At(message, 13 + i)
  {
    seq(largo, i requires 0 <= i < largo => At(message, 13 + i))
  }

  /** The test in parseHeader reads sum & (0xff === 0xff), that is, sum & 1. */
  function ParseHeader(message: seq<Byte>): Option<Parsed> {
    if Sum(message) % 2 == 1 then Some(Fields(message)) else None
  }

  method ParseMessageHeader(message: seq<Byte>) returns (parsed: Option<Parsed>)
    ensures parsed == ParseHeader(message)
  {
    var sum: nat := 0;
    for i := 0 to |message|
      invariant sum == Sum(message[..i])
    {
      assert message[..i + 1][..i] == message[..i];
      sum := sum + message[i];
    }
    assert message[..|message|] == message;
    if sum % 2 != 1 {
      return None;
    }
    var largo: nat := OrZero(At(message, 11));
    var payload: seq<Option<Byte>> := [];
    for i := 0 to largo
      invariant payload == PayloadFields(message, largo)[..i]
    {
      payload := payload + [At(message, 13 + i)];
    }
    assert payload == PayloadFields(message, largo);
    var registro: nat := OrZero(At(message, 2)) * 256 + OrZero(At(message, 1));
    var year := if |message| > 6 then Some(message[6] as nat + 2000) else None;
    var timestamp := Timestamp(year, At(message, 5), At(message, 4),
                               At(message, 7), At(message, 8), At(message, 9));
    return Some(Parsed(At(message, 0), registro, At(message, 3), timestamp, At(message, 10), largo, payload));
  }

  // ---------------------------------------------------------------- round trip

  /** A payload as the parser presents it: every byte defined. */
  function Defined(bytes: seq<Byte>): (d: seq<Option<Byte>>)
    ensures |d| == |bytes| && forall i :: 0 <= i < |d| ==> d[i] == Some(bytes[i])
  {
    seq(|bytes|, i requires 0 <= i < |bytes| => Some(bytes[i]))
  }

  /** The bytes of a frame sum to 255 modulo 256. */
  lemma ChecksumCompletes(body: seq<Byte>)
    ensures Sum(body + [Checksum(body)]) % 256 == 255
  {
  }

  /**
   Every frame is accepted, and the parser recovers command, register, layer, clock readings,
   random and the payload prefix whose length is the low byte of the payload length.
   */
  lemma FrameRoundTrip(command: int, register: int, layer: int, now: Now, random: nat, payload: seq<int>)
    requires Frame(command, register, layer, now, random, payload).Some?
    ensures var frame, kept := Frame(command, register, layer, now, random, payload).value, |payload| % 256;
            ParseHeader(frame) == Some(Parsed(Some(Wrap8(command)), register, Some(Wrap8(layer)), Sent(now),
                                              Some(Wrap8(random)), kept, Defined(ToBytes(payload)[..kept])))
  {
    var head, bytes := Header(command, register, layer, now, random, |payload|), ToBytes(payload);
    var frame := head + bytes + [Checksum(head + bytes)];
    ChecksumCompletes(head + bytes);
    OddIfComplete(Sum(frame));
    HeaderFields(command, register, layer, now, random, |payload|, frame);
    SplitWord(register);
    PayloadArrives(head, bytes, Checksum(head + bytes), |payload| % 256);
  }

  /**
   A frame is refused exactly if register or length does not fit two bytes; otherwise it has the
   size of the payload and fourteen bytes, and carries both numbers low byte first.
   */
  lemma FrameSizedIff(command: int, register: int, layer: int, now: Now, random: nat, payload: seq<int>)
    ensures var frame := Frame(command, register, layer, now, random, payload);
            && (frame.Some? <==> 0 <= register <= 65535 && |payload| <= 65535)
            && (frame.Some? ==>
                  && |frame.value| == |payload| + 14
                  && frame.value[2] as int * 256 + frame.value[1] == register
                  && frame.value[12] as int * 256 + frame.value[11] == |payload|)
  {
    if 0 <= register <= 65535 && |payload| <= 65535 {
      var frame := Frame(command, register, layer, now, random, payload).value;
      HeaderFields(command, register, layer, now, random, |payload|, frame);
      SplitWord(register);
      SplitWord(|payload|);
    }
  }

  lemma HeaderFields(command: int, register: nat, layer: int, now: Now, random: nat, length: nat, frame: seq<Byte>)
    requires |frame| >= 13 && frame[..13] == Header(command, register, layer, now, random, length)
    ensures frame[0] == Wrap8(command) && frame[1] == Wrap8(register) && frame[2] == Wrap8(register / 256)
    ensures frame[3] == Wrap8(layer) && TimestampOf(frame) == Sent(now)
    ensures frame[10] == Wrap8(random) && frame[11] == Wrap8(length) && frame[12] == Wrap8(length / 256)
  {
    var head := Header(command, register, layer, now, random, length);
    assert forall i :: 0 <= i < 13 ==> frame[i] == head[i];
  }

  /** The clock readings as the parser passes them on. */
  function Sent(now: Now): Timestamp {
    Timestamp(Some(Wrap8(now.year) + 2000), Some(Wrap8(now.month)), Some(Wrap8(now.day)),
              Some(Wrap8(now.hours)), Some(Wrap8(now.minutes)), Some(Wrap8(now.seconds)))
  }

  /** A reading of a clock set between 2000 and 2255. */
  predicate ValidReading(now: Now) {
    && 0 <= now.year < 256 && 1 <= now.month <= 12 && now.day >= 0 && ValidDate(DateOf(now))
    && 0 <= now.hours < 24 && 0 <= now.minutes < 60 && 0 <= now.seconds < 60
  }

  function DateOf(now: Now): Date
    requires now.year >= 0 && now.month >= 1 && now.day >= 0
  {
    Date(12 * now.year + now.month - 1, now.day)
  }

  /** The date that new Date makes of its arguments, from the year 2000 on; an undefined one makes it invalid. */
  function ParsedDate(t: Timestamp): Option<Date> {
    if t.year.Some? && t.year.value >= 2000 && t.monthIndex.Some? && t.day.Some? && t.day.value >= 1 then
      Some(Carried(12 * (t.year.value - 2000) + t.monthIndex.value, t.day.value))
    else None
  }

  lemma ReadingArrives(now: Now)
    requires ValidReading(now)
    ensures Sent(now) == Timestamp(Some(now.year + 2000), Some(now.month), Some(now.day),
                                   Some(now.hours), Some(now.minutes), Some(now.seconds))
  {
    var month := DateOf(now).month;
    assert now.day <= DaysIn(month) <= 31;
  }

  lemma DateArrives(t: Timestamp, year: nat, month: Byte, day: Byte)
    requires t.year == Some(year + 2000) && t.monthIndex == Some(month) && t.day == Some(day) && day >= 1
    ensures ParsedDate(t) == Some(Carried(12 * year + month, day))
  {
  }

  /**
   The serializer counts months from one and the parser from zero. So the parsed date has the same
   day in the month after the one in which the frame was made if that month has such a day, and
   lies in the month after that otherwise; the time of day is right.
   */
  lemma TimestampOneMonthLateIff(now: Now)
    requires ValidReading(now)
    ensures var t, next := Sent(now), DateOf(now).month + 1;
            var parsed := ParsedDate(t);
            && parsed.Some?
            && (parsed.value == Date(next, now.day) <==> now.day <= DaysIn(next))
            && (now.day > DaysIn(next) ==> parsed.value == Date(next + 1, now.day - DaysIn(next)))
            && t.hours == Some(now.hours) && t.minutes == Some(now.minutes) && t.seconds == Some(now.seconds)
  {
    ReadingArrives(now);
    DateArrives(Sent(now), now.year, now.month, now.day);
    CarriedOnce(DateOf(now).month + 1, now.day);
  }

  /** The parsed date is always as many days late as the month of the frame has. */
  lemma TimestampDaysLate(now: Now)
    requires ValidReading(now)
    ensures var made, parsed := DateOf(now), ParsedDate(Sent(now));
            parsed.Some? &&
            DayNumber(parsed.value.month, parsed.value.day) == DayNumber(made.month, made.day) + DaysIn(made.month)
  {
    ReadingArrives(now);
    DateArrives(Sent(now), now.year, now.month, now.day);
    CarriedIsSameDay(DateOf(now).month + 1, now.day);
  }

  /** A frame made on 31 January 2021 is dated 3 March 2021. */
  lemma EndOfJanuaryBecomesMarch(now: Now)
    requires now.year == 21 && now.month == 1 && now.day == 31
    requires 0 <= now.hours < 24 && 0 <= now.minutes < 60 && 0 <= now.seconds < 60
    ensures ValidReading(now) && DateOf(now) == Date(252, 31) && ParsedDate(Sent(now)) == Some(Date(254, 3))
  {
    JanuaryAndFebruary2021();
    TimestampOneMonthLateIff(now);
  }

  lemma JanuaryAndFebruary2021()
    ensures DaysIn(252) == 31 && DaysIn(253) == 28
  {
  }

  lemma OddIfComplete(sum: nat)
    requires sum % 256 == 255
    ensures sum % 2 == 1
  {
  }

  lemma SplitWord(w: nat)
    requires w < 0x1_0000
    ensures Wrap8(w / 256) * 256 + w % 256 == w
  {
  }

  lemma PayloadArrives(head: seq<Byte>, bytes: seq<Byte>, sum8: Byte, kept: nat)
    requires |head| == 13 && kept <= |bytes|
    ensures PayloadFields(head + bytes + [sum8], kept) == Defined(bytes[..kept])
  {
  }

  /** The whole payload arrives exactly when it is shorter than 256 bytes. */
  lemma WholePayloadIff(command: int, register: int, layer: int, now: Now, random: nat, payload: seq<int>)
    requires Frame(command, register, layer, now, random, payload).Some?
    ensures var parsed := ParseHeader(Frame(command, register, layer, now, random, payload).value);
            parsed.Some? && (parsed.value.payload == Defined(ToBytes(payload)) <==> |payload| < 256)
  {
    FrameRoundTrip(command, register, layer, now, random, payload);
    KeptWholeIff(ToBytes(payload));
  }

  lemma KeptWholeIff(bytes: seq<Byte>)
    ensures Defined(bytes[..|bytes| % 256]) == Defined(bytes) <==> |bytes| < 256
  {
    if |bytes| < 256 {
      assert bytes[..|bytes| % 256] == bytes;
    } else {
      assert |bytes| % 256 < |bytes|;
    }
  }

  /** A message of ordinary length arrives with its command and its payload. */
  lemma ShortPayloadArrives(command: int, register: int, layer: int, now: Now, random: nat, payload: seq<int>)
    requires 0 <= register < 0x1_0000 && |payload| < 256
    ensures var frame := Frame(command, register, layer, now, random, payload);
            && frame.Some? && ParseHeader(frame.value).Some?
            && ParseHeader(frame.value).value.comando == Some(Wrap8(command))
            && ParseHeader(frame.value).value.payload == Defined(ToBytes(payload))
  {
    FrameRoundTrip(command, register, layer, now, random, payload);
    KeptWholeIff(ToBytes(payload));
  }

  /** The number of odd bytes. */
  function OddBytes(message: seq<Byte>): nat {
    if message == [] then 0
    else OddBytes(message[..|message| - 1]) + message[|message| - 1] % 2
  }

  /** A message of any length is accepted exactly if it has an odd number of odd bytes. */
  lemma {:induction false} AcceptedIffOddBytes(message: seq<Byte>)
    ensures ParseHeader(message).Some? <==> OddBytes(message) % 2 == 1
  {
    SumParity(message);
  }

  lemma {:induction false} SumParity(message: seq<Byte>)
    ensures Sum(message) % 2 == OddBytes(message) % 2
  {
    if message != [] {
      SumParity(message[..|message| - 1]);
    }
  }

  /** The first n bytes of a message: what is read from them is as before, and what is missing is undefined or zero. */
  lemma TruncationLosesFields(message: seq<Byte>, n: nat)
    requires n <= |message| && ParseHeader(message).Some? && ParseHeader(message[..n]).Some?
    ensures var whole, part := ParseHeader(message).value, ParseHeader(message[..n]).value;
            && part.comando == (if n > 0 then whole.comando else None)
            && part.registro == (if n > 2 then whole.registro else if n > 1 then whole.registro % 256 else 0)
            && part.layer == (if n > 3 then whole.layer else None)
            && part.timestamp == TruncatedTime(whole.timestamp, n)
            && part.random == (if n > 10 then whole.random else None)
            && |part.payload| == part.largo == (if n > 11 then whole.largo else 0)
            && forall i :: 0 <= i < part.largo ==> part.payload[i] == if 13 + i < n then whole.payload[i] else None
  {
    LowByte(OrZero(At(message, 2)), OrZero(At(message, 1)));
  }

  function TruncatedTime(t: Timestamp, n: nat): Timestamp {
    Timestamp(if n > 6 then t.year else None, if n > 5 then t.monthIndex else None, if n > 4 then t.day else None,
              if n > 7 then t.hours else None, if n > 8 then t.minutes else None, if n > 9 then t.seconds else None)
  }

  lemma LowByte(high: Byte, low: Byte)
    ensures (high as int * 256 + low) % 256 == low
  {
  }

  /** A frame with one byte replaced is refused exactly when the byte has changed its parity. */
  lemma CorruptionDetectedIff(frame: seq<Byte>, at: nat, b: Byte)
    requires ParseHeader(frame).Some? && at < |frame|
    ensures ParseHeader(frame[at := b]).None? <==> (b - frame[at]) % 2 != 0
  {
    SumUpdate(frame, at, b);
  }

  lemma {:induction false} SumUpdate(bytes: seq<Byte>, at: nat, b: Byte)
    requires at < |bytes|
    ensures Sum(bytes[at := b]) == Sum(bytes) - bytes[at] + b
  {
    var n := |bytes| - 1;
    if at == n {
      assert bytes[at := b][..n] == bytes[..n];
    } else {
      assert bytes[at := b][..n] == bytes[..n][at := b];
      SumUpdate(bytes[..n], at, b);
    }
  }

  /** The parser accepts a message whose bytes do not sum to 255 modulo 256. */
  lemma WrongChecksumAccepted()
    ensures ParseHeader([1]).Some? && Sum([1]) % 256 != 255
  {
  }
}
