/**
 Byte buffers shown as binary numerals (bufferToBinaryString.js) and the registers that are
 reported that way (parser.js).
 */
module BinaryStrings {
  import opened Options
  import opened Words
  import opened Text
  import opened WireFormat

  /** b.toString(2).padStart(8, "0") */
  function Binary8(b: Byte): (s: string)
    ensures |s| == 8
  {
    assert Pow2(8) == 256;
    BinaryLength(b, 8);
    PadZeros(Numeral(b, 2), 8)
  }

  function BinaryString(buff: seq<Byte>): string {
    if buff == [] then "" else BinaryString(buff[..|buff| - 1]) + Binary8(buff[|buff| - 1])
  }

  /** bufferToBinaryString: one piece per byte, then joined. */
  method BufferToBinaryString(buff: seq<Byte>) returns (s: string)
    ensures s == BinaryString(buff)
  {
    s := "";
    for i := 0 to |buff|
      invariant s == BinaryString(buff[..i])
    {
      assert buff[..i + 1][..i] == buff[..i];
      s := s + Binary8(buff[i]);
    }
    assert buff[..|buff|] == buff;
  }

  /** The number whose base-256 digits are the bytes, most significant first. */
  function BigEndian(buff: seq<Byte>): nat {
    if buff == [] then 0 else BigEndian(buff[..|buff| - 1]) * 256 + buff[|buff| - 1]
  }

  lemma Binary8Denotes(b: Byte)
    ensures IsNumeral(Binary8(b), 2) && Value(Binary8(b), 2) == b
  {
    PaddedDenotes(b, 2, 8);
  }

  lemma {:induction false} ValueConcat(s: string, t: string)
    requires IsNumeral(s, 2) && IsNumeral(t, 2)
    ensures IsNumeral(s + t, 2)
    ensures Value(s + t, 2) == Value(s, 2) * Pow2(|t|) + Value(t, 2)
    decreases t
  {
    if t == [] {
      assert s + t == s;
    } else {
      var front := t[..|t| - 1];
      assert (s + t)[..|s + t| - 1] == s + front;
      var p := Pow2(|front|);
      ValueConcat(s, front);
      assert Value(s + t, 2) == 2 * Value(s + front, 2) + DigitValue(t[|t| - 1]);
      assert Pow2(|t|) == 2 * p;
      Double(Value(s, 2), p);
    }
  }

  /** The output has eight binary digits per byte and denotes the big-endian value of the buffer. */
  lemma {:induction false} BinaryStringDenotes(buff: seq<Byte>)
    ensures var s := BinaryString(buff);
            |s| == 8 * |buff| && IsNumeral(s, 2) && Value(s, 2) == BigEndian(buff)
  {
    if buff != [] {
      var front, last := buff[..|buff| - 1], buff[|buff| - 1];
      BinaryStringDenotes(front);
      Binary8Denotes(last);
      ValueConcat(BinaryString(front), Binary8(last));
      assert Pow2(8) == 256;
    }
  }

  /** Buffers with the same output are equal. */
  lemma {:induction false} BinaryStringInjective(a: seq<Byte>, b: seq<Byte>)
    requires BinaryString(a) == BinaryString(b)
    ensures a == b
    decreases a
  {
    BinaryStringDenotes(a);
    BinaryStringDenotes(b);
    if a != [] {
      var s, n := BinaryString(a), 8 * (|a| - 1);
      LastByte(a);
      LastByte(b);
      BinaryStringInjective(a[..|a| - 1], b[..|b| - 1]);
      Binary8Denotes(a[|a| - 1]);
      Binary8Denotes(b[|b| - 1]);
      assert a == a[..|a| - 1] + [a[|a| - 1]] && b == b[..|b| - 1] + [b[|b| - 1]];
    }
  }

  lemma LastByte(a: seq<Byte>)
    requires a != []
    ensures var n := 8 * (|a| - 1);
            && |BinaryString(a)| == 8 * |a|
            && BinaryString(a)[..n] == BinaryString(a[..|a| - 1])
            && BinaryString(a)[n..] == Binary8(a[|a| - 1])
  {
  }

  // ---------------------------------------------------------------- single digits

  /** Counted from the right, the k-th digit of a binary numeral is bit k of its value. */
  lemma {:induction false} DigitIsBit(s: string, k: nat)
    requires IsNumeral(s, 2) && k < |s|
    ensures s[|s| - 1 - k] == '1' <==> Bit(Value(s, 2), k)
    decreases k
  {
    var front := s[..|s| - 1];
    var v := Value(s, 2);
    assert v == 2 * Value(front, 2) + DigitValue(s[|s| - 1]);
    if k == 0 {
      QuotientUnique(v, 1, v);
    } else {
      HalfShiftsBits(v, k - 1);
      DigitIsBit(front, k - 1);
    }
  }

  // ---------------------------------------------------------------- node states

  /** nodosEncendidos of parseRegisterEstadoNodos; None when the command carries no state. */
  method ParseEstadoNodos(message: Parsed) returns (nodosEncendidos: Option<string>)
    ensures nodosEncendidos == if message.comando in {Some(0x0a), Some(0x0b)}
                               then Some(BinaryString(Reversed16(message.payload))) else None
  {
    if !(message.comando == Some(0x0a) || message.comando == Some(0x0b)) {
      return None;
    }
    var p := message.payload;
    var high: seq<Byte> := [OrNone(p, 15), OrNone(p, 14), OrNone(p, 13), OrNone(p, 12),
                            OrNone(p, 11), OrNone(p, 10), OrNone(p, 9), OrNone(p, 8)];
    var low: seq<Byte> := [OrNone(p, 7), OrNone(p, 6), OrNone(p, 5), OrNone(p, 4),
                           OrNone(p, 3), OrNone(p, 2), OrNone(p, 1), OrNone(p, 0)];
    var bytes := high + low;
    assert bytes == Reversed16(p);
    var s := BufferToBinaryString(bytes);
    return Some(s);
  }

  /** payload[i] & 0xFF; an undefined byte counts as zero. */
  function OrNone(payload: seq<Option<Byte>>, i: nat): Byte {
    if i < |payload| then OrZero(payload[i]) else 0
  }

  function Reversed16(payload: seq<Option<Byte>>): (r: seq<Byte>)
    ensures |r| == 16 && forall i :: 0 <= i < 16 ==> r[i] == OrNone(payload, 15 - i)
  {
    seq(16, i requires 0 <= i < 16 => OrNone(payload, 15 - i))
  }

  /** The number whose base-256 digits are the first n payload bytes, least significant first. */
  function LittleEndian(payload: seq<Option<Byte>>, n: nat): nat {
    if n == 0 then 0 else LittleEndian(payload, n - 1) + OrNone(payload, n - 1) * Pow2(8 * (n - 1))
  }

  /** The node-state string denotes the little-endian value of the payload. */
  lemma NodeStateIsLittleEndian(payload: seq<Option<Byte>>)
    ensures var s := BinaryString(Reversed16(payload));
            |s| == 128 && IsNumeral(s, 2) && Value(s, 2) == LittleEndian(payload, 16)
  {
    BinaryStringDenotes(Reversed16(payload));
    ReversedBigEndian(payload, 16);
    assert Reversed16(payload)[..16] == Reversed16(payload);
    assert LittleEndian(payload, 16) == BigEndian(Reversed16(payload));
  }

  /** The last n bytes of the reversed payload, big-endian, are its first n bytes, little-endian. */
  lemma {:induction false} ReversedBigEndian(payload: seq<Option<Byte>>, n: nat)
    requires n <= 16
    ensures BigEndian(Reversed16(payload)[16 - n..]) == LittleEndian(payload, n)
  {
    if n > 0 {
      ReversedBigEndian(payload, n - 1);
      var r := Reversed16(payload);
      assert r[16 - n..] == [r[16 - n]] + r[16 - n + 1..];
      BigEndianCons(r[16 - n], r[16 - n + 1..]);
    } else {
      assert Reversed16(payload)[16..] == [];
    }
  }

  lemma {:induction false} BigEndianCons(b: Byte, rest: seq<Byte>)
    ensures BigEndian([b] + rest) == b * Pow2(8 * |rest|) + BigEndian(rest)
    decreases rest
  {
    var all := [b] + rest;
    if rest == [] {
      assert all[..0] == [];
    } else {
      var front := rest[..|rest| - 1];
      assert all[..|all| - 1] == [b] + front;
      BigEndianCons(b, front);
      Pow2Add(8 * |front|, 8);
      assert Pow2(8) == 256;
      Scale(b, Pow2(8 * |front|));
    }
  }

  lemma Scale(b: int, p: int)
    ensures b * (p * 256) == (b * p) * 256
  {
  }

  /** Bit i of payload byte k is there and set. */
  predicate BitSet(payload: seq<Option<Byte>>, k: nat, i: nat) {
    k < |payload| && payload[k].Some? && Bit(payload[k].value, i)
  }

  lemma MissingHasNoBits(payload: seq<Option<Byte>>, k: nat, i: nat)
    ensures Bit(OrNone(payload, k), i) <==> BitSet(payload, k, i)
  {
    ZeroHasNoBits(i);
  }

  /** Character 127 - k of the node-state string is set iff bit k % 8 of payload byte k / 8 is there and set. */
  lemma NodeStateBit(payload: seq<Option<Byte>>, k: nat)
    requires k < 128
    ensures var s := BinaryString(Reversed16(payload));
            |s| == 128 && (s[127 - k] == '1' <==> BitSet(payload, k / 8, k % 8))
  {
    MissingHasNoBits(payload, k / 8, k % 8);
    var r := Reversed16(payload);
    BinaryStringDenotes(r);
    ByteAt(r, 15 - k / 8);
    BitOfByte(r[15 - k / 8], k % 8);
    assert 127 - k == 8 * (15 - k / 8) + (7 - k % 8);
    SliceAt(BinaryString(r), 8 * (15 - k / 8), 7 - k % 8);
  }

  lemma SliceAt(s: string, from: nat, j: nat)
    requires j < 8 && from + 8 <= |s|
    ensures s[from..from + 8][j] == s[from + j]
  {
  }

  lemma BitOfByte(b: Byte, k: nat)
    requires k < 8
    ensures Binary8(b)[7 - k] == '1' <==> Bit(b, k)
  {
    Binary8Denotes(b);
    DigitIsBit(Binary8(b), k);
  }

  /** Byte i occupies the digits from 8 * i on. */
  lemma {:induction false} ByteAt(buff: seq<Byte>, i: nat)
    requires i < |buff|
    ensures |BinaryString(buff)| == 8 * |buff|
    ensures BinaryString(buff)[8 * i..8 * i + 8] == Binary8(buff[i])
    decreases buff
  {
    LastByte(buff);
    var n, s := |buff| - 1, BinaryString(buff);
    if i < n {
      ByteAt(buff[..n], i);
      TakeThenSlice(s, 8 * n, 8 * i, 8 * i + 8);
    } else {
      assert s[8 * n..8 * n + 8] == s[8 * n..];
    }
  }

  lemma TakeThenSlice(s: string, n: nat, from: nat, to: nat)
    requires from <= to <= n <= |s|
    ensures s[..n][from..to] == s[from..to]
  {
  }

  // ---------------------------------------------------------------- partition states

  datatype Particion = Particion(sonando: bool, lista: bool, modo: string)

  /** Digit i, from the right, of byte k of the payload shown in binary. */
  function Flag(payload: seq<Option<Byte>>, k: nat, i: nat): bool
    requires i < 8
  {
    Binary8(OrNone(payload, k))[7 - i] == '1'
  }

  /** What the four flag bytes say about partition i, read off their binary strings. */
  function ParticionAt(payload: seq<Option<Byte>>, i: nat): Particion
    requires i < 8
  {
    Particion(Flag(payload, 0, i), Flag(payload, 1, i),
              if Flag(payload, 2, i) then "estoy" else if Flag(payload, 3, i) then "me_voy" else "ninguno")
  }

  /** The first n partitions. */
  function Particiones(payload: seq<Option<Byte>>, n: nat): (r: seq<Particion>)
    requires n <= 8
    ensures |r| == n && forall i :: 0 <= i < n ==> r[i] == ParticionAt(payload, i)
  {
    if n == 0 then [] else Particiones(payload, n - 1) + [ParticionAt(payload, n - 1)]
  }

  /** parseRegisterSonandoReady agrees with the binary strings of the four flag bytes. */
  method ParseSonandoReady(message: Parsed)
    returns (particiones: Option<seq<Particion>>, cantidadZonas: Option<Byte>)
    ensures particiones.Some? <==> message.comando in {Some(0x0a), Some(0x0b)}
    ensures particiones.Some? ==> particiones.value == Particiones(message.payload, 8)
    ensures cantidadZonas == if particiones.Some? && |message.payload| > 4 then message.payload[4] else None
  {
    if !(message.comando == Some(0x0a) || message.comando == Some(0x0b)) {
      return None, None;
    }
    var p := message.payload;
    var result: seq<Particion> := [];
    for i := 0 to 8
      invariant result == Particiones(p, i)
    {
      var particion := ParseParticion(p, i);
      result := result + [particion];
    }
    return Some(result), if |p| > 4 then p[4] else None;
  }

  /** One round of that loop. */
  method ParseParticion(p: seq<Option<Byte>>, i: nat) returns (particion: Particion)
    requires i < 8
    ensures particion == ParticionAt(p, i)
  {
    var modo := "ninguno";
    if Bit(OrNone(p, 2), i) {
      modo := "estoy";
    } else if Bit(OrNone(p, 3), i) {
      modo := "me_voy";
    }
    ParticionOfBits(p, i);
    MissingHasNoBits(p, 0, i);
    MissingHasNoBits(p, 1, i);
    MissingHasNoBits(p, 2, i);
    MissingHasNoBits(p, 3, i);
    return Particion(Bit(OrNone(p, 0), i), Bit(OrNone(p, 1), i), modo);
  }

  /** Partition i rings, is ready and is armed in one of two ways as bit i of the first four payload bytes says. */
  lemma ParticionOfBits(p: seq<Option<Byte>>, i: nat)
    requires i < 8
    ensures ParticionAt(p, i)
            == Particion(BitSet(p, 0, i), BitSet(p, 1, i),
                         if BitSet(p, 2, i) then "estoy" else if BitSet(p, 3, i) then "me_voy" else "ninguno")
  {
    MissingHasNoBits(p, 0, i);
    MissingHasNoBits(p, 1, i);
    MissingHasNoBits(p, 2, i);
    MissingHasNoBits(p, 3, i);
    BitOfByte(OrNone(p, 0), i);
    BitOfByte(OrNone(p, 1), i);
    BitOfByte(OrNone(p, 2), i);
    BitOfByte(OrNone(p, 3), i);
  }
}
