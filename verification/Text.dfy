/** Numerals and strings as the JavaScript runtime builds and reads them. */
module Text {
  import opened Options
  import opened Words

  /** A base for numerals: 2 or 10. */
  type Base = b: nat | 2 <= b <= 10 witness 2

  predicate IsDigit(c: char) {
    '0' <= c <= '9'
  }

  function DigitChar(d: nat): char
    requires d < 10
  {
    ('0' as int + d) as char
  }

  function DigitValue(c: char): nat
    requires IsDigit(c)
  {
    c as int - '0' as int
  }

  /** Only digits of the base. */
  predicate IsNumeral(s: string, base: Base) {
    forall i :: 0 <= i < |s| ==> IsDigit(s[i]) && DigitValue(s[i]) < base
  }

  /** n.toString(base) */
  function Numeral(n: nat, base: Base): (s: string)
    ensures s != [] && IsNumeral(s, base)
    decreases n
  {
    if n < base then [DigitChar(n)] else
    QuotientBounds(n, base);
    QuotientShrinks(n, base);
    Numeral(n / base, base) + [DigitChar(n % base)]
  }

  lemma QuotientShrinks(n: nat, base: Base)
    requires n >= base
    ensures n / base < n && n % base < base
  {
  }

  /** s.padStart(width, "0") */
  function PadZeros(s: string, width: nat): string {
    (if |s| < width then seq(width - |s|, _ => '0') else []) + s
  }

  /** The number that a string of digits denotes. */
  function Value(s: string, base: Base): nat
    requires IsNumeral(s, base)
  {
    if s == [] then 0 else Value(s[..|s| - 1], base) * base + DigitValue(s[|s| - 1])
  }

  lemma {:induction false} NumeralDenotes(n: nat, base: Base)
    ensures Value(Numeral(n, base), base) == n
    decreases n
  {
    var s := Numeral(n, base);
    if n >= base {
      QuotientBounds(n, base);
      QuotientShrinks(n, base);
      NumeralDenotes(n / base, base);
      assert s[..|s| - 1] == Numeral(n / base, base);
    } else {
      assert s[..|s| - 1] == [];
    }
  }

  lemma {:induction false} ZerosDenoteNothing(k: nat, s: string, base: Base)
    requires IsNumeral(s, base)
    ensures IsNumeral(seq(k, _ => '0') + s, base)
    ensures Value(seq(k, _ => '0') + s, base) == Value(s, base)
    decreases |s|, k
  {
    var zeros := seq(k, _ => '0');
    var padded := zeros + s;
    if s != [] {
      assert padded[..|padded| - 1] == zeros + s[..|s| - 1];
      ZerosDenoteNothing(k, s[..|s| - 1], base);
    } else if k > 0 {
      assert padded[..k - 1] == seq(k - 1, _ => '0') + [];
      ZerosDenoteNothing(k - 1, [], base);
    }
  }

  /** Padding changes the length only. */
  lemma PaddedDenotes(n: nat, base: Base, width: nat)
    ensures var s := PadZeros(Numeral(n, base), width);
            && |s| >= width && IsNumeral(s, base) && Value(s, base) == n
  {
    var s := Numeral(n, base);
    NumeralDenotes(n, base);
    if |s| < width {
      ZerosDenoteNothing(width - |s|, s, base);
    } else {
      assert PadZeros(s, width) == s;
    }
  }

  /** A byte takes at most eight binary digits. */
  lemma {:induction false} BinaryLength(n: nat, k: nat)
    requires k >= 1 && n < Pow2(k)
    ensures |Numeral(n, 2)| <= k
    decreases k
  {
    if n >= 2 {
      BinaryLength(n / 2, k - 1);
    }
  }

  function TenTo(k: nat): nat {
    if k == 0 then 1 else 10 * TenTo(k - 1)
  }

  lemma {:induction false} DecimalLength(n: nat, k: nat)
    requires k >= 1 && n < TenTo(k)
    ensures |Numeral(n, 10)| <= k
    decreases k
  {
    if n >= 10 {
      DecimalLength(n / 10, k - 1);
    }
  }

  // ---------------------------------------------------------------- reading numbers and fields

  /** The length of the longest prefix made of digits. */
  function DigitPrefix(s: string): (k: nat)
    ensures k <= |s| && IsNumeral(s[..k], 10)
    ensures k < |s| ==> !IsDigit(s[k])
  {
    if s == [] || !IsDigit(s[0]) then 0 else
    var k := DigitPrefix(s[1..]);
    assert s[..1 + k] == [s[0]] + s[1..][..k];
    1 + k
  }

  /** parseInt on unsigned decimal text: the number at the front, or NaN. */
  function ParseInt(s: string): Option<nat> {
    var k := DigitPrefix(s);
    if k == 0 then None else Some(Value(s[..k], 10))
  }

  /** A string as an operand of an arithmetic operator: digits alone make a number, the rest NaN. */
  function ToNumber(s: string): Option<nat> {
    if IsNumeral(s, 10) then Some(Value(s, 10)) else None
  }

  /** ParseInt reads back what padding and toString wrote. */
  lemma ParseIntReadsNumeral(n: nat, width: nat)
    ensures ParseInt(PadZeros(Numeral(n, 10), width)) == Some(n)
  {
    var s := PadZeros(Numeral(n, 10), width);
    PaddedDenotes(n, 10, width);
    assert s != [];
    var k := DigitPrefix(s);
    assert k == |s|;
    assert s[..k] == s;
  }

  /** s.split(separator)[0] and s.split(separator)[1], the latter undefined without a separator. */
  function FirstField(s: string, separator: char): string {
    s[..FieldEnd(s, separator)]
  }

  function SecondField(s: string, separator: char): Option<string> {
    var k := FieldEnd(s, separator);
    if k == |s| then None else Some(FirstField(s[k + 1..], separator))
  }

  function FieldEnd(s: string, separator: char): (k: nat)
    ensures k <= |s|
    ensures forall i :: 0 <= i < k ==> s[i] != separator
    ensures k < |s| ==> s[k] == separator
  {
    if s == [] || s[0] == separator then 0 else 1 + FieldEnd(s[1..], separator)
  }

  lemma SplitTwo(a: string, b: string, separator: char)
    requires forall i :: 0 <= i < |a| ==> a[i] != separator
    requires forall i :: 0 <= i < |b| ==> b[i] != separator
    ensures FirstField(a + [separator] + b, separator) == a
    ensures SecondField(a + [separator] + b, separator) == Some(b)
  {
    var s := a + [separator] + b;
    var k := FieldEnd(s, separator);
    assert s[|a|] == separator;
    assert forall i :: 0 <= i < |a| ==> s[i] == a[i];
    assert k == |a|;
    assert s[k + 1..] == b;
    assert FieldEnd(b, separator) == |b| && b[..|b|] == b;
  }
}
