/**
 * Integer text as the driver reads and writes it: `int.ToString()` for the
 * numbers inside commands, `int.TryParse` for the position reply and the
 * busy code, and hexadecimal parsing for the status word. Only the plain
 * grammar is modelled: an optional leading '-' and decimal digits, or hex
 * digits alone; results must fit in 32 bits.
 */
module Numerals {

  datatype Option<T> = None | Some(value: T)

  const Int32Min: int := -0x8000_0000
  const Int32Max: int := 0x7FFF_FFFF
  const Word32: int := 0x1_0000_0000

  predicate IsInt32(n: int) { Int32Min <= n <= Int32Max }

  const DigitChars: string := "0123456789ABCDEF"

  /** The value of a digit character in the given base, if it is one. */
  function DigitValue(c: char, base: nat): (d: Option<nat>)
    requires base == 10 || base == 16
    ensures d.Some? ==> d.value < base
  {
    if '0' <= c <= '9' then Some(c as nat - '0' as nat)
    else if base == 16 && 'A' <= c <= 'F' then Some(c as nat - 'A' as nat + 10)
    else if base == 16 && 'a' <= c <= 'f' then Some(c as nat - 'a' as nat + 10)
    else None
  }

  /** The value of a string of digits in the given base; None unless it is non-empty and all digits. */
  function Natural(s: string, base: nat): Option<nat>
    requires base == 10 || base == 16
    decreases |s|
  {
    if s == [] then None
    else
      var last := DigitValue(s[|s| - 1], base);
      if last.None? then None
      else if |s| == 1 then Some(last.value)
      else
        match Natural(s[..|s| - 1], base)
        case None => None
        case Some(v) => Some(v * base + last.value)
  }

  /** The digits of `n` in the given base, most significant first, upper-case, no leading zeros. */
  function Numeral(n: nat, base: nat): (s: string)
    requires base == 10 || base == 16
    ensures |s| > 0
    ensures forall i :: 0 <= i < |s| ==> DigitValue(s[i], base).Some? && s[i] in DigitChars
    decreases n
  {
    if n < base then [DigitChars[n]]
    else Numeral(n / base, base) + [DigitChars[n % base]]
  }

  /** Decimal text of an integer, with a leading '-' when negative (`int.ToString()`). */
  function Decimal(n: int): string
  {
    if n < 0 then "-" + Numeral(-n, 10) else Numeral(n, 10)
  }

  /** `int.TryParse` on the plain decimal grammar: None unless well formed and within 32 bits. */
  function ParseInt32(s: string): (r: Option<int>)
    ensures r.Some? ==> IsInt32(r.value)
  {
    if |s| > 0 && s[0] == '-' then
      match Natural(s[1..], 10)
      case Some(v) => var n := -(v as int); if n >= Int32Min then Some(n) else None
      case None => None
    else
      match Natural(s, 10)
      case Some(v) => if v <= Int32Max then Some(v) else None
      case None => None
  }

  /**
   * Hexadecimal parsing of a 32-bit word: the unsigned value of the bit
   * pattern, None unless all hex digits and below 2^32.
   */
  function ParseHex32(s: string): (r: Option<nat>)
    ensures r.Some? ==> r.value < Word32
  {
    match Natural(s, 16)
    case Some(v) => if v < Word32 then Some(v) else None
    case None => None
  }

  /** The signed 32-bit integer whose two's-complement bit pattern is `w`. */
  function ToInt32(w: nat): (n: int)
    requires w < Word32
    ensures IsInt32(n)
    ensures n % Word32 == w
  {
    if w <= Int32Max then w else w - Word32
  }

  /**
   * Unchecked 32-bit integer arithmetic: the result congruent to `x` modulo
   * 2^32 in the signed range; a result that fits is kept as it is.
   */
  function Wrap32(x: int): (n: int)
    ensures IsInt32(n) && (n - x) % Word32 == 0
    ensures IsInt32(x) ==> n == x
  {
    ToInt32(x % Word32)
  }

  /** Every digit character is read back as the digit it stands for. */
  lemma DigitRoundTrip(d: nat, base: nat)
    requires base == 10 || base == 16
    requires d < base
    ensures DigitValue(DigitChars[d], base) == Some(d)
  {
  }

  /** Appending one digit multiplies the value read so far by the base and adds the digit. */
  lemma NaturalSnoc(front: string, d: nat, base: nat, v: nat)
    requires base == 10 || base == 16
    requires d < base && Natural(front, base) == Some(v)
    ensures Natural(front + [DigitChars[d]], base) == Some(v * base + d)
  {
    var s := front + [DigitChars[d]];
    DigitRoundTrip(d, base);
    assert s[..|s| - 1] == front;
  }

  /** Reading the digits of `n` gives `n` back. */
  lemma {:induction false} NaturalNumeral(n: nat, base: nat)
    requires base == 10 || base == 16
    ensures Natural(Numeral(n, base), base) == Some(n)
    decreases n
  {
    if n < base {
      DigitRoundTrip(n, base);
    } else {
      var q, d := n / base, n % base;
      NaturalNumeral(q, base);
      NaturalSnoc(Numeral(q, base), d, base, q);
      assert q * base + d == n;
    }
  }

  /** A minus sign before digits worth v parses to -v when that fits in 32 bits. */
  lemma ParseNegative(digits: string, v: nat)
    requires Natural(digits, 10) == Some(v) && -(v as int) >= Int32Min
    ensures ParseInt32("-" + digits) == Some(-(v as int))
  {
    assert ("-" + digits)[1..] == digits;
  }

  /** Digits worth v, not starting with a minus sign, parse to v when that fits in 32 bits. */
  lemma ParseNonNegative(digits: string, v: nat)
    requires Natural(digits, 10) == Some(v) && v <= Int32Max
    requires |digits| > 0 && digits[0] != '-'
    ensures ParseInt32(digits) == Some(v)
  {
  }

  /** A 32-bit integer printed in decimal parses back to itself. */
  lemma DecimalRoundTrip(n: int)
    requires IsInt32(n)
    ensures ParseInt32(Decimal(n)) == Some(n)
  {
    if n < 0 {
      var m: nat := -n;
      var digits := Numeral(m, 10);
      NaturalNumeral(m, 10);
      assert Decimal(n) == "-" + digits;
      ParseNegative(digits, m);
    } else {
      var digits := Numeral(n, 10);
      NaturalNumeral(n, 10);
      assert DigitValue(digits[0], 10).Some?;
      ParseNonNegative(digits, n);
    }
  }

  /** A 32-bit word printed in hexadecimal parses back to itself. */
  lemma HexRoundTrip(w: nat)
    requires w < Word32
    ensures ParseHex32(Numeral(w, 16)) == Some(w)
  {
    NaturalNumeral(w, 16);
  }

  /** Decimal text never contains a character outside '-' and the digits. */
  lemma DecimalChars(n: int)
    ensures forall i :: 0 <= i < |Decimal(n)| ==> Decimal(n)[i] == '-' || '0' <= Decimal(n)[i] <= '9'
  {
    var s := Decimal(n);
    var digits := Numeral(if n < 0 then -n else n, 10);
    forall i | 0 <= i < |digits|
      ensures '0' <= digits[i] <= '9'
    {
      assert DigitValue(digits[i], 10).Some?;
    }
  }
}
