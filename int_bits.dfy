/**
 * The `IntBits` bitfield: a 32-bit word read and written one bit at a time
 * through an indexer. The word is kept as the unsigned value of its bit
 * pattern. The index is used as the shift count of `1 << index`, and a
 * 32-bit shift uses only the low five bits of its count, so index `i`
 * addresses bit `i mod 32`. The getter refuses a negative index; the setter
 * does not check it.
 */
module Bits {

  const WordBits: nat := 32

  /** The result of the getter: the bit, or the refusal of a negative index. */
  datatype GetResult = Bit(value: bool) | IndexOutOfRange

  function Pow2(k: nat): (p: nat)
    ensures p >= 1
    decreases k
  {
    if k == 0 then 1 else 2 * Pow2(k - 1)
  }

  /** Weights multiply: 2^(a+b) = 2^a * 2^b. */
  lemma {:induction false} Pow2Add(a: nat, b: nat)
    ensures Pow2(a + b) == Pow2(a) * Pow2(b)
    decreases a
  {
    if a > 0 {
      Pow2Add(a - 1, b);
    }
  }

  /** The weight of the sign bit. */
  lemma Pow2Of31()
    ensures Pow2(31) == 0x8000_0000
  {
    assert Pow2(4) == 16;
    Pow2Add(4, 4);
    Pow2Add(8, 8);
    Pow2Add(16, 15);
    Pow2Add(8, 7);
    Pow2Add(4, 3);
    assert Pow2(3) == 8;
  }

  /** The number of 32-bit words. */
  lemma Pow2Of32()
    ensures Pow2(WordBits) == 0x1_0000_0000
  {
    Pow2Of31();
    Pow2Add(31, 1);
  }

  /** A value that fits in a 32-bit word. */
  predicate IsWord(n: nat) { n < Pow2(WordBits) }

  /** Binary digit `i` of `n`, by repeated halving. */
  predicate Digit(n: nat, i: nat)
    decreases i
  {
    if i == 0 then n % 2 == 1 else Digit(n / 2, i - 1)
  }

  /** The bit position `1 << index` selects: the count masked to five bits. */
  function ShiftCount(index: int): (k: nat)
    ensures k < WordBits
    ensures 0 <= index < WordBits ==> k == index
  {
    index % 32
  }

  /** `(word & (1 << index)) != 0`. */
  predicate Test(word: nat, index: int)
  {
    Digit(word, ShiftCount(index))
  }

  /** The getter: the addressed bit, or a refusal for a negative index. */
  function Get(word: nat, index: int): (r: GetResult)
    ensures r.IndexOutOfRange? <==> index < 0
  {
    if index >= 0 then Bit(Test(word, index)) else IndexOutOfRange
  }

  /**
   * The setter. `word |= 1 << index` adds the weight of the addressed bit
   * when that bit is clear; `word &= ~(1 << index)` subtracts it when it is
   * set; otherwise the word is unchanged.
   */
  function With(word: nat, index: int, value: bool): nat
  {
    var k := ShiftCount(index);
    if Digit(word, k) == value then word
    else if value then word + Pow2(k)
    else DigitSub(word, k, k); word - Pow2(k)
  }

  /** Adding the weight of a clear bit sets that bit and no other. */
  lemma {:induction false} DigitAdd(n: nat, k: nat, j: nat)
    requires !Digit(n, k)
    ensures Digit(n + Pow2(k), j) == (j == k || Digit(n, j))
    decreases k
  {
    if k == 0 {
      if j > 0 {
        assert (n + 1) / 2 == n / 2;
      }
    } else {
      assert (n + Pow2(k)) / 2 == n / 2 + Pow2(k - 1);
      assert (n + Pow2(k)) % 2 == n % 2;
      if j > 0 {
        DigitAdd(n / 2, k - 1, j - 1);
      }
    }
  }

  /** Subtracting the weight of a set bit clears that bit and no other. */
  lemma {:induction false} DigitSub(n: nat, k: nat, j: nat)
    requires Digit(n, k)
    ensures n >= Pow2(k)
    ensures Digit(n - Pow2(k), j) == (j != k && Digit(n, j))
    decreases k
  {
    if k == 0 {
      if j > 0 {
        assert (n - 1) / 2 == n / 2;
      }
    } else {
      DigitSub(n / 2, k - 1, if j > 0 then j - 1 else 0);
      assert (n - Pow2(k)) / 2 == n / 2 - Pow2(k - 1);
      assert (n - Pow2(k)) % 2 == n % 2;
      if j > 0 {
        DigitSub(n / 2, k - 1, j - 1);
      }
    }
  }

  /** Adding the weight of a clear bit below the width keeps a value within the width. */
  lemma {:induction false} AddStaysBelow(n: nat, k: nat, m: nat)
    requires n < Pow2(m) && k < m && !Digit(n, k)
    ensures n + Pow2(k) < Pow2(m)
    decreases k
  {
    if k == 0 {
      assert Pow2(m) == 2 * Pow2(m - 1);
    } else {
      assert Pow2(m) == 2 * Pow2(m - 1);
      AddStaysBelow(n / 2, k - 1, m - 1);
    }
  }

  /** The setter keeps the word within 32 bits. */
  lemma SetStaysInWord(word: nat, index: int, value: bool)
    requires IsWord(word)
    ensures IsWord(With(word, index, value))
  {
    var k := ShiftCount(index);
    if !Digit(word, k) && value {
      AddStaysBelow(word, k, WordBits);
    }
  }

  /** After setting a bit, the getter reads back the value written. */
  lemma GetAfterSet(word: nat, index: int, value: bool)
    ensures Test(With(word, index, value), index) == value
  {
    var k := ShiftCount(index);
    if Digit(word, k) != value {
      if value { DigitAdd(word, k, k); } else { DigitSub(word, k, k); }
    }
  }

  /** Setting one bit leaves every bit at another position unchanged. */
  lemma SetFrame(word: nat, index: int, value: bool, other: int)
    requires ShiftCount(other) != ShiftCount(index)
    ensures Test(With(word, index, value), other) == Test(word, other)
  {
    var k, j := ShiftCount(index), ShiftCount(other);
    if Digit(word, k) != value {
      if value { DigitAdd(word, k, j); } else { DigitSub(word, k, j); }
    }
  }

  /** Setting the same value twice is the same as setting it once. */
  lemma SetIdempotent(word: nat, index: int, value: bool)
    ensures With(With(word, index, value), index, value) == With(word, index, value)
  {
    GetAfterSet(word, index, value);
  }

  /** Indices 32 apart address the same bit. */
  lemma IndexWraps(word: nat, index: int)
    ensures Test(word, index + 32) == Test(word, index)
  {
  }

  /** The setter has no index check: index -1 turns on bit 31, the sign bit; the getter refuses it. */
  lemma SetNegativeIndex()
    ensures With(0, -1, true) == 0x8000_0000
    ensures Get(0, -1) == IndexOutOfRange
  {
    Pow2Of31();
    assert ShiftCount(-1) == 31;
    ZeroHasNoDigits(31);
  }

  /** Every binary digit of zero is 0. */
  lemma {:induction false} ZeroHasNoDigits(i: nat)
    ensures !Digit(0, i)
    decreases i
  {
    if i > 0 {
      ZeroHasNoDigits(i - 1);
    }
  }

  /** The `IntBits` value: one word, updated in place by the setter. */
  class IntBits {
    var bits: nat

    ghost predicate Valid()
      reads this
    {
      IsWord(bits)
    }

    /** Stores the initial word unchanged. */
    constructor (initialBitValue: nat)
      requires IsWord(initialBitValue)
      ensures Valid() && bits == initialBitValue
    {
      bits := initialBitValue;
    }

    /** The indexer's getter. */
    function Item(index: int): (r: GetResult)
      reads this
      ensures index >= 0 ==> r == Bit(Test(bits, index))
      ensures index < 0 ==> r == IndexOutOfRange
    {
      Get(bits, index)
    }

    /** The indexer's setter. */
    method SetItem(index: int, value: bool)
      requires Valid()
      modifies this
      ensures Valid()
      ensures bits == With(old(bits), index, value)
      ensures Test(bits, index) == value
      ensures forall other :: ShiftCount(other) != ShiftCount(index) ==> (Test(bits, other) <==> Test(old(bits), other))
    {
      var k := ShiftCount(index);
      if value && !Digit(bits, k) {
        bits := bits + Pow2(k);
      } else if !value && Digit(bits, k) {
        DigitSub(bits, k, k);
        bits := bits - Pow2(k);
      }
      SetStaysInWord(old(bits), index, value);
      GetAfterSet(old(bits), index, value);
      forall other | ShiftCount(other) != ShiftCount(index)
        ensures Test(bits, other) <==> Test(old(bits), other)
      {
        SetFrame(old(bits), index, value, other);
      }
    }
  }
}
