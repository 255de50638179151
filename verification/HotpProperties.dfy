/** Both truncations are the documented 31-bit number, and codes are its last digits. */
module HotpProperties {
  import opened Arithmetic
  import opened Base32
  import opened Hotp
  import opened Words

  // ---------------------------------------------------------------- bitwise operators

  /** One bit of an and, apart from the others. */
  lemma AndLowBit(x: nat, y: nat, restX: nat, restY: nat, bitX: nat, bitY: nat)
    requires x == 2 * restX + bitX && y == 2 * restY + bitY && bitX < 2 && bitY < 2
    ensures And(x, y) == 2 * And(restX, restY) + if bitX == 1 && bitY == 1 then 1 else 0
  {
    assert x / 2 == restX && y / 2 == restY;
  }

  lemma Doubled(high: nat, p: nat)
    ensures high * (2 * p) == 2 * (high * p)
  {
  }

  /** A mask of k ones keeps the part below 2^k. */
  lemma {:induction false} AndMask(x: nat, k: nat, high: nat, low: nat)
    requires x == high * Pow2(k) + low && low < Pow2(k)
    ensures And(x, Pow2(k) - 1) == low
  {
    if k > 0 {
      var p := Pow2(k - 1);
      Doubled(high, p);
      AndMask(high * p + low / 2, k - 1, high, low / 2);
      AndLowBit(x, 2 * p - 1, high * p + low / 2, p - 1, low % 2, 1);
    }
  }

  lemma OrHalves(x: nat, y: nat)
    ensures Or(x, y) == 2 * Or(x / 2, y / 2) + if x % 2 == 0 && y % 2 == 0 then 0 else 1
  {
  }

  lemma HalfProduct(high: nat, p: nat, shifted: nat)
    requires shifted == high * (2 * p)
    ensures shifted % 2 == 0 && shifted / 2 == high * p
  {
    assert shifted == 2 * (high * p);
  }

  /** Or of a number below 2^k and a multiple of 2^k is their sum. */
  lemma {:induction false} OrDisjoint(low: nat, high: nat, k: nat, shifted: nat)
    requires low < Pow2(k) && shifted == high * Pow2(k)
    ensures Or(low, shifted) == low + shifted
  {
    if k > 0 {
      HalfProduct(high, Pow2(k - 1), shifted);
      OrDisjoint(low / 2, high, k - 1, shifted / 2);
      OrHalves(low, shifted);
    }
  }

  // ---------------------------------------------------------------- truncation

  lemma OffsetInRange(d: Digest)
    ensures Offset(d) == d[19] % 16
    ensures Offset(d) + 4 <= |d| - 1
  {
    assert Pow2(4) == 16;
    AndMask(d[19], 4, d[19] / 16, d[19] % 16);
  }

  /** Four bytes as one big-endian number. */
  function Word(b0: nat, b1: nat, b2: nat, b3: nat): nat {
    b0 * 0x100_0000 + b1 * 0x1_0000 + b2 * 0x100 + b3
  }

  /** The number that section 5.3 of RFC 4226 describes: four bytes, the first one without its top bit. */
  function Truncated(d: Digest): nat {
    var o := d[19] % 16;
    Word(d[o] % 128, d[o + 1], d[o + 2], d[o + 3])
  }

  lemma MaskedWord(b0: Byte, b1: Byte, b2: Byte, b3: Byte)
    ensures And(Word(b0, b1, b2, b3), 0x7FFF_FFFF) == Word(b0 % 128, b1, b2, b3) < TWO_TO_31
  {
    PowersOfTwo();
    TopBitApart(b0, b0 / 128, b0 % 128, b1, b2, b3);
    AndMask(Word(b0, b1, b2, b3), 31, b0 / 128, Word(b0 % 128, b1, b2, b3));
  }

  lemma TopBitApart(b0: nat, top: nat, low: nat, b1: nat, b2: nat, b3: nat)
    requires b0 == top * 128 + low && low < 128 && b1 < 256 && b2 < 256 && b3 < 256
    ensures Word(b0, b1, b2, b3) == top * TWO_TO_31 + Word(low, b1, b2, b3)
    ensures Word(low, b1, b2, b3) < TWO_TO_31
  {
  }

  lemma PackedWord(b0: Byte, b1: Byte, b2: Byte, b3: Byte)
    ensures FromBytes([b0, b1, b2, b3]) == Word(b0, b1, b2, b3)
  {
    var s := [b0, b1, b2, b3];
    assert s[..3] == [b0, b1, b2] && [b0, b1, b2][..2] == [b0, b1] && [b0, b1][..1] == [b0] && [b0][..0] == [];
    assert FromBytes([b0]) == b0;
    assert FromBytes([b0, b1]) == b0 * 0x100 + b1;
    assert FromBytes([b0, b1, b2]) == b0 * 0x1_0000 + b1 * 0x100 + b2;
  }

  lemma PowersOfTwo()
    ensures Pow2(8) == 0x100 && Pow2(16) == 0x1_0000 && Pow2(24) == 0x100_0000 && Pow2(31) == TWO_TO_31
  {
    assert Pow2(8) == 0x100;
    assert Pow2(16) == 0x1_0000;
    assert Pow2(24) == 0x100_0000;
  }

  lemma ShiftStaysInWord(x: nat, k: nat, shifted: nat)
    requires shifted == x * Pow2(k) < TWO_TO_32
    ensures Shl32(x, k) == shifted
  {
  }

  lemma ShiftsStayInWord(b2: Byte, b1: Byte, b0: Byte)
    ensures Shl32(b2, 8) == b2 * 0x100 && Shl32(b1, 16) == b1 * 0x1_0000 && Shl32(b0, 24) == b0 * 0x100_0000
  {
    hide Pow2, Shl32;
    PowersOfTwo();
    ShiftStaysInWord(b2, 8, b2 * 0x100);
    ShiftStaysInWord(b1, 16, b1 * 0x1_0000);
    ShiftStaysInWord(b0, 24, b0 * 0x100_0000);
  }

  lemma ShiftedWord(b0: Byte, b1: Byte, b2: Byte, b3: Byte)
    ensures Or(Or(Or(b3, Shl32(b2, 8)), Shl32(b1, 16)), Shl32(b0, 24)) == Word(b0, b1, b2, b3)
  {
    hide Or, Shl32;
    ShiftsStayInWord(b2, b1, b0);
    OrWord(b3, b2 * 0x100, b1 * 0x1_0000, b0 * 0x100_0000, b2, b1, b0);
  }

  lemma OrWord(b3: nat, s2: nat, s1: nat, s0: nat, b2: nat, b1: nat, b0: nat)
    requires b3 < 256 && b2 < 256 && b1 < 256
    requires s2 == b2 * 0x100 && s1 == b1 * 0x1_0000 && s0 == b0 * 0x100_0000
    ensures Or(Or(Or(b3, s2), s1), s0) == b3 + s2 + s1 + s0
  {
    PowersOfTwo();
    OrDisjoint(b3, b2, 8, s2);
    OrDisjoint(b3 + s2, b1, 16, s1);
    OrDisjoint(b3 + s2 + s1, b0, 24, s0);
  }

  /** Neither program reads outside the digest, and both truncations are that number, which is below 2^31. */
  lemma TruncationsAgree(d: Digest)
    ensures Offset(d) <= 15
    ensures PyTruncate(d) == GoTruncate(d) == Truncated(d) < TWO_TO_31
  {
    OffsetInRange(d);
    var o := Offset(d);
    assert d[o..o + 4] == [d[o], d[o + 1], d[o + 2], d[o + 3]];
    PackedWord(d[o], d[o + 1], d[o + 2], d[o + 3]);
    ShiftedWord(d[o], d[o + 1], d[o + 2], d[o + 3]);
    MaskedWord(d[o], d[o + 1], d[o + 2], d[o + 3]);
  }

  // ---------------------------------------------------------------- the moving factor

  lemma {:induction false} FromToBytes(n: nat, w: nat)
    requires n < Pow256(w)
    ensures FromBytes(ToBytes(n, w)) == n
  {
    if w > 0 {
      FromToBytes(n / 256, w - 1);
      assert ToBytes(n, w)[..w - 1] == ToBytes(n / 256, w - 1);
    }
  }

  /** Different counters below 2^64 are different messages for the MAC. */
  lemma CountersAreDifferentMessages(c: nat, c': nat)
    requires c < TWO_TO_64 && c' < TWO_TO_64 && c != c'
    ensures ToBytes(c, 8) != ToBytes(c', 8)
  {
    assert Pow256(8) == TWO_TO_64;
    FromToBytes(c, 8);
    FromToBytes(c', 8);
  }

  // ---------------------------------------------------------------- digits

  /** Exactly d decimal digits of n, the last ones. */
  function LastDigits(n: nat, d: nat): (s: string)
    ensures |s| == d
  {
    if d == 0 then [] else LastDigits(n / 10, d - 1) + [DigitChar(n % 10)]
  }

  lemma {:induction false} LastDigitsOfRemainder(n: nat, d: nat)
    ensures LastDigits(n % Pow10(d), d) == LastDigits(n, d)
  {
    if d > 0 {
      TenModulo(n, Pow10(d - 1));
      LastDigitsOfRemainder(n / 10, d - 1);
    }
  }

  /** One more digit behind a filled number. */
  lemma FillThenDigit(s: string, d: nat, c: char)
    ensures ZeroFill(s + [c], d + 1) == ZeroFill(s, d) + [c]
  {
  }

  lemma FillOneDigit(c: char, d: nat)
    requires d >= 1
    ensures ZeroFill([c], d + 1) == ZeroFill("0", d) + [c]
  {
  }

  lemma DigitsAreDecimal(v: nat)
    requires v < 10
    ensures DigitChar(v) == "0123456789"[v]
  {
  }

  lemma FilledNext(n: nat, d: nat)
    requires d >= 1 && ZeroFill(Decimal(n / 10), d) == LastDigits(n / 10, d)
    ensures ZeroFill(Decimal(n), d + 1) == LastDigits(n, d + 1)
  {
    if n < 10 {
      FillOneDigit(DigitChar(n), d);
    } else {
      FillThenDigit(Decimal(n / 10), d, DigitChar(n % 10));
    }
  }

  lemma {:induction false} FilledDecimal(n: nat, d: nat)
    requires d >= 1 && n < Pow10(d)
    ensures ZeroFill(Decimal(n), d) == LastDigits(n, d)
  {
    if d == 1 {
      assert Pow10(1) == 10 && LastDigits(n / 10, 0) == [];
    } else {
      assert n / 10 < Pow10(d - 1);
      FilledDecimal(n / 10, d - 1);
      FilledNext(n, d - 1);
    }
  }

  /** A code of at least one digit is the last digits of the truncated value. */
  lemma CodeIsLastDigits(t: nat, d: nat)
    requires d >= 1
    ensures Code(t, d) == LastDigits(t, d)
  {
    assert t % Pow10(d) < Pow10(d);
    FilledDecimal(t % Pow10(d), d);
    LastDigitsOfRemainder(t, d);
  }

  lemma {:induction false} LastDigitsParse(n: nat, d: nat)
    ensures forall i :: 0 <= i < d ==> IsDigit(LastDigits(n, d)[i])
    ensures Parse(LastDigits(n, d)) == n % Pow10(d)
  {
    if d > 0 {
      LastDigitsParse(n / 10, d - 1);
      assert LastDigits(n, d)[..d - 1] == LastDigits(n / 10, d - 1);
      TenModulo(n, Pow10(d - 1));
    }
  }

  /** A code has exactly d decimal characters and reads back as the truncated value modulo 10^d. */
  lemma CodeParses(t: nat, d: nat)
    requires d >= 1
    ensures |Code(t, d)| == d
    ensures forall i :: 0 <= i < d ==> IsDigit(Code(t, d)[i])
    ensures Parse(Code(t, d)) == t % Pow10(d)
  {
    CodeIsLastDigits(t, d);
    LastDigitsParse(t, d);
  }

  lemma {:induction false} LastOfLast(n: nat, d: nat, more: nat)
    requires d <= more
    ensures LastDigits(n, more)[more - d..] == LastDigits(n, d)
  {
    if d > 0 {
      LastOfLast(n / 10, d - 1, more - 1);
      assert LastDigits(n, more)[more - d..] == LastDigits(n / 10, more - 1)[more - d..] + [DigitChar(n % 10)];
    }
  }

  /** Digit-suffix law: the d-digit code is the last d characters of every longer code. */
  lemma ShortCodeIsSuffix(t: nat, d: nat, more: nat)
    requires 1 <= d <= more
    ensures |Code(t, more)| == more && Code(t, d) == Code(t, more)[more - d..]
  {
    CodeIsLastDigits(t, d);
    CodeIsLastDigits(t, more);
    LastOfLast(t, d, more);
  }

  /** Asking for no digits still gives one: the code of length zero does not exist. */
  lemma NoDigitsGivesOne(t: nat)
    ensures Code(t, 0) == "0"
  {
    assert Pow10(0) == 1;
  }
}
