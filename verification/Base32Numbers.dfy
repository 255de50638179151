/** What the printed letters and the decoded bytes are as numbers: which letters, and in which order the bits. */
module Base32Numbers {
  import opened Base32
  import opened Base32Properties

  const ALPHABET: string := "ABCDEFGHIJKLMNOPQRSTUVWXYZ234567"

  /** Table 3 of RFC 4648. */
  lemma AlphabetOfTheStandard(v: nat)
    requires v < 32
    ensures Letter(v) == ALPHABET[v]
  {
  }

  /** No other character is a letter, and each letter has its place in the table as its value. */
  lemma ValuesOfTheStandard(c: char)
    ensures IsLetter(c) <==> c in ALPHABET
    ensures IsLetter(c) ==> ALPHABET[Value(c)] == c
  {
    if IsLetter(c) {
      assert Letter(Value(c)) == c;
      AlphabetOfTheStandard(Value(c));
    } else if v: nat :| v < 32 && ALPHABET[v] == c {
      AlphabetOfTheStandard(v);
      ValueOfLetter(v);
    }
  }

  /** Digits as one number, the first digit highest. */
  function Number(digits: seq<nat>, base: nat): nat {
    if digits == [] then 0 else Number(digits[..|digits| - 1], base) * base + digits[|digits| - 1]
  }

  lemma JoinStep(high: nat, p: nat, low: nat, bit: nat)
    ensures 2 * (high * p + low) + bit == high * (2 * p) + (2 * low + bit)
  {
    assert high * (2 * p) == 2 * (high * p);
  }

  lemma {:induction false} JoinedBits(a: seq<bool>, b: seq<bool>)
    ensures FromBits(a + b) == FromBits(a) * Pow2(|b|) + FromBits(b)
  {
    if b == [] {
      assert a + b == a;
    } else {
      var n := |b| - 1;
      assert (a + b)[..|a + b| - 1] == a + b[..n];
      JoinedBits(a, b[..n]);
      JoinStep(FromBits(a), Pow2(n), FromBits(b[..n]), if b[n] then 1 else 0);
    }
  }

  lemma {:induction false} StreamLast(xs: seq<nat>, x: nat, w: nat)
    ensures Stream(xs + [x], w) == Stream(xs, w) + ToBits(x, w)
  {
    if xs == [] {
      assert [] + [x] == [x] && [x][1..] == [];
    } else {
      assert (xs + [x])[1..] == xs[1..] + [x];
      StreamLast(xs[1..], x, w);
    }
  }

  /** The bit stream of a sequence is its number, the highest bit first. */
  lemma {:induction false} StreamIsNumber(xs: seq<nat>, w: nat, base: nat)
    requires base == Pow2(w) && forall i :: 0 <= i < |xs| ==> xs[i] < base
    ensures FromBits(Stream(xs, w)) == Number(xs, base)
  {
    if xs != [] {
      var n := |xs| - 1;
      StreamIsNumber(xs[..n], w, base);
      StreamLast(xs[..n], xs[n], w);
      assert xs == xs[..n] + [xs[n]];
      JoinedBits(Stream(xs[..n], w), ToBits(xs[n], w));
      FromToBits(xs[n], w);
    }
  }

  lemma {:induction false} ZerosAreZero(n: nat)
    ensures FromBits(Zeros(n)) == 0
  {
    if n > 0 {
      assert Zeros(n)[..n - 1] == Zeros(n - 1);
      ZerosAreZero(n - 1);
    }
  }

  lemma FilledWith(bytes: seq<Byte>, size: nat, fill: nat)
    requires size == |Stream(bytes, 8)| && fill == (5 - size % 5) % 5
    ensures FilledBits(bytes) == Stream(bytes, 8) + Zeros(fill)
  {
  }

  lemma FilledNumber(bytes: seq<Byte>, size: nat, fill: nat)
    requires size == 8 * |bytes| && fill == (5 - size % 5) % 5
    ensures FromBits(FilledBits(bytes)) == Number(bytes, 256) * Pow2(fill)
  {
    hide FilledBits;
    assert Pow2(8) == 256;
    StreamIsNumber(bytes, 8, 256);
    StreamLength(bytes, 8);
    FilledWith(bytes, size, fill);
    JoinedBits(Stream(bytes, 8), Zeros(fill));
    ZerosAreZero(fill);
  }

  lemma LettersNumber(bytes: seq<Byte>)
    ensures AllLetters(EncodeUnpadded(bytes))
    ensures Number(Values(EncodeUnpadded(bytes)), 32) == FromBits(FilledBits(bytes))
  {
    assert Pow2(5) == 32;
    EncodedIsLetters(bytes);
    EncodedLength(bytes);
    CutIsSmall(FilledBits(bytes), 5);
    StreamIsNumber(Cut(FilledBits(bytes), 5), 5, 32);
  }

  /** The letters, as digits of base 32, are the number that the bytes are as digits of base 256, shifted left by the
      zero bits that fill up the last letter. */
  lemma PrintedNumber(bytes: seq<Byte>, size: nat, fill: nat)
    requires size == 8 * |bytes| && fill == (5 - size % 5) % 5
    ensures AllLetters(EncodeUnpadded(bytes))
    ensures Number(Values(EncodeUnpadded(bytes)), 32) == Number(bytes, 256) * Pow2(fill)
  {
    LettersNumber(bytes);
    FilledNumber(bytes, size, fill);
  }

  lemma StreamOfFirst(first: seq<bool>, rest: seq<bool>, left: seq<bool>, w: nat)
    requires w >= 1 && |first| == w && rest == Stream(Cut(rest, w), w) + left
    ensures first + rest == Stream(Cut(first + rest, w), w) + left && |Cut(first + rest, w)| == 1 + |Cut(rest, w)|
  {
    CutFirst(first, rest, w);
    ToFromBits(first);
    StreamFirst(FromBits(first), Cut(rest, w), w);
    Associative(first, Stream(Cut(rest, w), w), left);
  }

  /** Cutting keeps all bits but the last few. */
  lemma {:induction false} CutLeaves(bits: seq<bool>, w: nat) returns (left: seq<bool>)
    requires w >= 1
    ensures |left| < w && bits == Stream(Cut(bits, w), w) + left
    decreases |bits|
  {
    if |bits| < w {
      left := bits;
    } else {
      left := CutLeaves(bits[w..], w);
      assert bits == bits[..w] + bits[w..];
      StreamOfFirst(bits[..w], bits[w..], left, w);
    }
  }

  lemma LeftOver(total: nat, n: nat, left: nat)
    requires total == n * 8 + left && left < 8
    ensures n == total / 8 && left == total % 8
  {
  }

  /** The decoded bytes, as digits of base 256, are the number that the letters are as digits of base 32, without the
      bits that do not fill a byte. */
  lemma DecodedNumber(data: string) returns (dropped: nat)
    requires AllLetters(data)
    ensures |Bytes(data)| == 5 * |data| / 8 && dropped < Pow2(5 * |data| % 8)
    ensures Number(Values(data), 32) == Number(Bytes(data), 256) * Pow2(5 * |data| % 8) + dropped
  {
    var values := Values(data);
    var bits := Stream(values, 5);
    var left := CutLeaves(bits, 8);
    assert Pow2(5) == 32 && Pow2(8) == 256;
    StreamIsNumber(values, 5, 32);
    CutIsSmall(bits, 8);
    StreamIsNumber(Cut(bits, 8), 8, 256);
    StreamLength(values, 5);
    StreamLength(Cut(bits, 8), 8);
    LeftOver(|bits|, |Cut(bits, 8)|, |left|);
    JoinedBits(Stream(Cut(bits, 8), 8), left);
    ToFromBits(left);
    dropped := FromBits(left);
  }
}
