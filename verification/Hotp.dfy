/** HOTP values (section 5.3 of RFC 4226): the moving factor as bytes, dynamic truncation, and decimal codes.
    HMAC-SHA1 is an arbitrary function from a key and a message to a digest of 20 bytes. */
module Hotp {
  import opened Base32
  import opened Words

  type Digest = d: seq<Byte> | |d| == 20 witness seq(20, _ => 0)

  type Mac = (seq<Byte>, seq<Byte>) -> Digest

  // ---------------------------------------------------------------- bitwise operators

  /** Bitwise and, on numbers of any width. */
  function And(x: nat, y: nat): nat {
    if x == 0 || y == 0 then 0 else 2 * And(x / 2, y / 2) + if x % 2 == 1 && y % 2 == 1 then 1 else 0
  }

  /** Bitwise or. */
  function Or(x: nat, y: nat): nat
    decreases x + y
  {
    if x == 0 then y
    else if y == 0 then x
    else 2 * Or(x / 2, y / 2) + if x % 2 == 0 && y % 2 == 0 then 0 else 1
  }

  /** The left shift of a uint32, which loses the bits that leave the word. */
  function Shl32(x: nat, k: nat): nat {
    x * Pow2(k) % TWO_TO_32
  }

  // ---------------------------------------------------------------- the moving factor

  /** The w low bytes of n, most significant first. */
  function ToBytes(n: nat, w: nat): (bytes: seq<Byte>)
    ensures |bytes| == w
  {
    if w == 0 then [] else ToBytes(n / 256, w - 1) + [n % 256]
  }

  function Pow256(w: nat): (p: nat)
    ensures p >= 1
  {
    if w == 0 then 1 else 256 * Pow256(w - 1)
  }

  function FromBytes(bytes: seq<Byte>): nat {
    if bytes == [] then 0 else 256 * FromBytes(bytes[..|bytes| - 1]) + bytes[|bytes| - 1]
  }

  // ---------------------------------------------------------------- dynamic truncation

  /** The low nibble of the last byte. */
  function Offset(d: Digest): nat {
    And(d[19], 0x0F)
  }

  /** Python: four bytes as a big-endian number, then the mask, on unbounded integers. */
  function PyTruncate(d: Digest): nat
    requires Offset(d) <= 15
  {
    var o := Offset(d);
    And(FromBytes(d[o..o + 4]), 0x7FFF_FFFF)
  }

  /** binary.BigEndian.Uint32: the word is put together with shifts and ors of uint32. */
  function BigEndianUint32(b: seq<Byte>): nat
    requires |b| == 4
  {
    Or(Or(Or(b[3], Shl32(b[2], 8)), Shl32(b[1], 16)), Shl32(b[0], 24))
  }

  /** Go: the same on 32-bit words. */
  function GoTruncate(d: Digest): nat
    requires Offset(d) <= 15
  {
    var o := Offset(d);
    And(BigEndianUint32(d[o..o + 4]), 0x7FFF_FFFF)
  }

  // ---------------------------------------------------------------- decimal codes

  function Pow10(d: nat): (p: nat)
    ensures p >= 1
  {
    if d == 0 then 1 else 10 * Pow10(d - 1)
  }

  function DigitChar(v: nat): char
    requires v < 10
  {
    (v + '0' as int) as char
  }

  predicate IsDigit(c: char) {
    '0' <= c <= '9'
  }

  function DigitValue(c: char): nat
    requires IsDigit(c)
  {
    c as int - '0' as int
  }

  function Decimal(n: nat): (s: string)
    ensures |s| >= 1
  {
    if n < 10 then [DigitChar(n)] else Decimal(n / 10) + [DigitChar(n % 10)]
  }

  /** Zeros on the left up to a width: Python's zfill and the zero flag of Go's Sprintf. */
  function ZeroFill(s: string, width: nat): string {
    if |s| >= width then s else Repeat('0', width - |s|) + s
  }

  function Parse(s: string): nat
    requires forall i :: 0 <= i < |s| ==> IsDigit(s[i])
  {
    if s == [] then 0 else 10 * Parse(s[..|s| - 1]) + DigitValue(s[|s| - 1])
  }

  /** The code for a truncated value. */
  function Code(truncated: nat, digits: nat): string {
    ZeroFill(Decimal(truncated % Pow10(digits)), digits)
  }
}
