/** Base32 keys (section 6 of RFC 4648): the unpadded printer of the MFA set-up, and the two parsers that repair
    missing padding. Secrets are ASCII texts. */
module Base32 {
  import opened Wrappers

  type Byte = n: nat | n < 256

  predicate IsAscii(s: string) {
    forall i :: 0 <= i < |s| ==> s[i] as int < 128
  }

  type Ascii = s: string | IsAscii(s)

  // ---------------------------------------------------------------- bit streams

  function Pow2(w: nat): (p: nat)
    ensures p >= 1
  {
    if w == 0 then 1 else 2 * Pow2(w - 1)
  }

  /** The w low bits of n, most significant first. */
  function ToBits(n: nat, w: nat): (bits: seq<bool>)
    ensures |bits| == w
  {
    if w == 0 then [] else ToBits(n / 2, w - 1) + [n % 2 == 1]
  }

  function FromBits(bits: seq<bool>): nat {
    if bits == [] then 0 else 2 * FromBits(bits[..|bits| - 1]) + if bits[|bits| - 1] then 1 else 0
  }

  lemma {:induction false} FromToBits(n: nat, w: nat)
    requires n < Pow2(w)
    ensures FromBits(ToBits(n, w)) == n
  {
    if w > 0 {
      FromToBits(n / 2, w - 1);
      assert ToBits(n, w)[..w - 1] == ToBits(n / 2, w - 1);
    }
  }

  lemma {:induction false} ToFromBits(bits: seq<bool>)
    ensures FromBits(bits) < Pow2(|bits|)
    ensures ToBits(FromBits(bits), |bits|) == bits
  {
    if bits != [] {
      ToFromBits(bits[..|bits| - 1]);
      assert FromBits(bits) / 2 == FromBits(bits[..|bits| - 1]);
    }
  }

  /** All numbers of a sequence, w bits each. */
  function Stream(xs: seq<nat>, w: nat): (bits: seq<bool>) {
    if xs == [] then [] else ToBits(xs[0], w) + Stream(xs[1..], w)
  }

  /** A bit stream cut into numbers of w bits; bits that do not fill the last one are dropped. */
  function Cut(bits: seq<bool>, w: nat): seq<nat>
    requires w >= 1
  {
    if |bits| < w then [] else [FromBits(bits[..w])] + Cut(bits[w..], w)
  }

  lemma {:induction false} StreamLength(xs: seq<nat>, w: nat)
    ensures |Stream(xs, w)| == |xs| * w
  {
    if xs != [] {
      StreamLength(xs[1..], w);
      assert |xs| * w == w + (|xs| - 1) * w;
    }
  }

  lemma Associative(a: seq<bool>, b: seq<bool>, c: seq<bool>)
    ensures a + b + c == a + (b + c)
  {
  }

  lemma CutFirst(first: seq<bool>, rest: seq<bool>, w: nat)
    requires w >= 1 && |first| == w
    ensures Cut(first + rest, w) == [FromBits(first)] + Cut(rest, w)
  {
    assert (first + rest)[..w] == first && (first + rest)[w..] == rest;
  }

  lemma {:induction false} CutStream(xs: seq<nat>, w: nat, rest: seq<bool>)
    requires w >= 1 && |rest| < w && forall i :: 0 <= i < |xs| ==> xs[i] < Pow2(w)
    ensures Cut(Stream(xs, w) + rest, w) == xs
  {
    if xs == [] {
      assert Stream(xs, w) + rest == rest;
    } else {
      var first, tail := ToBits(xs[0], w), Stream(xs[1..], w);
      FromToBits(xs[0], w);
      CutStream(xs[1..], w, rest);
      CutFirst(first, tail + rest, w);
      Associative(first, tail, rest);
      assert xs == [xs[0]] + xs[1..];
    }
  }

  lemma StreamFirst(x: nat, xs: seq<nat>, w: nat)
    ensures Stream([x] + xs, w) == ToBits(x, w) + Stream(xs, w)
  {
    assert ([x] + xs)[1..] == xs;
  }

  lemma OneLess(n: nat, w: nat)
    requires n > 0
    ensures n * w == w + (n - 1) * w && (n - 1) * w >= 0
  {
  }

  lemma StreamOfCut(first: seq<bool>, rest: seq<bool>, w: nat)
    requires w >= 1 && |first| == w && Stream(Cut(rest, w), w) == rest
    ensures Stream(Cut(first + rest, w), w) == first + rest && |Cut(first + rest, w)| == 1 + |Cut(rest, w)|
  {
    CutFirst(first, rest, w);
    ToFromBits(first);
    StreamFirst(FromBits(first), Cut(rest, w), w);
  }

  /** Cutting evenly loses nothing. */
  lemma {:induction false} StreamCut(bits: seq<bool>, w: nat, n: nat)
    requires w >= 1 && |bits| == n * w
    ensures Stream(Cut(bits, w), w) == bits && |Cut(bits, w)| == n
    decreases n
  {
    if n > 0 {
      OneLess(n, w);
      StreamCut(bits[w..], w, n - 1);
      assert bits == bits[..w] + bits[w..];
      StreamOfCut(bits[..w], bits[w..], w);
    }
  }

  lemma {:induction false} CutIsSmall(bits: seq<bool>, w: nat)
    requires w >= 1
    ensures forall i :: 0 <= i < |Cut(bits, w)| ==> Cut(bits, w)[i] < Pow2(w)
    decreases |bits|
  {
    if |bits| >= w {
      ToFromBits(bits[..w]);
      CutIsSmall(bits[w..], w);
    }
  }

  // ---------------------------------------------------------------- characters

  /** The alphabet of RFC 4648, table 3: A to Z, then 2 to 7. */
  function Letter(v: nat): (c: char)
    requires v < 32
  {
    if v < 26 then (v + 'A' as int) as char else (v - 26 + '2' as int) as char
  }

  predicate IsLetter(c: char) {
    'A' <= c <= 'Z' || '2' <= c <= '7'
  }

  function Value(c: char): (v: nat)
    requires IsLetter(c)
    ensures v < 32
  {
    if 'A' <= c <= 'Z' then c as int - 'A' as int else c as int - '2' as int + 26
  }

  predicate AllLetters(s: string) {
    forall i :: 0 <= i < |s| ==> IsLetter(s[i])
  }

  function Values(s: string): (vs: seq<nat>)
    requires AllLetters(s)
  {
    seq(|s|, i requires 0 <= i < |s| => Value(s[i]))
  }

  function Repeat(c: char, n: nat): string {
    seq(n, _ => c)
  }

  // ---------------------------------------------------------------- printing

  function Zeros(n: nat): seq<bool> {
    seq(n, _ => false)
  }

  /** The bits of the bytes, filled up with zero bits to a multiple of five. */
  function FilledBits(bytes: seq<Byte>): seq<bool> {
    var bits := Stream(bytes, 8);
    bits + Zeros((5 - |bits| % 5) % 5)
  }

  function EncodeUnpadded(bytes: seq<Byte>): string {
    var groups := Cut(FilledBits(bytes), 5);
    CutIsSmall(FilledBits(bytes), 5);
    seq(|groups|, i requires 0 <= i < |groups| => Letter(groups[i]))
  }

  // ---------------------------------------------------------------- parsing

  /** The text without the padding characters at its end. */
  function StripPad(s: string): (data: string)
    ensures |data| <= |s| && data == s[..|data|]
    ensures data != [] ==> data[|data| - 1] != '='
    ensures forall i :: |data| <= i < |s| ==> s[i] == '='
  {
    if s != [] && s[|s| - 1] == '=' then StripPad(s[..|s| - 1]) else s
  }

  function Bytes(data: string): seq<Byte>
    requires AllLetters(data)
  {
    CutIsSmall(Stream(Values(data), 5), 8);
    Cut(Stream(Values(data), 5), 8)
  }

  /** Python's b32decode: full blocks of eight characters, only letters before the padding, and a padding that
      section 6 of RFC 4648 can produce. */
  function DecodePadded(s: string): Option<seq<Byte>> {
    var data := StripPad(s);
    if |s| % 8 != 0 || !AllLetters(data) || |s| - |data| !in {0, 1, 3, 4, 6} then None else Some(Bytes(data))
  }

  function UpperChar(c: char): char {
    if 'a' <= c <= 'z' then (c as int - 32) as char else c
  }

  function Upper(s: string): (u: string)
    ensures |u| == |s|
  {
    seq(|s|, i requires 0 <= i < |s| => UpperChar(s[i]))
  }

  /** White space of Go's strings.TrimSpace: the characters with Unicode's White_Space property. */
  predicate GoSpace(c: char) {
    var code := c as int;
    || c == ' ' || 9 <= code <= 13
    || code == 0x85 || code == 0xA0 || code == 0x1680 || 0x2000 <= code <= 0x200A
    || code == 0x2028 || code == 0x2029 || code == 0x202F || code == 0x205F || code == 0x3000
  }

  /** White space of Python's str.strip, which also takes the four information separators. */
  predicate PySpace(c: char) {
    GoSpace(c) || IsSeparator(c)
  }

  predicate IsSeparator(c: char) {
    28 <= c as int <= 31
  }

  predicate IsNewline(c: char) {
    c == '\n' || c == '\r'
  }

  predicate Space(python: bool, c: char) {
    if python then PySpace(c) else GoSpace(c)
  }

  function TrimLeft(python: bool, s: string): string {
    if s != [] && Space(python, s[0]) then TrimLeft(python, s[1..]) else s
  }

  function TrimRight(python: bool, s: string): string {
    if s != [] && Space(python, s[|s| - 1]) then TrimRight(python, s[..|s| - 1]) else s
  }

  function Trim(python: bool, s: string): string {
    TrimRight(python, TrimLeft(python, s))
  }

  /** Padding is added when the length is not a multiple of eight. */
  function Repad(s: string): string {
    if |s| % 8 == 0 then s else s + Repeat('=', 8 - |s| % 8)
  }

  function DropNewlines(s: string): string {
    if s == [] then []
    else if IsNewline(s[|s| - 1]) then DropNewlines(s[..|s| - 1])
    else DropNewlines(s[..|s| - 1]) + [s[|s| - 1]]
  }

  /** The text before its first padding character. */
  function Unpadded(s: string): (data: string)
    ensures data <= s && '=' !in data
    ensures |data| < |s| ==> s[|data|] == '='
  {
    if s == [] || s[0] == '=' then [] else [s[0]] + Unpadded(s[1..])
  }

  /** Where the block of eight characters ends that position i lies in. */
  function BlockEnd(i: nat): nat {
    i / 8 * 8 + 8
  }

  /** Padding from position lo up to position hi. */
  predicate IsPadding(s: string, lo: nat, hi: nat)
    requires hi <= |s|
  {
    forall i :: lo <= i < hi ==> s[i] == '='
  }

  /** The blocks of Go's encoding/base32. The first padding character must stand at a position in its block that
      section 6 of RFC 4648 allows, with fewer than eight characters after it, and padding must fill the block.
      What stands after that block is not looked at. */
  function GoBlocks(text: string): Option<seq<Byte>> {
    var data := Unpadded(text);
    var n := |data|;
    if !AllLetters(data) then None
    else if n == |text| then if n % 8 == 0 then Some(Bytes(data)) else None
    else if n % 8 in {2, 4, 5, 7} && BlockEnd(n) <= |text| <= n + 8 && IsPadding(text, n, BlockEnd(n)) then
      Some(Bytes(data))
    else None
  }

  /** Go's decoder leaves line breaks out first. */
  function GoLibrary(s: string): Option<seq<Byte>> {
    GoBlocks(DropNewlines(s))
  }

  /** _base32_decode: blank secrets are refused first. */
  datatype PyKeyError = EmptySecret | BadBase32

  function PyDecode(secret: Ascii): Result<seq<Byte>, PyKeyError> {
    if Trim(true, secret) == [] then Err(EmptySecret)
    else
      var decoded := DecodePadded(Repad(Trim(true, Upper(secret))));
      if decoded.None? then Err(BadBase32) else Ok(decoded.value)
  }

  /** base32Decode. */
  function GoDecode(secret: Ascii): Option<seq<Byte>> {
    GoLibrary(Repad(Upper(Trim(false, secret))))
  }

  // ---------------------------------------------------------------- the loops of the source

  method PyBase32Decode(secret: Ascii) returns (r: Result<seq<Byte>, PyKeyError>)
    ensures r == PyDecode(secret)
  {
    hide DecodePadded;
    if secret == [] || Trim(true, secret) == [] {
      return Err(EmptySecret);
    }
    var clean := Trim(true, Upper(secret));
    var pad := |clean| % 8;
    if pad != 0 {
      clean := clean + Repeat('=', 8 - pad);
    }
    var decoded := DecodePadded(clean);
    if decoded.None? {
      return Err(BadBase32);
    }
    r := Ok(decoded.value);
  }

  method GoBase32Decode(secret: Ascii) returns (r: Option<seq<Byte>>)
    ensures r == GoDecode(secret)
  {
    var upper := Upper(Trim(false, secret));
    var pad := |upper| % 8;
    if pad != 0 {
      upper := upper + Repeat('=', 8 - pad);
    }
    r := GoLibrary(upper);
  }
}
