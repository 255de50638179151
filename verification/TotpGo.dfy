/** The Go TOTP code (RFC 6238): step 30, six digits, window one, on 64-bit and 32-bit words. */
module TotpGo {
  import opened Arithmetic
  import opened Words
  import opened Wrappers
  import opened Base32
  import opened Hotp
  import HotpProperties

  const TIME_STEP := 30

  lemma {:induction false} Pow10Grows(d: nat, e: nat)
    requires d <= e
    ensures Pow10(d) <= Pow10(e)
  {
    if d < e {
      Pow10Grows(d, e - 1);
    }
  }

  /** uint32(math.Pow10(digits)), where ten to that power fits in 32 bits. */
  function Modulus(digits: nat): (m: Uint32)
    requires digits <= 9
    ensures m >= 1
  {
    Pow10Grows(digits, 9);
    assert Pow10(3) == 1000 && Pow10(6) == 1000000 && Pow10(9) == 1000000000;
    Pow10(digits)
  }

  function CodeAt(mac: Mac, key: seq<Byte>, counter: nat, digits: nat): string
    requires digits <= 9
  {
    var digest := mac(key, ToBytes(counter, 8));
    HotpProperties.OffsetInRange(digest);
    ZeroFill(Decimal(GoTruncate(digest) % Modulus(digits)), digits)
  }

  /** The six-digit codes of a key, by counter. */
  function Codes(mac: Mac, key: seq<Byte>): nat -> string {
    (counter: nat) => CodeAt(mac, key, counter, 6)
  }

  /** The codes of the key in a secret; none if it cannot be decoded. */
  function SecretCodes(mac: Mac, secret: Ascii): Option<nat -> string> {
    var key := GoDecode(secret);
    if key.None? then None else Some(Codes(mac, key.value))
  }

  /** GenerateTOTP at a Unix time in seconds. */
  function Generate(mac: Mac, secret: Ascii, unix: Int64): Option<string> {
    GenerateFrom(SecretCodes(mac, secret), unix)
  }

  function GenerateFrom(codes: Option<nat -> string>, unix: Int64): Option<string> {
    if codes.None? then None else Some(codes.value(U64(unix) / TIME_STEP))
  }

  /** The counter that VerifyTOTP tries for an offset from the current step. */
  function Tried(unix: Int64, delta: int): Uint64 {
    U64(TruncDiv(unix, TIME_STEP) + delta)
  }

  function Accepts(codes: nat -> string, code: string, unix: Int64): bool {
    codes(Tried(unix, -1)) == code || codes(Tried(unix, 0)) == code || codes(Tried(unix, 1)) == code
  }

  function Verify(mac: Mac, secret: Ascii, code: string, unix: Int64): Option<bool> {
    VerifyFrom(SecretCodes(mac, secret), code, unix)
  }

  function VerifyFrom(codes: Option<nat -> string>, code: string, unix: Int64): Option<bool> {
    if codes.None? then None else Some(Accepts(codes.value, code, unix))
  }

  /** Byte i of a word of w bytes is the value shifted right by the bytes that follow. */
  lemma {:induction false} ByteAt(v: nat, w: nat, i: nat)
    requires i < w
    ensures ToBytes(v, w)[i] == v / Pow256(w - 1 - i) % 256
  {
    if i < w - 1 {
      ByteAt(v / 256, w - 1, i);
      Quotients(v, 256, Pow256(w - 2 - i));
    }
  }

  /** binary.BigEndian.PutUint64. */
  method PutUint64(b: array<Byte>, v: Uint64)
    requires b.Length == 8
    modifies b
    ensures b[..] == ToBytes(v, 8)
  {
    b[0] := v / Pow256(7) % 256;
    b[1] := v / Pow256(6) % 256;
    b[2] := v / Pow256(5) % 256;
    b[3] := v / Pow256(4) % 256;
    b[4] := v / Pow256(3) % 256;
    b[5] := v / Pow256(2) % 256;
    b[6] := v / Pow256(1) % 256;
    b[7] := v / Pow256(0) % 256;
    assert forall i :: 0 <= i < 8 ==> b[i] == v / Pow256(7 - i) % 256;
    forall i | 0 <= i < 8
      ensures b[i] == ToBytes(v, 8)[i]
    {
      ByteAt(v, 8, i);
    }
  }

  /** hotp: the counter goes into a byte buffer, the truncated word is masked in place. */
  method ComputeHotp(mac: Mac, key: seq<Byte>, counter: Uint64, digits: nat) returns (code: string)
    requires digits <= 9
    ensures code == CodeAt(mac, key, counter, digits)
  {
    var counterBytes := new Byte[8](_ => 0);
    PutUint64(counterBytes, counter);
    var h := mac(key, counterBytes[..]);
    var offset := And(h[19], 0x0F);
    HotpProperties.OffsetInRange(h);
    var truncated := BigEndianUint32(h[offset..offset + 4]);
    truncated := And(truncated, 0x7FFF_FFFF);
    var otp := truncated % Modulus(digits);
    code := ZeroFill(Decimal(otp), digits);
  }

  method GenerateTOTP(mac: Mac, secret: Ascii, unix: Int64) returns (r: Option<string>)
    ensures r == Generate(mac, secret, unix)
  {
    var key := GoBase32Decode(secret);
    if key.None? {
      return None;
    }
    var counter := U64(unix) / TIME_STEP;
    var code := ComputeHotp(mac, key.value, counter, 6);
    assert code == Codes(mac, key.value)(counter);
    r := Some(code);
  }

  method VerifyTOTP(mac: Mac, secret: Ascii, code: string, unix: Int64) returns (r: Option<bool>)
    ensures r == Verify(mac, secret, code, unix)
  {
    var key := GoBase32Decode(secret);
    if key.None? {
      return None;
    }
    var accepted := VerifyAround(mac, key.value, code, unix, Codes(mac, key.value));
    r := Some(accepted);
  }

  /** The loop of VerifyTOTP. */
  method VerifyAround(mac: Mac, key: seq<Byte>, code: string, unix: Int64, ghost codes: nat -> string)
    returns (accepted: bool)
    requires codes == Codes(mac, key)
    ensures accepted == Accepts(codes, code, unix)
  {
    hide CodeAt;
    var counter := TruncDiv(unix, TIME_STEP);
    var delta := -1;
    while delta <= 1
      invariant -1 <= delta <= 2
      invariant forall d :: -1 <= d < delta ==> codes(Tried(unix, d)) != code
    {
      var c := U64(counter + delta);
      assert c == Tried(unix, delta);
      var expected := ComputeHotp(mac, key, c, 6);
      assert expected == codes(c);
      if expected == code {
        return true;
      }
      delta := delta + 1;
    }
    accepted := false;
  }
}
