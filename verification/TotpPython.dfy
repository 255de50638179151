/** The Python TOTP utility (RFC 6238), with any step and any window, on unbounded integers. */
module TotpPython {
  import opened Wrappers
  import opened Base32
  import opened Hotp
  import opened Words
  import HotpProperties

  datatype PyError = SecretError(error: PyKeyError) | StructError | TypeError | ZeroDivisionError

  /** int() of a float truncates toward zero. */
  function PyInt(t: real): int {
    if t >= 0.0 then t.Floor else -((-t).Floor)
  }

  /** The // operator floors. */
  function FloorDiv(a: int, b: int): int
    requires b != 0
  {
    if b > 0 then a / b else -a / -b
  }

  /** The code of a counter that fits in eight bytes. */
  function CodeAt(mac: Mac, key: seq<Byte>, counter: nat, digits: nat): string {
    var digest := mac(key, ToBytes(counter, 8));
    HotpProperties.OffsetInRange(digest);
    Code(PyTruncate(digest), digits)
  }

  /** The codes of a key, by counter. */
  function Codes(mac: Mac, key: seq<Byte>, digits: nat): nat -> string {
    (counter: nat) => CodeAt(mac, key, counter, digits)
  }

  /** _hotp: packing raises for a counter that does not fit in eight bytes. */
  function HotpOf(codes: nat -> string, counter: int): Result<string, PyError> {
    if 0 <= counter < TWO_TO_64 then Ok(codes(counter)) else Err(StructError)
  }

  /** The codes of the key in a secret. */
  function SecretCodes(mac: Mac, secret: Ascii, digits: nat): Result<nat -> string, PyError> {
    var key := PyDecode(secret);
    if key.Err? then Err(SecretError(key.error)) else Ok(Codes(mac, key.value, digits))
  }

  /** generate_totp: the counter is computed before the key. */
  function Generate(mac: Mac, secret: Ascii, step: int, digits: nat, at: real): Result<string, PyError> {
    GenerateFrom(SecretCodes(mac, secret, digits), step, at)
  }

  function GenerateFrom(codes: Result<nat -> string, PyError>, step: int, at: real): Result<string, PyError> {
    if step == 0 then Err(ZeroDivisionError)
    else if codes.Err? then Err(codes.error)
    else HotpOf(codes.value, FloorDiv(PyInt(at), step))
  }

  /** The loop of verify_totp over the counters from first to last. Comparing raises for a code that is not ASCII. */
  function Scan(codes: nat -> string, code: string, first: int, last: int): Result<bool, PyError>
    decreases last - first
  {
    if first > last then Ok(false)
    else
      var expected := HotpOf(codes, first);
      if expected.Err? then Err(expected.error)
      else if !IsAscii(code) then Err(TypeError)
      else if expected.value == code then Ok(true)
      else Scan(codes, code, first + 1, last)
  }

  /** verify_totp: as many digits as the presented code has characters. */
  function Verify(mac: Mac, secret: Ascii, code: string, step: int, window: int, at: real): Result<bool, PyError> {
    VerifyFrom(SecretCodes(mac, secret, |code|), code, step, window, at)
  }

  function VerifyFrom(codes: Result<nat -> string, PyError>, code: string, step: int, window: int, at: real)
    : Result<bool, PyError>
  {
    if step == 0 then Err(ZeroDivisionError)
    else if codes.Err? then Err(codes.error)
    else
      var counter := FloorDiv(PyInt(at), step);
      Scan(codes.value, code, counter - window, counter + window)
  }

  /** _hotp on the digest of the packed counter. */
  method ComputeHotp(mac: Mac, key: seq<Byte>, counter: int, digits: nat) returns (r: Result<string, PyError>)
    ensures r == HotpOf(Codes(mac, key, digits), counter)
  {
    if counter < 0 || counter >= TWO_TO_64 {
      return Err(StructError);
    }
    var digest := mac(key, ToBytes(counter, 8));
    var offset := And(digest[19], 0x0F);
    HotpProperties.OffsetInRange(digest);
    var truncated := FromBytes(digest[offset..offset + 4]);
    truncated := And(truncated, 0x7FFF_FFFF);
    var otp := truncated % Pow10(digits);
    assert CodeAt(mac, key, counter, digits) == ZeroFill(Decimal(otp), digits);
    r := Ok(ZeroFill(Decimal(otp), digits));
  }

  method GenerateTOTP(mac: Mac, secret: Ascii, step: int, digits: nat, at: real) returns (r: Result<string, PyError>)
    ensures r == Generate(mac, secret, step, digits, at)
  {
    if step == 0 {
      return Err(ZeroDivisionError);
    }
    var counter := FloorDiv(PyInt(at), step);
    var key := PyBase32Decode(secret);
    if key.Err? {
      return Err(SecretError(key.error));
    }
    r := ComputeHotp(mac, key.value, counter, digits);
  }

  method VerifyTOTP(mac: Mac, secret: Ascii, code: string, step: int, window: int, at: real)
    returns (r: Result<bool, PyError>)
    ensures r == Verify(mac, secret, code, step, window, at)
  {
    hide CodeAt;
    if step == 0 {
      return Err(ZeroDivisionError);
    }
    var counter := FloorDiv(PyInt(at), step);
    var key := PyBase32Decode(secret);
    if key.Err? {
      return Err(SecretError(key.error));
    }
    r := VerifyAround(mac, key.value, code, counter, window, Codes(mac, key.value, |code|));
  }

  /** The loop of verify_totp. */
  method VerifyAround(mac: Mac, key: seq<Byte>, code: string, counter: int, window: int, ghost codes: nat -> string)
    returns (r: Result<bool, PyError>)
    requires codes == Codes(mac, key, |code|)
    ensures r == Scan(codes, code, counter - window, counter + window)
  {
    hide CodeAt;
    var delta := -window;
    while delta < window + 1
      invariant Scan(codes, code, counter - window, counter + window)
                == Scan(codes, code, counter + delta, counter + window)
    {
      var expected := ComputeHotp(mac, key, counter + delta, |code|);
      if expected.Err? {
        return Err(expected.error);
      }
      if !IsAscii(code) {
        return Err(TypeError);
      }
      if expected.value == code {
        return Ok(true);
      }
      delta := delta + 1;
    }
    r := Ok(false);
  }
}
