/** Which code belongs to which time: the counters of both programs, told by the time and the step alone. */
module TotpTimes {
  import opened Arithmetic
  import opened Words
  import opened Wrappers
  import opened Base32
  import opened Hotp
  import opened HotpProperties
  import T = TotpProperties
  import P = TotpPython
  import G = TotpGo

  /** The code that section 5.3 of RFC 4226 gives for a counter. */
  function CodeOf(mac: Mac, key: seq<Byte>, counter: nat, digits: nat): string {
    Code(Truncated(mac(key, ToBytes(counter, 8))), digits)
  }

  lemma PyCodeAt(mac: Mac, key: seq<Byte>, counter: nat, digits: nat)
    ensures P.CodeAt(mac, key, counter, digits) == CodeOf(mac, key, counter, digits)
  {
    TruncationsAgree(mac(key, ToBytes(counter, 8)));
  }

  lemma GoCodeAt(mac: Mac, key: seq<Byte>, counter: nat, digits: nat)
    requires digits <= 9
    ensures G.CodeAt(mac, key, counter, digits) == CodeOf(mac, key, counter, digits)
  {
    T.GoHotpIsPythonHotp(mac, key, counter, digits);
    PyCodeAt(mac, key, counter, digits);
  }

  // ---------------------------------------------------------------- Python

  /** A time cut to whole seconds, toward zero. */
  predicate IsCut(at: real, seconds: int) {
    if at >= 0.0 then seconds as real <= at < (seconds + 1) as real
    else (seconds - 1) as real < at <= seconds as real
  }

  /** A quotient rounded down. */
  predicate IsFloor(a: int, b: int, q: int) {
    if b > 0 then q * b <= a < q * b + b else q * b + b < a <= q * b
  }

  lemma CutIsInt(at: real, seconds: int)
    requires IsCut(at, seconds)
    ensures P.PyInt(at) == seconds
  {
    if at < 0.0 {
      assert -(seconds as real) == (-seconds) as real;
      assert -((seconds - 1) as real) == (-seconds + 1) as real;
    }
  }

  lemma FloorIsQuotient(a: int, b: int, q: int)
    requires b != 0 && IsFloor(a, b, q)
    ensures P.FloorDiv(a, b) == q
  {
    if b > 0 {
      IntQuotient(a, b, q, a - q * b);
    } else {
      assert q * -b == -(q * b);
      IntQuotient(-a, -b, q, q * b - a);
    }
  }

  /** generate_totp at any time, for any step but zero: the code of the counter, if there is a key and the counter
      fits in eight bytes. */
  lemma GenerationByTime(mac: Mac, secret: Ascii, step: int, digits: nat, at: real, seconds: int, counter: int)
    requires step != 0 && IsCut(at, seconds) && IsFloor(seconds, step, counter)
    ensures P.Generate(mac, secret, step, digits, at)
            == match PyDecode(secret)
               case Err(e) => Err(P.SecretError(e))
               case Ok(key) =>
                 if 0 <= counter < 0x1_0000_0000_0000_0000 then Ok(CodeOf(mac, key, counter, digits))
                 else Err(P.StructError)
  {
    hide P.CodeAt, CodeOf, PyDecode;
    CutIsInt(at, seconds);
    FloorIsQuotient(seconds, step, counter);
    if PyDecode(secret).Ok? && 0 <= counter {
      PyCodeAt(mac, PyDecode(secret).value, counter, digits);
    }
  }

  lemma SecondsOfStep(at: real, step: nat, c: nat, low: nat, high: nat)
    requires at >= 0.0 && step >= 1 && low == c * step && high == (c + 1) * step && low as real <= at < high as real
    ensures IsCut(at, at.Floor) && IsFloor(at.Floor, step, c)
  {
    assert high == low + step;
    assert low as real < (at.Floor + 1) as real;
  }

  /** Step c runs from second c * step up to the next one, fractions included. */
  lemma CodeOfTheStep(mac: Mac, secret: Ascii, step: nat, digits: nat, at: real, c: nat, key: seq<Byte>)
    requires at >= 0.0 && step >= 1 && c < 0x1_0000_0000_0000_0000 && PyDecode(secret) == Ok(key)
    requires (c * step) as real <= at < ((c + 1) * step) as real
    ensures P.Generate(mac, secret, step, digits, at) == Ok(CodeOf(mac, key, c, digits))
  {
    hide CodeOf, PyDecode, P.Generate;
    SecondsOfStep(at, step, c, c * step, (c + 1) * step);
    GenerationByTime(mac, secret, step, digits, at, at.Floor, c);
  }

  /** Before the epoch: the last second counts as time zero, and all earlier ones have no code. */
  lemma BeforeTheEpoch(mac: Mac, secret: Ascii, step: nat, digits: nat, at: real, key: seq<Byte>)
    requires at < 0.0 && step >= 1 && PyDecode(secret) == Ok(key)
    ensures P.Generate(mac, secret, step, digits, at)
            == if at > -1.0 then Ok(CodeOf(mac, key, 0, digits)) else Err(P.StructError)
  {
    hide CodeOf, PyDecode, P.Generate;
    var seconds: int := -((-at).Floor);
    assert -((-at).Floor as real) == seconds as real;
    assert IsCut(at, seconds);
    var counter := FloorExists(seconds, step);
    GenerationByTime(mac, secret, step, digits, at, seconds, counter);
  }

  lemma FloorExists(a: int, b: nat) returns (q: int)
    requires a <= 0 && b >= 1
    ensures IsFloor(a, b, q) && (a == 0 ==> q == 0) && (a < 0 ==> q < 0)
  {
    q := a / b;
    assert a == q * b + a % b;
  }

  /** Some counter of the window that fits in eight bytes has the code. */
  ghost predicate InWindow(mac: Mac, key: seq<Byte>, code: string, first: int, last: int) {
    exists c: nat :: first <= c <= last && c < 0x1_0000_0000_0000_0000 && CodeOf(mac, key, c, |code|) == code
  }

  lemma {:induction false} ScanResult(codes: nat -> string, code: string, first: int, last: int)
    ensures P.Scan(codes, code, first, last)
            == if first > last then Ok(false)
               else if !(0 <= first < 0x1_0000_0000_0000_0000) then Err(P.StructError)
               else if !IsAscii(code) then Err(P.TypeError)
               else if T.SomeCounterHas(codes, code, first, last) then Ok(true)
               else if last >= 0x1_0000_0000_0000_0000 then Err(P.StructError)
               else Ok(false)
    decreases last - first
  {
    if 0 <= first <= last && first < TWO_TO_64 && IsAscii(code) && codes(first) != code {
      ScanResult(codes, code, first + 1, last);
    }
  }

  /** verify_totp at any time, for any step but zero and any window, with every exception. */
  lemma VerificationByTime(mac: Mac, secret: Ascii, code: string, step: int, window: int, at: real,
                           seconds: int, counter: int)
    requires step != 0 && IsCut(at, seconds) && IsFloor(seconds, step, counter)
    ensures P.Verify(mac, secret, code, step, window, at)
            == match PyDecode(secret)
               case Err(e) => Err(P.SecretError(e))
               case Ok(key) =>
                 if window < 0 then Ok(false)
                 else if !(0 <= counter - window < 0x1_0000_0000_0000_0000) then Err(P.StructError)
                 else if !IsAscii(code) then Err(P.TypeError)
                 else if InWindow(mac, key, code, counter - window, counter + window) then Ok(true)
                 else if counter + window >= 0x1_0000_0000_0000_0000 then Err(P.StructError)
                 else Ok(false)
  {
    hide P.CodeAt, CodeOf, PyDecode;
    CutIsInt(at, seconds);
    FloorIsQuotient(seconds, step, counter);
    if PyDecode(secret).Ok? {
      var key := PyDecode(secret).value;
      ScanResult(P.Codes(mac, key, |code|), code, counter - window, counter + window);
      forall c: nat
        ensures P.Codes(mac, key, |code|)(c) == CodeOf(mac, key, c, |code|)
      {
        PyCodeAt(mac, key, c, |code|);
      }
    }
  }

  /** A step of zero raises before anything else, whatever the secret. */
  lemma NoStepRaises(mac: Mac, secret: Ascii, code: string, digits: nat, window: int, at: real)
    ensures P.Generate(mac, secret, 0, digits, at) == Err(P.ZeroDivisionError)
    ensures P.Verify(mac, secret, code, 0, window, at) == Err(P.ZeroDivisionError)
  {
  }

  /** verify_totp accepts exactly when the secret is a key, the code is ASCII, the whole window is at or after the
      epoch, and some counter of the window has the presented code, as long as it is. */
  lemma VerifyAcceptsIff(mac: Mac, secret: Ascii, code: string, step: int, window: int, at: real,
                         seconds: int, counter: int)
    requires step != 0 && IsCut(at, seconds) && IsFloor(seconds, step, counter)
    ensures P.Verify(mac, secret, code, step, window, at) == Ok(true)
            <==>
            && PyDecode(secret).Ok? && IsAscii(code) && counter >= window
            && InWindow(mac, PyDecode(secret).value, code, counter - window, counter + window)
  {
    hide P.Verify, PyDecode, CodeOf;
    VerificationByTime(mac, secret, code, step, window, at, seconds, counter);
  }

  // ---------------------------------------------------------------- Go

  /** A negative number on 64 bits, read without sign. */
  function Unsigned(x: int): int {
    if x >= 0 then x else x + 0x1_0000_0000_0000_0000
  }

  /** GenerateTOTP at any Unix time: the counter is the quotient of the time read without sign. */
  lemma GoGenerationByTime(mac: Mac, secret: Ascii, unix: Int64, counter: nat)
    requires 30 * counter <= Unsigned(unix) < 30 * counter + 30
    ensures G.Generate(mac, secret, unix)
            == match GoDecode(secret)
               case None => None
               case Some(key) => Some(CodeOf(mac, key, counter, 6))
  {
    hide G.CodeAt, CodeOf, GoDecode;
    assert U64(unix) / 30 == counter;
    if GoDecode(secret).Some? {
      GoCodeAt(mac, GoDecode(secret).value, counter, 6);
    }
  }

  /** VerifyTOTP at any Unix time: the counters around the quotient of the time rounded toward zero, each read
      without sign. */
  lemma GoVerificationByTime(mac: Mac, secret: Ascii, code: string, unix: Int64, quotient: int)
    requires if unix >= 0 then 30 * quotient <= unix < 30 * quotient + 30
             else 30 * quotient - 30 < unix <= 30 * quotient
    ensures G.Verify(mac, secret, code, unix)
            == match GoDecode(secret)
               case None => None
               case Some(key) =>
                 Some(|| CodeOf(mac, key, Unsigned(quotient - 1), 6) == code
                      || CodeOf(mac, key, Unsigned(quotient), 6) == code
                      || CodeOf(mac, key, Unsigned(quotient + 1), 6) == code)
  {
    hide G.CodeAt, CodeOf, GoDecode;
    assert TruncDiv(unix, 30) == quotient;
    assert G.Tried(unix, -1) == Unsigned(quotient - 1);
    assert G.Tried(unix, 0) == Unsigned(quotient);
    assert G.Tried(unix, 1) == Unsigned(quotient + 1);
    if GoDecode(secret).Some? {
      GoCodeAt(mac, GoDecode(secret).value, Unsigned(quotient - 1), 6);
      GoCodeAt(mac, GoDecode(secret).value, Unsigned(quotient), 6);
      GoCodeAt(mac, GoDecode(secret).value, Unsigned(quotient + 1), 6);
    }
  }
}
