/** Which codes the verifiers accept, and where the two programs agree. */
module TotpProperties {
  import opened Arithmetic
  import opened Words
  import opened Wrappers
  import opened Base32
  import opened Base32Properties
  import opened Hotp
  import opened HotpProperties
  import P = TotpPython
  import G = TotpGo

  // ---------------------------------------------------------------- the Python verifier

  /** Some counter from first to last that fits in eight bytes has the code. */
  ghost predicate SomeCounterHas(codes: nat -> string, code: string, first: int, last: int) {
    exists c: nat :: first <= c <= last && c < TWO_TO_64 && codes(c) == code
  }

  lemma {:induction false} ScanAcceptsIff(codes: nat -> string, code: string, first: int, last: int)
    ensures P.Scan(codes, code, first, last) == Ok(true) <==>
            IsAscii(code) && 0 <= first && SomeCounterHas(codes, code, first, last)
    decreases last - first
  {
    if 0 <= first <= last && first < TWO_TO_64 && IsAscii(code) && codes(first) != code {
      ScanAcceptsIff(codes, code, first + 1, last);
    }
  }

  lemma VerifyFromAcceptsIff(codes: Result<nat -> string, P.PyError>, code: string, step: int, window: int, at: real)
    requires step != 0
    ensures P.VerifyFrom(codes, code, step, window, at) == Ok(true)
            <==>
            var now := P.FloorDiv(P.PyInt(at), step);
            && codes.Ok? && IsAscii(code) && now >= window
            && SomeCounterHas(codes.value, code, now - window, now + window)
  {
    if codes.Ok? {
      var now := P.FloorDiv(P.PyInt(at), step);
      ScanAcceptsIff(codes.value, code, now - window, now + window);
    }
  }

  lemma CodeLength(mac: Mac, key: seq<Byte>, c: nat, digits: nat)
    requires digits >= 1
    ensures |P.CodeAt(mac, key, c, digits)| == digits && IsAscii(P.CodeAt(mac, key, c, digits))
  {
    var digest := mac(key, ToBytes(c, 8));
    OffsetInRange(digest);
    CodeParses(PyTruncate(digest), digits);
    forall i | 0 <= i < digits
      ensures P.CodeAt(mac, key, c, digits)[i] as int < 128
    {
      assert IsDigit(Code(PyTruncate(digest), digits)[i]);
    }
  }

  /** All codes have as many characters as asked for. */
  ghost predicate HasLength(codes: nat -> string, digits: nat) {
    forall c: nat :: |codes(c)| == digits && IsAscii(codes(c))
  }

  lemma SecretCodesHaveLength(mac: Mac, secret: Ascii, digits: nat)
    requires digits >= 1
    ensures P.SecretCodes(mac, secret, digits).Ok? ==> HasLength(P.SecretCodes(mac, secret, digits).value, digits)
  {
    var key := PyDecode(secret);
    if key.Ok? {
      forall c: nat
        ensures |P.Codes(mac, key.value, digits)(c)| == digits && IsAscii(P.Codes(mac, key.value, digits)(c))
      {
        CodeLength(mac, key.value, c, digits);
      }
    }
  }

  lemma FloorBetween(t: real, u: real, n: int)
    requires t <= u + n as real
    ensures t.Floor <= u.Floor + n
  {
    assert (t.Floor as real) <= t && u < (u.Floor as real) + 1.0;
  }

  /** Times that differ by at most w steps have counters that differ by at most w. */
  lemma CountersNear(t: real, now: real, step: nat, window: nat)
    requires step >= 1
    requires t <= now + (window * step) as real && now <= t + (window * step) as real
    requires now >= (window * step) as real
    ensures t >= 0.0 && now.Floor / step >= window
    ensures now.Floor / step - window <= t.Floor / step <= now.Floor / step + window
  {
    var drift := window * step;
    FloorBetween(t, now, drift);
    FloorBetween(now, t, drift);
    QuotientBetween(t.Floor, now.Floor, step, window);
    QuotientBetween(now.Floor, t.Floor, step, window);
    FloorBetween(drift as real, now, 0);
    QuotientBetween(drift, now.Floor, step, 0);
    Remainder(drift, step, window, 0);
  }

  lemma CountersFar(t: int, now: int, step: nat, window: nat, far: nat)
    requires step >= 1 && far == (window + 1) * step
    requires t >= now + far || now >= t + far
    ensures !(now / step - window <= t / step <= now / step + window)
  {
    if t >= now + far {
      QuotientBeyond(t, now, step, window);
    } else {
      QuotientBeyond(now, t, step, window);
    }
  }

  lemma AcceptedInWindow(codes: Result<nat -> string, P.PyError>, code: string, step: nat, window: nat,
                         t: real, now: real)
    requires step >= 1 && IsAscii(code)
    requires P.GenerateFrom(codes, step, t) == Ok(code)
    requires t <= now + (window * step) as real && now <= t + (window * step) as real
    requires now >= (window * step) as real
    ensures P.VerifyFrom(codes, code, step, window, now) == Ok(true)
  {
    CountersNear(t, now, step, window);
    VerifyFromAcceptsIff(codes, code, step, window, now);
    assert now >= 0.0 by {
      assert window * step >= 0;
    }
    assert codes.value(t.Floor / step) == code;
  }

  /** Clock drift: a code of at least one digit is accepted up to w steps early or late. */
  lemma CodesAreAcceptedInWindow(mac: Mac, secret: Ascii, code: string, step: nat, window: nat, digits: nat,
                                 t: real, now: real)
    requires step >= 1 && digits >= 1
    requires P.Generate(mac, secret, step, digits, t) == Ok(code)
    requires t <= now + (window * step) as real && now <= t + (window * step) as real
    requires now >= (window * step) as real
    ensures P.Verify(mac, secret, code, step, window, now) == Ok(true)
  {
    SecretCodesHaveLength(mac, secret, digits);
    AcceptedInWindow(P.SecretCodes(mac, secret, digits), code, step, window, t, now);
  }

  /** Two counters that the MAC sees as different messages and that have the same code all the same. */
  ghost predicate Collision(codes: nat -> string, c: nat, c': nat) {
    c < TWO_TO_64 && c' < TWO_TO_64 && ToBytes(c, 8) != ToBytes(c', 8) && codes(c) == codes(c')
  }

  /** Two times that lie apart in whole seconds, as int() cuts them. */
  predicate FarApart(t: real, now: real, seconds: nat) {
    P.PyInt(t) >= P.PyInt(now) + seconds || P.PyInt(now) >= P.PyInt(t) + seconds
  }

  /** From the epoch on, times that lie apart do so in whole seconds. */
  lemma ApartFromEpochOn(t: real, now: real, seconds: nat)
    requires t >= 0.0 && now >= 0.0
    requires t >= now + seconds as real || now >= t + seconds as real
    ensures FarApart(t, now, seconds)
  {
    var back: int := 0 - seconds;
    if t >= now + seconds as real {
      FloorBetween(now, t, back);
    } else {
      FloorBetween(t, now, back);
    }
  }

  lemma OutsideNeedsCollision(codes: nat -> string, code: string, c0: nat, c1: int, window: nat)
    requires c0 < TWO_TO_64 && codes(c0) == code && !(c1 - window <= c0 <= c1 + window)
    requires SomeCounterHas(codes, code, c1 - window, c1 + window)
    ensures exists c: nat :: Collision(codes, c, c0)
  {
    var c: nat :| c1 - window <= c <= c1 + window && c < TWO_TO_64 && codes(c) == code;
    CountersAreDifferentMessages(c, c0);
    assert Collision(codes, c, c0);
  }

  lemma FarNeedsCollision(codes: Result<nat -> string, P.PyError>, code: string, step: nat, window: nat, far: nat,
                          t: real, now: real)
    requires step >= 1 && far == (window + 1) * step
    requires P.GenerateFrom(codes, step, t) == Ok(code)
    requires FarApart(t, now, far)
    requires P.VerifyFrom(codes, code, step, window, now) == Ok(true)
    ensures P.PyInt(t) >= 0 && exists c: nat :: Collision(codes.value, c, P.PyInt(t) / step)
  {
    hide P.PyInt;
    VerifyFromAcceptsIff(codes, code, step, window, now);
    var c0, c1 := P.FloorDiv(P.PyInt(t), step), P.FloorDiv(P.PyInt(now), step);
    CountersFar(P.PyInt(t), P.PyInt(now), step, window, far);
    OutsideNeedsCollision(codes.value, code, c0, c1, window);
  }

  /** A code presented w + 1 steps or more too early or too late is accepted only by a collision. */
  lemma FarCodesNeedACollision(mac: Mac, secret: Ascii, code: string, step: nat, window: nat, digits: nat, far: nat,
                               t: real, now: real)
    requires step >= 1 && digits >= 1 && far == (window + 1) * step
    requires P.Generate(mac, secret, step, digits, t) == Ok(code)
    requires FarApart(t, now, far)
    requires P.Verify(mac, secret, code, step, window, now) == Ok(true)
    ensures P.PyInt(t) >= 0
    ensures exists c: nat :: Collision(P.SecretCodes(mac, secret, digits).value, c, P.PyInt(t) / step)
  {
    SecretCodesHaveLength(mac, secret, digits);
    FarNeedsCollision(P.SecretCodes(mac, secret, digits), code, step, window, far, t, now);
  }

  /** The shorter code of a counter is the end of the longer one, through generation. */
  lemma ShortTotpIsSuffix(mac: Mac, secret: Ascii, step: int, d: nat, more: nat, at: real)
    requires 1 <= d <= more
    ensures var short, long := P.Generate(mac, secret, step, d, at), P.Generate(mac, secret, step, more, at);
            && short.Ok? == long.Ok?
            && (short.Err? ==> short == long)
            && (short.Ok? ==> |long.value| == more && short.value == long.value[more - d..])
  {
    if step != 0 && PyDecode(secret).Ok? {
      var c := P.FloorDiv(P.PyInt(at), step);
      if 0 <= c < TWO_TO_64 {
        var digest := mac(PyDecode(secret).value, ToBytes(c, 8));
        OffsetInRange(digest);
        ShortCodeIsSuffix(PyTruncate(digest), d, more);
      }
    }
  }

  // ---------------------------------------------------------------- Go refines Python

  /** Arithmetic on uint32 gives the code of unbounded arithmetic as long as the modulus fits in the word. */
  lemma GoHotpIsPythonHotp(mac: Mac, key: seq<Byte>, counter: nat, digits: nat)
    requires digits <= 9
    ensures G.CodeAt(mac, key, counter, digits) == P.CodeAt(mac, key, counter, digits)
  {
    TruncationsAgree(mac(key, ToBytes(counter, 8)));
  }

  ghost predicate SameCodes(py: Result<nat -> string, P.PyError>, go: Option<nat -> string>) {
    if go.None? then py.Err? && py.error.SecretError?
    else py.Ok? && forall c: nat :: py.value(c) == go.value(c)
  }

  /** A secret that both languages refuse, or read as the same key. */
  predicate ReadAlike(secret: Ascii) {
    if GoDecode(secret).None? then PyDecode(secret).Err? else PyDecode(secret) == Ok(GoDecode(secret).value)
  }

  /** Secrets that are not blank, with no separator around them and no line break inside, are. */
  lemma CleanSecretsAreReadAlike(secret: Ascii)
    requires Trim(true, secret) != [] && !HasSeparator(secret) && !HasNewline(Trim(false, secret))
    ensures ReadAlike(secret)
  {
    CleanSecretsAgree(secret);
  }

  lemma CodesOfKeyAgree(mac: Mac, key: seq<Byte>)
    ensures SameCodes(Ok(P.Codes(mac, key, 6)), Some(G.Codes(mac, key)))
  {
    forall c: nat
      ensures P.Codes(mac, key, 6)(c) == G.Codes(mac, key)(c)
    {
      GoHotpIsPythonHotp(mac, key, c, 6);
    }
  }

  lemma SecretCodesAgree(mac: Mac, secret: Ascii)
    requires ReadAlike(secret)
    ensures SameCodes(P.SecretCodes(mac, secret, 6), G.SecretCodes(mac, secret))
  {
    if GoDecode(secret).Some? {
      CodesOfKeyAgree(mac, GoDecode(secret).value);
    }
  }

  /** The counter of a whole number of seconds; before the epoch it is negative. */
  lemma WholeSeconds(unix: int)
    ensures unix >= 0 ==> P.FloorDiv(P.PyInt(unix as real), 30) == unix / 30
    ensures unix < 0 ==> P.FloorDiv(P.PyInt(unix as real), 30) < 0
  {
    if unix < 0 {
      assert -(unix as real) == (-unix) as real;
    }
  }

  lemma GenerationAgreesFrom(py: Result<nat -> string, P.PyError>, go: Option<nat -> string>, unix: Int64)
    requires SameCodes(py, go)
    ensures if go.None? then P.GenerateFrom(py, 30, unix as real).Err? && G.GenerateFrom(go, unix).None?
            else P.GenerateFrom(py, 30, unix as real) == Ok(G.GenerateFrom(go, unix).value) <==> unix >= 0
  {
    WholeSeconds(unix);
  }

  /** With a secret that both refuse, both fail at every time. With a key, they generate the same code exactly from
      the epoch on: before it Python's counter is negative and packing raises, while Go's wraps around. */
  lemma GenerationAgreesIff(mac: Mac, secret: Ascii, unix: Int64)
    requires ReadAlike(secret)
    ensures var py, go := P.Generate(mac, secret, 30, 6, unix as real), G.Generate(mac, secret, unix);
            if GoDecode(secret).None? then py.Err? && go.None? else py == Ok(go.value) <==> unix >= 0
  {
    SecretCodesAgree(mac, secret);
    GenerationAgreesFrom(P.SecretCodes(mac, secret, 6), G.SecretCodes(mac, secret), unix);
  }

  lemma ScanOfThree(codes: nat -> string, code: string, c: nat)
    requires IsAscii(code) && 1 <= c < TWO_TO_64 - 1
    ensures P.Scan(codes, code, c - 1, c + 1) == Ok(codes(c - 1) == code || codes(c) == code || codes(c + 1) == code)
  {
    assert P.Scan(codes, code, c + 2, c + 1) == Ok(false);
    assert P.Scan(codes, code, c + 1, c + 1) == Ok(codes(c + 1) == code);
    assert P.Scan(codes, code, c, c + 1) == Ok(codes(c) == code || codes(c + 1) == code);
  }

  lemma VerificationAgreesFrom(py: nat -> string, go: nat -> string, code: string, unix: Int64)
    requires SameCodes(Ok(py), Some(go)) && IsAscii(code)
    ensures P.VerifyFrom(Ok(py), code, 30, 1, unix as real) == Ok(G.Accepts(go, code, unix)) <==> unix >= 30
  {
    WholeSeconds(unix);
    if unix >= 30 {
      var c: nat := unix / 30;
      assert G.Tried(unix, -1) == c - 1 && G.Tried(unix, 0) == c && G.Tried(unix, 1) == c + 1;
      ScanOfThree(py, code, c);
    } else {
      var now := P.FloorDiv(P.PyInt(unix as real), 30);
      assert P.Scan(py, code, now - 1, now + 1) == Err(P.StructError);
    }
  }

  /** For six ASCII characters the verifications agree exactly from the first full step on: before it, Python's
      window reaches below counter zero and packing raises, while Go's counter wraps around. */
  lemma VerificationAgreesIff(mac: Mac, secret: Ascii, code: string, unix: Int64)
    requires ReadAlike(secret) && |code| == 6 && IsAscii(code)
    ensures var py, go := P.Verify(mac, secret, code, 30, 1, unix as real), G.Verify(mac, secret, code, unix);
            if GoDecode(secret).None? then py.Err? && go.None? else py == Ok(go.value) <==> unix >= 30
  {
    SecretCodesAgree(mac, secret);
    if GoDecode(secret).Some? {
      VerificationAgreesFrom(P.SecretCodes(mac, secret, 6).value, G.SecretCodes(mac, secret).value, code, unix);
    }
  }

  // ---------------------------------------------------------------- the Go verifier

  lemma TriedNear(t: Int64, now: Int64)
    requires t >= 0 && now >= 0 && now - 30 <= t <= now + 30
    ensures -1 <= t / 30 - now / 30 <= 1
    ensures G.Tried(now, t / 30 - now / 30) == U64(t) / 30
  {
  }

  lemma GoAcceptsFrom(codes: Option<nat -> string>, code: string, t: Int64, now: Int64)
    requires t >= 0 && now >= 0 && now - 30 <= t <= now + 30
    requires G.GenerateFrom(codes, t) == Some(code)
    ensures G.VerifyFrom(codes, code, now) == Some(true)
  {
    TriedNear(t, now);
    var delta := t / 30 - now / 30;
    assert delta == -1 || delta == 0 || delta == 1;
    assert codes.value(G.Tried(now, delta)) == code;
  }

  /** Go accepts the codes of up to one step early or late, from the epoch on. */
  lemma GoAcceptsInWindow(mac: Mac, secret: Ascii, code: string, t: Int64, now: Int64)
    requires t >= 0 && now >= 0 && now - 30 <= t <= now + 30
    requires G.Generate(mac, secret, t) == Some(code)
    ensures G.Verify(mac, secret, code, now) == Some(true)
  {
    GoAcceptsFrom(G.SecretCodes(mac, secret), code, t, now);
  }

  /** The counter that GenerateTOTP uses at a time is one of the counters that VerifyTOTP tries at the same time
      exactly from the epoch on: before it, the unsigned and the signed quotient part. */
  lemma GoTriesItsOwnCounterIff(unix: Int64)
    ensures (exists delta :: -1 <= delta <= 1 && G.Tried(unix, delta) == U64(unix) / 30) <==> unix >= 0
  {
    if unix >= 0 {
      assert G.Tried(unix, 0) == U64(unix) / 30;
    } else {
      var q: int := -(unix as int) / 30;
      assert U64(unix) == unix + TWO_TO_64;
      forall delta | -1 <= delta <= 1
        ensures G.Tried(unix, delta) != U64(unix) / 30
      {
        if -q + delta < 0 {
          assert G.Tried(unix, delta) == -q + delta + TWO_TO_64;
        } else {
          assert G.Tried(unix, delta) <= 1;
        }
      }
    }
  }
}
