/** The secret that the MFA set-up hands out. */
module MfaHandler {
  import opened Wrappers
  import opened Base32
  import opened Base32Properties

  /** generateMFASecret: random is what the system's generator delivers, or nothing if it fails. Both verifiers read
      the same 20 bytes back from the secret. */
  method GenerateMFASecret(random: Option<seq<Byte>>) returns (r: Option<string>)
    requires random.Some? ==> |random.value| == 20
    ensures r.Some? == random.Some?
    ensures r.Some? ==> r.value == EncodeUnpadded(random.value) && IsAscii(r.value)
    ensures r.Some? ==> GoDecode(r.value) == Some(random.value) && PyDecode(r.value) == Ok(random.value)
  {
    var b := new Byte[20](_ => 0);
    if random.None? {
      return None;
    }
    forall i | 0 <= i < 20 {
      b[i] := random.value[i];
    }
    assert b[..] == random.value;
    GeneratedSecretDecodes(random.value);
    r := Some(EncodeUnpadded(b[..]));
  }
}
