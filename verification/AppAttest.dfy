/**
 Authenticator data of an attestation, sections 6.1 and 6.5.1 of Web Authentication Level 2: fields of fixed length,
 a credential ID of given length, then anything. Numbers are big-endian.
 */
module AppAttest {
  import opened Wrappers
  import opened Utf8

  const RP_ID_HASH_LENGTH := 32
  const FLAGS_LENGTH := 1
  const SIGN_COUNT_LENGTH := 4
  const AAGUID_LENGTH := 16
  const CREDENTIAL_LENGTH_LENGTH := 2

  /** All fixed fields with an empty credential ID. */
  const MIN_LENGTH := RP_ID_HASH_LENGTH + FLAGS_LENGTH + SIGN_COUNT_LENGTH + AAGUID_LENGTH + CREDENTIAL_LENGTH_LENGTH

  datatype AuthData = AuthData(rpIdHash: bytes, signCount: nat, aaguid: bytes, credentialId: bytes) {
    /** The values the format can carry. */
    predicate Fits() {
      && |rpIdHash| == RP_ID_HASH_LENGTH
      && signCount < 0x1_0000_0000
      && |aaguid| == AAGUID_LENGTH
      && |credentialId| < 0x1_0000
    }
  }

  /** Bit 6, attested credential data included. */
  predicate HasCredential(flags: byte) {
    flags / 64 % 2 == 1
  }

  function Uint16(s: bytes): nat
    requires |s| == 2
  {
    s[0] as nat * 0x100 + s[1] as nat
  }

  function Uint32(s: bytes): nat
    requires |s| == 4
  {
    s[0] as nat * 0x100_0000 + s[1] as nat * 0x1_0000 + s[2] as nat * 0x100 + s[3] as nat
  }

  /** The bit is set in the flags from 0x40 to 0x7F and from 0xC0 on. */
  lemma CredentialFlag(flags: byte)
    ensures HasCredential(flags) <==> 0x40 <= flags < 0x80 || 0xC0 <= flags
  {
  }

  /** The number in base 256 with the most significant byte first. */
  function BigEndian(s: bytes): nat
    decreases |s|
  {
    if s == [] then 0 else 256 * BigEndian(s[..|s| - 1]) + s[|s| - 1] as nat
  }

  lemma NumbersAreBigEndian(s: bytes)
    ensures |s| == 2 ==> Uint16(s) == BigEndian(s)
    ensures |s| == 4 ==> Uint32(s) == BigEndian(s)
  {
    if |s| == 2 {
      assert BigEndian(s) == 256 * BigEndian(s[..1]) + s[1] as nat && s[..1][..0] == [];
    } else if |s| == 4 {
      assert s[..3][..2] == s[..2] && s[..2][..1] == s[..1] && s[..1][..0] == [];
      assert BigEndian(s[..1]) == s[0] as nat;
      assert BigEndian(s[..2]) == 256 * BigEndian(s[..1]) + s[1] as nat;
      assert BigEndian(s[..3]) == 256 * BigEndian(s[..2]) + s[2] as nat;
    }
  }

  function PutUint16(n: nat): (s: bytes)
    requires n < 0x1_0000
    ensures |s| == 2
  {
    [n / 0x100, n % 0x100]
  }

  function PutUint32(n: nat): (s: bytes)
    requires n < 0x1_0000_0000
    ensures |s| == 4
  {
    [n / 0x100_0000, n / 0x1_0000 % 0x100, n / 0x100 % 0x100, n % 0x100]
  }

  lemma Uint16RoundTrips(n: nat)
    requires n < 0x1_0000
    ensures Uint16(PutUint16(n)) == n
  {
  }

  lemma Uint32RoundTrips(n: nat)
    requires n < 0x1_0000_0000
    ensures Uint32(PutUint32(n)) == n
  {
    assert n == n / 0x100 * 0x100 + n % 0x100;
    assert n / 0x100 == n / 0x1_0000 * 0x100 + n / 0x100 % 0x100;
    assert n / 0x1_0000 == n / 0x100_0000 * 0x100 + n / 0x1_0000 % 0x100;
  }

  lemma PutUint16RoundTrips(s: bytes)
    requires |s| == 2
    ensures Uint16(s) < 0x1_0000 && PutUint16(Uint16(s)) == s
  {
  }

  lemma PutUint32RoundTrips(s: bytes)
    requires |s| == 4
    ensures Uint32(s) < 0x1_0000_0000 && PutUint32(Uint32(s)) == s
  {
    var n := Uint32(s);
    assert n / 0x100 == s[0] as nat * 0x1_0000 + s[1] as nat * 0x100 + s[2] as nat;
    assert n / 0x1_0000 == s[0] as nat * 0x100 + s[1] as nat;
    assert n / 0x100_0000 == s[0] as nat;
  }

  /** The data with given flags and with whatever follows the credential ID. */
  function Encode(a: AuthData, flags: byte, trailing: bytes): bytes
    requires a.Fits()
  {
    a.rpIdHash + [flags] + PutUint32(a.signCount) + a.aaguid + PutUint16(|a.credentialId|) + a.credentialId + trailing
  }

  /** Where the credential ID ends, for data long enough to say. */
  function CredentialEnd(data: bytes): nat
    requires |data| >= MIN_LENGTH
  {
    MIN_LENGTH + Uint16(data[53..55])
  }

  predicate Accepted(data: bytes) {
    |data| >= MIN_LENGTH && HasCredential(data[32]) && |data| >= CredentialEnd(data)
  }

  function Parsed(data: bytes): (a: AuthData)
    requires Accepted(data)
  {
    AuthData(data[0..32], Uint32(data[33..37]), data[37..53], data[55..CredentialEnd(data)])
  }

  /** Reads within bounds whatever the data, and answers exactly on the accepted ones. */
  method ParseAuthData(data: bytes) returns (r: Option<AuthData>)
    ensures r == if Accepted(data) then Some(Parsed(data)) else None
  {
    if |data| < MIN_LENGTH { return None; }
    var rpIdHash := data[0..RP_ID_HASH_LENGTH];
    var flags := data[RP_ID_HASH_LENGTH];
    if !HasCredential(flags) { return None; }
    var signCountOffset := RP_ID_HASH_LENGTH + FLAGS_LENGTH;
    var signCount := Uint32(data[signCountOffset..signCountOffset + SIGN_COUNT_LENGTH]);
    var aaguidOffset := signCountOffset + SIGN_COUNT_LENGTH;
    var aaguid := new byte[AAGUID_LENGTH];
    var i := 0;
    while i < AAGUID_LENGTH
      invariant 0 <= i <= AAGUID_LENGTH
      invariant aaguid[..i] == data[aaguidOffset..aaguidOffset + i]
    {
      aaguid[i] := data[aaguidOffset + i];
      i := i + 1;
    }
    assert aaguid[..] == aaguid[..i];
    var lengthOffset := aaguidOffset + AAGUID_LENGTH;
    var length := Uint16(data[lengthOffset..lengthOffset + CREDENTIAL_LENGTH_LENGTH]);
    var credentialOffset := lengthOffset + CREDENTIAL_LENGTH_LENGTH;
    if |data| < credentialOffset + length { return None; }
    r := Some(AuthData(rpIdHash, signCount, aaguid[..], data[credentialOffset..credentialOffset + length]));
  }

  lemma EncodedFields(a: AuthData, flags: byte, trailing: bytes)
    requires a.Fits()
    ensures var data := Encode(a, flags, trailing);
            && |data| == MIN_LENGTH + |a.credentialId| + |trailing|
            && data[0..32] == a.rpIdHash && data[32] == flags && data[33..37] == PutUint32(a.signCount)
            && data[37..53] == a.aaguid && data[53..55] == PutUint16(|a.credentialId|)
            && data[55..55 + |a.credentialId|] == a.credentialId && data[55 + |a.credentialId|..] == trailing
  {
  }

  /** What was encoded is parsed, whatever follows it and whatever other flags are set. */
  lemma EncodedIsParsed(a: AuthData, flags: byte, trailing: bytes)
    requires a.Fits() && HasCredential(flags)
    ensures Accepted(Encode(a, flags, trailing)) && Parsed(Encode(a, flags, trailing)) == a
  {
    EncodedFields(a, flags, trailing);
    Uint32RoundTrips(a.signCount);
    Uint16RoundTrips(|a.credentialId|);
  }

  /** What is parsed is all there was up to the trailing bytes. */
  lemma ParsedIsEncoded(data: bytes)
    requires Accepted(data)
    ensures Parsed(data).Fits() && Encode(Parsed(data), data[32], data[CredentialEnd(data)..]) == data
  {
    PutUint32RoundTrips(data[33..37]);
    PutUint16RoundTrips(data[53..55]);
  }

  /** The accepted data are exactly the encodings with the flag set. */
  lemma AcceptedExactly(data: bytes)
    ensures Accepted(data) <==>
            exists a: AuthData, flags: byte, trailing: bytes ::
              a.Fits() && HasCredential(flags) && data == Encode(a, flags, trailing)
  {
    if Accepted(data) { ParsedIsEncoded(data); }
    if a: AuthData, flags: byte, trailing: bytes :|
      a.Fits() && HasCredential(flags) && data == Encode(a, flags, trailing) {
      EncodedIsParsed(a, flags, trailing);
    }
  }

  // The checks made on it

  const AAGUID_PREFIX: bytes := [0x61, 0x70, 0x70, 0x61, 0x74, 0x74, 0x65, 0x73, 0x74]

  /** "appattest" and seven zero bytes, and "appattestdevelop". */
  const AAGUID_PRODUCTION: bytes := AAGUID_PREFIX + [0, 0, 0, 0, 0, 0, 0]
  const AAGUID_DEVELOPMENT: bytes := AAGUID_PREFIX + [0x64, 0x65, 0x76, 0x65, 0x6C, 0x6F, 0x70]

  /** The two identifiers as texts, the first filled up with zero bytes. */
  lemma EnvironmentTexts(i: nat)
    requires i < 16
    ensures |AAGUID_PRODUCTION| == |AAGUID_DEVELOPMENT| == 16
    ensures AAGUID_PRODUCTION[i] as int == if i < 9 then "appattest"[i] as int else 0
    ensures AAGUID_DEVELOPMENT[i] as int == "appattestdevelop"[i] as int
  {
  }

  datatype Verdict = Genuine | InvalidPayload | AppMismatch | UnrecognizedEnvironment | SignCountNonZero | KeyMismatch

  /** The checks after the certificate chain, in order; the hashes of the app identifier and of the key are given. */
  method VerifyAuthData(data: bytes, appHash: bytes, keyHash: bytes) returns (verdict: Verdict)
    ensures verdict == VerdictOf(data, appHash, keyHash)
  {
    var parsed := ParseAuthData(data);
    if parsed.None? { return InvalidPayload; }
    if parsed.value.rpIdHash != appHash { return AppMismatch; }
    if parsed.value.aaguid != AAGUID_PRODUCTION && parsed.value.aaguid != AAGUID_DEVELOPMENT {
      return UnrecognizedEnvironment;
    }
    if parsed.value.signCount != 0 { return SignCountNonZero; }
    if parsed.value.credentialId != keyHash { return KeyMismatch; }
    verdict := Genuine;
  }

  function VerdictOf(data: bytes, appHash: bytes, keyHash: bytes): Verdict {
    if !Accepted(data) then InvalidPayload else
    var a := Parsed(data);
    if a.rpIdHash != appHash then AppMismatch
    else if a.aaguid != AAGUID_PRODUCTION && a.aaguid != AAGUID_DEVELOPMENT then UnrecognizedEnvironment
    else if a.signCount != 0 then SignCountNonZero
    else if a.credentialId != keyHash then KeyMismatch
    else Genuine
  }

  /** The genuine data are the encodings of a fresh key of this app in one of the two environments, and nothing else. */
  lemma GenuineExactly(data: bytes, appHash: bytes, keyHash: bytes)
    requires |appHash| == 32 && |keyHash| == 32
    ensures VerdictOf(data, appHash, keyHash) == Genuine <==>
            exists aaguid: bytes, flags: byte, trailing: bytes ::
              && aaguid in {AAGUID_PRODUCTION, AAGUID_DEVELOPMENT} && HasCredential(flags)
              && data == Encode(AuthData(appHash, 0, aaguid, keyHash), flags, trailing)
  {
    if VerdictOf(data, appHash, keyHash) == Genuine {
      ParsedIsEncoded(data);
      var a := Parsed(data);
      assert a == AuthData(appHash, 0, a.aaguid, keyHash);
      assert a.aaguid in {AAGUID_PRODUCTION, AAGUID_DEVELOPMENT};
    }
    if aaguid: bytes, flags: byte, trailing: bytes :|
      && aaguid in {AAGUID_PRODUCTION, AAGUID_DEVELOPMENT} && HasCredential(flags)
      && data == Encode(AuthData(appHash, 0, aaguid, keyHash), flags, trailing) {
      EncodedIsParsed(AuthData(appHash, 0, aaguid, keyHash), flags, trailing);
    }
  }

  /** For encoded data the first field that is not as it must be decides, in this order. */
  lemma FirstMismatchDecides(a: AuthData, flags: byte, trailing: bytes, appHash: bytes, keyHash: bytes)
    requires a.Fits()
    ensures VerdictOf(Encode(a, flags, trailing), appHash, keyHash) ==
            if !(0x40 <= flags < 0x80 || 0xC0 <= flags) then InvalidPayload
            else if a.rpIdHash != appHash then AppMismatch
            else if a.aaguid !in {AAGUID_PRODUCTION, AAGUID_DEVELOPMENT} then UnrecognizedEnvironment
            else if a.signCount != 0 then SignCountNonZero
            else if a.credentialId != keyHash then KeyMismatch
            else Genuine
  {
    CredentialFlag(flags);
    if HasCredential(flags) { EncodedIsParsed(a, flags, trailing); } else { EncodedFields(a, flags, trailing); }
  }
}
