/**
 Device certificates: what a core issues, signs, puts on the wire and accepts back. Signatures, the
 digest and the CBOR codec are parameters; only what they promise is used.
 */
module DeviceCerts {
  import opened Prelude

  const CERT_LIFETIME_SECS: u64 := 365 * 24 * 60 * 60

  const SKEW_TOLERANCE_SECS: u64 := 5 * 60

  const SIGNATURE_BYTES: nat := 64

  datatype Cert = Cert(
    version: nat,
    deviceId: Bytes,
    devicePubkey: Bytes,
    deviceName: string,
    corePubkey: Bytes,
    issuedAt: u64,
    expiresAt: u64,
    capabilities: seq<string>,
    revocationCheckRequired: bool)

  datatype IdentityError = Truncated | BadSignature | BadCbor | WrongCore | Expired | Revoked

  datatype Primitives = Primitives(
    publicKey: Bytes -> Bytes,
    sign: (Bytes, Bytes) -> Bytes,
    verify: (Bytes, Bytes, Bytes) -> bool,
    digest: Bytes -> Bytes,
    encode: Cert -> Option<Bytes>,
    decode: Bytes -> Option<Cert>)

  /** Signatures are 64 bytes and verify under the matching public key. */
  ghost predicate SignatureLaw(p: Primitives) {
    && (forall key, message :: |p.sign(key, message)| == SIGNATURE_BYTES)
    && (forall key, message :: p.verify(p.publicKey(key), message, p.sign(key, message)))
  }

  /** A certificate is decoded from its encoding. */
  ghost predicate CodecLaw(p: Primitives) {
    forall c :: p.encode(c).Some? ==> p.decode(p.encode(c).value) == Some(c)
  }

  ghost predicate Lawful(p: Primitives) {
    SignatureLaw(p) && CodecLaw(p)
  }

  datatype SignedCert = SignedCert(certBytes: Bytes, cert: Cert, signature: Bytes)

  datatype PairingRequest = PairingRequest(devicePubkey: Bytes, deviceName: string)

  datatype DeviceContext = DeviceContext(deviceId: Bytes, deviceName: string, capabilities: seq<string>)

  datatype Issuer = Issuer(coreKey: Bytes, corePub: Bytes)

  predicate IsExpired(c: Cert, now: nat) {
    now >= c.expiresAt
  }

  function SignCert(p: Primitives, key: Bytes, c: Cert): Result<SignedCert, IdentityError> {
    match p.encode(c)
    case None => Err(BadCbor)
    case Some(bytes) => Ok(SignedCert(bytes, c, p.sign(key, bytes)))
  }

  function OnWire(s: SignedCert): Bytes {
    s.certBytes + s.signature
  }

  function VerifyCert(p: Primitives, raw: Bytes, corePub: Bytes): Result<Cert, IdentityError> {
    if |raw| < SIGNATURE_BYTES then Err(Truncated)
    else
      var split := |raw| - SIGNATURE_BYTES;
      var certBytes := raw[..split];
      if !p.verify(corePub, certBytes, raw[split..]) then Err(BadSignature)
      else
        match p.decode(certBytes)
        case None => Err(BadCbor)
        case Some(c) => if p.encode(c) == Some(certBytes) then Ok(c) else Err(BadCbor)
  }

  function PolicyCert(p: Primitives, i: Issuer, req: PairingRequest, issuedAt: u64): Cert {
    Cert(1, p.digest(req.devicePubkey), req.devicePubkey, req.deviceName, i.corePub,
         issuedAt, SatAdd(issuedAt, CERT_LIFETIME_SECS), ["admin"], true)
  }

  function IssueAt(p: Primitives, i: Issuer, req: PairingRequest, issuedAt: u64): Result<SignedCert, IdentityError> {
    SignCert(p, i.coreKey, PolicyCert(p, i, req, issuedAt))
  }

  function ValidateAt(p: Primitives, i: Issuer, revoked: set<Bytes>, raw: Bytes, now: u64)
    : Result<DeviceContext, IdentityError>
  {
    match VerifyCert(p, raw, i.corePub)
    case Err(error) => Err(error)
    case Ok(c) =>
      if c.corePubkey != i.corePub then Err(WrongCore)
      else if IsExpired(c, SatSub(now, SKEW_TOLERANCE_SECS)) then Err(Expired)
      else if c.revocationCheckRequired && c.deviceId in revoked then Err(Revoked)
      else Ok(DeviceContext(c.deviceId, c.deviceName, c.capabilities))
  }

  // ---------- issuing and accepting ----------

  lemma VerifyingUndoesSigning(p: Primitives, key: Bytes, c: Cert)
    requires Lawful(p) && SignCert(p, key, c).Ok?
    ensures VerifyCert(p, OnWire(SignCert(p, key, c).value), p.publicKey(key)) == Ok(c)
  {
    var s := SignCert(p, key, c).value;
    var raw := OnWire(s);
    assert raw[..|raw| - SIGNATURE_BYTES] == s.certBytes && raw[|raw| - SIGNATURE_BYTES..] == s.signature;
  }

  /**
   For every core whose public key matches its signing key: a certificate it issued is accepted with
   the requester's id, name and the one capability exactly while it is unexpired, five minutes of
   grace included, and its id is not revoked; otherwise the reason is the right one, expiry first.
   */
  lemma IssuedIsAcceptedExactlyWhile(
      p: Primitives, i: Issuer, req: PairingRequest, issuedAt: u64, revoked: set<Bytes>, now: u64)
    requires Lawful(p) && i.corePub == p.publicKey(i.coreKey) && IssueAt(p, i, req, issuedAt).Ok?
    ensures var id := p.digest(req.devicePubkey);
      ValidateAt(p, i, revoked, OnWire(IssueAt(p, i, req, issuedAt).value), now) ==
        if SatSub(now, 300) >= SatAdd(issuedAt, 31_536_000) then Err(Expired)
        else if id in revoked then Err(Revoked)
        else Ok(DeviceContext(id, req.deviceName, ["admin"]))
  {
    VerifyingUndoesSigning(p, i.coreKey, PolicyCert(p, i, req, issuedAt));
  }

  /** A certificate outlives its nominal expiry by exactly the grace, where the clock does not saturate. */
  lemma AcceptedFor(p: Primitives, i: Issuer, req: PairingRequest, issuedAt: u64, now: u64)
    requires Lawful(p) && i.corePub == p.publicKey(i.coreKey) && IssueAt(p, i, req, issuedAt).Ok?
    requires issuedAt + CERT_LIFETIME_SECS <= U64_MAX
    ensures ValidateAt(p, i, {}, OnWire(IssueAt(p, i, req, issuedAt).value), now).Ok?
       <==> now < issuedAt + CERT_LIFETIME_SECS + SKEW_TOLERANCE_SECS
  {
    IssuedIsAcceptedExactlyWhile(p, i, req, issuedAt, {}, now);
  }

  /** For any bytes at all: as time goes on and ids are revoked, an acceptance that was lost never returns. */
  lemma LostAcceptanceNeverReturns(
      p: Primitives, i: Issuer, raw: Bytes, revoked: set<Bytes>, now: u64, revokedLater: set<Bytes>, later: u64)
    requires revoked <= revokedLater && now <= later
    ensures ValidateAt(p, i, revokedLater, raw, later).Ok?
        ==> ValidateAt(p, i, revoked, raw, now) == ValidateAt(p, i, revokedLater, raw, later)
  {
  }

  /** Only one byte string per certificate is accepted, up to the signature. */
  lemma AcceptedBytesAreCanonical(p: Primitives, corePub: Bytes, a: Bytes, b: Bytes)
    requires VerifyCert(p, a, corePub).Ok? && VerifyCert(p, a, corePub) == VerifyCert(p, b, corePub)
    ensures |a| == |b| && a[..|a| - SIGNATURE_BYTES] == b[..|b| - SIGNATURE_BYTES]
  {
    var c := VerifyCert(p, a, corePub).value;
    var bytes := p.encode(c).value;
    assert bytes == a[..|a| - SIGNATURE_BYTES] && |bytes| == |a| - SIGNATURE_BYTES;
    assert bytes == b[..|b| - SIGNATURE_BYTES] && |bytes| == |b| - SIGNATURE_BYTES;
  }

  /** The bytes are long enough for a signature, and it verifies. */
  predicate IsSigned(p: Primitives, raw: Bytes, corePub: Bytes) {
    |raw| >= 64 && p.verify(corePub, raw[..|raw| - 64], raw[|raw| - 64..])
  }

  /** Bytes are verified as a certificate exactly if they are signed and it is the one whose encoding they are. */
  lemma VerifiesExactly(p: Primitives, raw: Bytes, corePub: Bytes, c: Cert)
    requires CodecLaw(p)
    ensures VerifyCert(p, raw, corePub) == Ok(c) <==>
      IsSigned(p, raw, corePub) && p.encode(c) == Some(raw[..|raw| - 64])
  {
  }

  /** Any bytes at all are accepted, or refused for the first of these reasons that applies. */
  lemma RefusedForTheFirstReason(p: Primitives, i: Issuer, revoked: set<Bytes>, raw: Bytes, now: u64)
    requires CodecLaw(p)
    ensures var result := ValidateAt(p, i, revoked, raw, now);
      if |raw| < 64 then result == Err(Truncated)
      else if !IsSigned(p, raw, i.corePub) then result == Err(BadSignature)
      else if forall c :: p.encode(c) != Some(raw[..|raw| - 64]) then result == Err(BadCbor)
      else
        forall c | p.encode(c) == Some(raw[..|raw| - 64]) ::
          result ==
            if c.corePubkey != i.corePub then Err(WrongCore)
            else if SatSub(now, 300) >= c.expiresAt then Err(Expired)
            else if c.deviceId in revoked && c.revocationCheckRequired then Err(Revoked)
            else Ok(DeviceContext(c.deviceId, c.deviceName, c.capabilities))
  {
    if |raw| >= 64 {
      match VerifyCert(p, raw, i.corePub)
      case Ok(c) => VerifiesExactly(p, raw, i.corePub, c);
      case Err(_) =>
        forall c ensures IsSigned(p, raw, i.corePub) ==> p.encode(c) != Some(raw[..|raw| - 64]) {
          VerifiesExactly(p, raw, i.corePub, c);
        }
    }
  }

  // ---------- what is accepted was issued ----------

  /** A certificate issued for a request at a time. */
  datatype Issued = Issued(req: PairingRequest, at: u64)

  /** The bytes are those signed for some certificate of the log. */
  ghost predicate SignedInLog(p: Primitives, i: Issuer, log: seq<Issued>, message: Bytes) {
    exists k :: 0 <= k < |log| && p.encode(PolicyCert(p, i, log[k].req, log[k].at)) == Some(message)
  }

  /** Whoever presents `raw` has not forged it: if its signature verifies, the core has signed its body. */
  ghost predicate NotForged(p: Primitives, i: Issuer, log: seq<Issued>, raw: Bytes) {
    var split := |raw| - SIGNATURE_BYTES;
    split >= 0 && p.verify(i.corePub, raw[..split], raw[split..]) ==> SignedInLog(p, i, log, raw[..split])
  }

  /**
   Of any core, whatever bytes are presented: if they are not forged and are accepted, they speak for a
   device the core paired, with that device's id and name, within its lifetime and not revoked; and a
   foreign core key is never the reason for a refusal.
   */
  lemma AcceptedWasIssued(p: Primitives, i: Issuer, log: seq<Issued>, revoked: set<Bytes>, raw: Bytes, now: u64)
    requires CodecLaw(p) && i.corePub == p.publicKey(i.coreKey) && NotForged(p, i, log, raw)
    ensures match ValidateAt(p, i, revoked, raw, now)
      case Err(error) => error != WrongCore
      case Ok(context) =>
        exists k :: 0 <= k < |log|
          && context == DeviceContext(p.digest(log[k].req.devicePubkey), log[k].req.deviceName, ["admin"])
          && SatSub(now, SKEW_TOLERANCE_SECS) < SatAdd(log[k].at, CERT_LIFETIME_SECS)
          && context.deviceId !in revoked
  {
    if |raw| >= SIGNATURE_BYTES {
      var split := |raw| - SIGNATURE_BYTES;
      if p.verify(i.corePub, raw[..split], raw[split..]) {
        var k :| 0 <= k < |log| && p.encode(PolicyCert(p, i, log[k].req, log[k].at)) == Some(raw[..split]);
        assert VerifyCert(p, raw, i.corePub) == Ok(PolicyCert(p, i, log[k].req, log[k].at));
      }
    }
  }

  /** What a core has issued is not forged, and is accepted until it expires or is revoked. */
  lemma IssuedIsNotForged(
      p: Primitives, i: Issuer, log: seq<Issued>, k: nat, revoked: set<Bytes>, now: u64)
    requires Lawful(p) && i.corePub == p.publicKey(i.coreKey)
    requires k < |log| && IssueAt(p, i, log[k].req, log[k].at).Ok?
    ensures var raw := OnWire(IssueAt(p, i, log[k].req, log[k].at).value);
      && NotForged(p, i, log, raw)
      && (ValidateAt(p, i, revoked, raw, now).Ok?
          <==> SatSub(now, SKEW_TOLERANCE_SECS) < SatAdd(log[k].at, CERT_LIFETIME_SECS)
               && p.digest(log[k].req.devicePubkey) !in revoked)
  {
    var signed := IssueAt(p, i, log[k].req, log[k].at).value;
    var raw := OnWire(signed);
    assert raw[..|raw| - SIGNATURE_BYTES] == signed.certBytes;
    assert SignedInLog(p, i, log, signed.certBytes);
    IssuedIsAcceptedExactlyWhile(p, i, log[k].req, log[k].at, revoked, now);
  }

  /** The certificate inside issued bytes says what it was issued for, and its id is the digest of the key it names. */
  lemma IssuedSays(p: Primitives, i: Issuer, req: PairingRequest, issuedAt: u64)
    requires Lawful(p) && i.corePub == p.publicKey(i.coreKey) && IssueAt(p, i, req, issuedAt).Ok?
    ensures match VerifyCert(p, OnWire(IssueAt(p, i, req, issuedAt).value), i.corePub)
      case Err(_) => false
      case Ok(c) =>
        && c.devicePubkey == req.devicePubkey && c.deviceId == p.digest(c.devicePubkey) && c.deviceName == req.deviceName
        && c.corePubkey == i.corePub && c.issuedAt == issuedAt && c.version == 1
        && c.capabilities == ["admin"] && c.revocationCheckRequired
        && (issuedAt + 31_536_000 <= U64_MAX ==> c.expiresAt - c.issuedAt == 31_536_000)
  {
    VerifyingUndoesSigning(p, i.coreKey, PolicyCert(p, i, req, issuedAt));
  }

  /** Whatever bytes are accepted and are not forged certify a paired device's own key, under the id that is its digest. */
  lemma AcceptedBindsTheKey(p: Primitives, i: Issuer, log: seq<Issued>, revoked: set<Bytes>, raw: Bytes, now: u64)
    requires CodecLaw(p) && NotForged(p, i, log, raw) && ValidateAt(p, i, revoked, raw, now).Ok?
    ensures match VerifyCert(p, raw, i.corePub)
      case Err(_) => false
      case Ok(c) =>
        && ValidateAt(p, i, revoked, raw, now).value.deviceId == c.deviceId == p.digest(c.devicePubkey)
        && exists k :: 0 <= k < |log| && c.devicePubkey == log[k].req.devicePubkey && c.issuedAt == log[k].at
  {
    var split := |raw| - SIGNATURE_BYTES;
    var k :| 0 <= k < |log| && p.encode(PolicyCert(p, i, log[k].req, log[k].at)) == Some(raw[..split]);
    assert VerifyCert(p, raw, i.corePub) == Ok(PolicyCert(p, i, log[k].req, log[k].at));
  }

  /** The laws can be met, by a core that can issue: here with one signature for all and one certificate. */
  lemma LawsCanBeMet(c: Cert) returns (p: Primitives)
    ensures Lawful(p) && p.encode(c).Some?
  {
    var zeros: Bytes := seq(SIGNATURE_BYTES, _ => 0);
    p := Primitives(
      key => key, (key, message) => zeros, (key, message, signature) => signature == zeros, message => message,
      d => if d == c then Some([]) else None, bytes => if bytes == [] then Some(c) else None);
  }
}
