/** Attestation reports: what the quoted 64 bytes bind. */
module Report {
  import opened ByteStrings
  import opened Common
  import Text
  import Hex

  /** A 400 to the caller, or a failure behind the endpoint. */
  datatype Refusal = BadRequest | Failed

  datatype Signer = Signer(algo: string, addressBytes: Bytes)

  /** `fingerprint` is TLSCertSPKISHA256 as configured, empty when it is not. */
  datatype Service = Service(ecdsa: Signer, ed25519: Signer, fingerprint: Bytes)

  /** What the world answers during one Generate: random bytes, the certificate file's fingerprint,
      the quote, the platform info, the GPU evidence. SHA-256 is `hash`. */
  datatype World = World(
    random: Option<Bytes>,
    certificate: Option<Bytes>,
    quoteOk: bool,
    infoOk: bool,
    evidenceOk: bool,
    hash: Bytes -> Bytes)

  datatype Request = Request(version: int, signingAlgo: string, nonceHex: string)

  datatype Fields = Fields(algo: string, version: int, requestNonce: string, tlsCertFingerprint: Option<string>)

  /** `quoted` is what GetQuote was given, if it was called. */
  datatype Outcome = Outcome(quoted: Option<Bytes>, report: Result<Fields, Refusal>)

  ghost predicate RealWorld(w: World) {
    && (forall x :: |w.hash(x)| == 32)
    && (w.random.Some? ==> |w.random.value| == 32)
    && (w.certificate.Some? ==> |w.certificate.value| == 32)
  }

  /** A configured fingerprint is absent or exactly 32 bytes. */
  function NewService(ecdsa: Signer, ed25519: Signer, fingerprint: Bytes): (r: Result<Service, Refusal>)
    ensures r.Ok? <==> |fingerprint| == 0 || |fingerprint| == 32
    ensures r.Ok? ==> WellMade(r.value) && r.value.fingerprint == fingerprint
  {
    if |fingerprint| != 0 && |fingerprint| != 32 then Err(Failed) else Ok(Service(ecdsa, ed25519, fingerprint))
  }

  ghost predicate WellMade(s: Service) {
    |s.fingerprint| == 0 || |s.fingerprint| == 32
  }

  function SignerFor(s: Service, algo: string): Option<Signer> {
    if algo == "" || algo == "ecdsa" then Some(s.ecdsa)
    else if algo == "ed25519" then Some(s.ed25519)
    else None
  }

  function ParseNonce(raw: string, random: Option<Bytes>): Option<Bytes> {
    if Text.TrimSpace(raw) == "" then random
    else
      var nonce := Hex.Decode(raw);
      if nonce.Some? && |nonce.value| != 32 then None else nonce
  }

  function Zeros(n: nat): Bytes {
    seq(n, _ => 0)
  }

  /** The 64 quoted bytes: identity in the first half, nonce in the second. */
  function ReportData(hash: Bytes -> Bytes, address: Bytes, nonce: Bytes, fingerprint: Option<Bytes>): Option<Bytes> {
    if |address| == 0 || |address| > 32 || |nonce| != 32 then None
    else if fingerprint.Some? then Some(hash(address + fingerprint.value) + nonce)
    else Some(address + Zeros(32 - |address|) + nonce)
  }

  /** buildReportData: the same by filling a zeroed 64-byte buffer in place. */
  method BuildReportData(hash: Bytes -> Bytes, address: Bytes, nonce: Bytes, fingerprint: Option<Bytes>)
    returns (r: Option<Bytes>)
    requires forall x :: |hash(x)| == 32
    ensures r == ReportData(hash, address, nonce, fingerprint)
    ensures r.Some? ==> |r.value| == 64 && r.value[32..] == nonce
  {
    if |address| == 0 || |address| > 32 || |nonce| != 32 {
      return None;
    }
    var reportData := new Byte[64](_ => 0);
    var head := address;
    if fingerprint.Some? {
      head := hash(address + fingerprint.value);
    }
    Copy(head, reportData, 0);
    Copy(nonce, reportData, 32);
    r := Some(reportData[..]);
    assert r.value == head + Zeros(32 - |head|) + nonce;
    assert |head| == 32 ==> head + Zeros(32 - |head|) == head;
  }

  /** Go's copy into a slice that starts at `offset`. */
  method Copy(from: Bytes, to: array<Byte>, offset: nat)
    requires offset + |from| <= to.Length
    modifies to
    ensures to[..] == old(to[..offset]) + from + old(to[offset + |from|..])
  {
    for i := 0 to |from|
      invariant to[..] == old(to[..offset]) + from[..i] + old(to[offset + i..])
    {
      to[offset + i] := from[i];
    }
    assert from[..|from|] == from;
  }

  /** `version` as requested, zero standing for one. */
  function Generate(s: Service, w: World, req: Request): Outcome {
    var version := if req.version == 0 then 1 else req.version;
    if version != 1 && version != 2 then Outcome(None, Err(BadRequest))
    else
      var signer := SignerFor(s, Text.Lower(Text.TrimSpace(req.signingAlgo)));
      if signer.None? then Outcome(None, Err(BadRequest))
      else
        var nonce := ParseNonce(req.nonceHex, w.random);
        if nonce.None? then Outcome(None, Err(BadRequest))
        else
          var fingerprint := Fingerprint(s, w, version);
          if version == 2 && fingerprint.None? then Outcome(None, Err(BadRequest))
          else
            var data := ReportData(w.hash, signer.value.addressBytes, nonce.value, fingerprint);
            if data.None? then Outcome(None, Err(BadRequest))
            else if !w.quoteOk || !w.infoOk || !w.evidenceOk then Outcome(data, Err(Failed))
            else
              Outcome(data, Ok(Fields(signer.value.algo, version, Hex.Encode(nonce.value),
                if fingerprint.Some? then Some(Hex.Encode(fingerprint.value)) else None)))
  }

  /** The fingerprint a version 2 report binds: the listener's own, else the certificate file's. */
  function Fingerprint(s: Service, w: World, version: int): Option<Bytes> {
    if version < 2 then None else if s.fingerprint != [] then Some(s.fingerprint) else w.certificate
  }

  /** Every report handed out was quoted over exactly 64 bytes whose second half is the nonce the
      report states, which is the caller's nonce in lower case if one was given; and it states a
      certificate fingerprint just when it is a version 2 report. */
  lemma ReportBindsNonce(s: Service, w: World, req: Request)
    requires RealWorld(w) && WellMade(s) && Generate(s, w, req).report.Ok?
    ensures var o := Generate(s, w, req);
            var fields := o.report.value;
            && o.quoted.Some? && |o.quoted.value| == 64
            && Hex.Decode(fields.requestNonce) == Some(o.quoted.value[32..])
            && (Text.TrimSpace(req.nonceHex) != "" ==> fields.requestNonce == Text.Lower(req.nonceHex))
            && (fields.tlsCertFingerprint.Some? <==> fields.version == 2)
            && (fields.version == if req.version == 0 then 1 else req.version)
  {
    var nonce := ParseNonce(req.nonceHex, w.random).value;
    Hex.DecodeEncode(nonce);
    if Text.TrimSpace(req.nonceHex) != "" {
      Hex.EncodeDecode(req.nonceHex);
    }
    assert Generate(s, w, req).quoted.value[32..] == nonce;
  }

  /** The signer a request names: ECDSA by default, Ed25519 by name. */
  ghost predicate IsSigner(s: Service, req: Request, signer: Signer) {
    var name := Text.Lower(Text.TrimSpace(req.signingAlgo));
    || ((name == "" || name == "ecdsa") && signer == s.ecdsa)
    || (name == "ed25519" && signer == s.ed25519)
  }

  /** The nonce a request gets: its own, decoded, or fresh random bytes if it gives none. */
  ghost predicate IsNonce(w: World, req: Request, nonce: Bytes) {
    if Text.TrimSpace(req.nonceHex) == "" then w.random == Some(nonce)
    else Hex.Decode(req.nonceHex) == Some(nonce) && |nonce| == 32
  }

  /** The fingerprint a version 2 report binds: the listener's own, else the certificate file's. */
  ghost predicate IsFingerprint(s: Service, w: World, cert: Bytes) {
    if s.fingerprint != [] then cert == s.fingerprint else w.certificate == Some(cert)
  }

  /** A report is made exactly for a known version, algorithm and nonce, an address of 1 to 32 bytes,
      in version 2 a certificate, and everything behind the endpoint working. */
  lemma ReportIff(s: Service, w: World, req: Request)
    ensures Generate(s, w, req).report.Ok? <==>
            && (req.version == 0 || req.version == 1 || req.version == 2)
            && (exists signer :: IsSigner(s, req, signer) && 0 < |signer.addressBytes| <= 32)
            && (exists nonce :: IsNonce(w, req, nonce) && |nonce| == 32)
            && (req.version == 2 ==> exists cert :: IsFingerprint(s, w, cert))
            && w.quoteOk && w.infoOk && w.evidenceOk
  {
    var signer := SignerFor(s, Text.Lower(Text.TrimSpace(req.signingAlgo)));
    var nonce := ParseNonce(req.nonceHex, w.random);
    assert signer.Some? ==> IsSigner(s, req, signer.value);
    assert forall other :: IsSigner(s, req, other) ==> signer == Some(other);
    assert nonce.Some? ==> IsNonce(w, req, nonce.value);
    assert forall other :: IsNonce(w, req, other) ==> nonce == Some(other);
    if req.version == 2 {
      assert Fingerprint(s, w, 2).Some? ==> IsFingerprint(s, w, Fingerprint(s, w, 2).value);
    }
  }

  /** An unknown algorithm is a bad request, and so is every refusal made before a quote is asked for. */
  lemma BadRequestIff(s: Service, w: World, req: Request)
    ensures var o := Generate(s, w, req);
            && (o.report == Err(BadRequest) <==> o.quoted.None?)
            && ((forall signer :: !IsSigner(s, req, signer)) ==> o.report == Err(BadRequest))
  {
    var signer := SignerFor(s, Text.Lower(Text.TrimSpace(req.signingAlgo)));
    assert signer.Some? ==> IsSigner(s, req, signer.value);
  }

  /** The quoted data of a report: the second half is the request's nonce; the first half binds who
      signs, in version 2 by the hash of the signing address and the very fingerprint the report
      states, in version 1 by the address itself, padded with zero bytes. */
  lemma ReportBindsSigner(s: Service, w: World, req: Request, signer: Signer, nonce: Bytes)
    requires RealWorld(w) && WellMade(s) && Generate(s, w, req).report.Ok?
    requires IsSigner(s, req, signer) && IsNonce(w, req, nonce)
    ensures var o := Generate(s, w, req);
            var fields := o.report.value;
            && fields.algo == signer.algo
            && o.quoted.Some? && |o.quoted.value| == 64 && o.quoted.value[32..] == nonce
            && fields.requestNonce == Hex.Encode(nonce)
            && if req.version == 2 then
                 fields.tlsCertFingerprint.Some? &&
                 var cert := Hex.Decode(fields.tlsCertFingerprint.value);
                 && cert.Some? && |cert.value| == 32 && IsFingerprint(s, w, cert.value)
                 && o.quoted.value[..32] == w.hash(signer.addressBytes + cert.value)
               else
                 && |signer.addressBytes| <= 32
                 && o.quoted.value[..|signer.addressBytes|] == signer.addressBytes
                 && forall i :: |signer.addressBytes| <= i < 32 ==> o.quoted.value[i] == 0
  {
    assert SignerFor(s, Text.Lower(Text.TrimSpace(req.signingAlgo))) == Some(signer);
    assert ParseNonce(req.nonceHex, w.random) == Some(nonce);
    var quoted := Generate(s, w, req).quoted.value;
    if req.version == 2 {
      var cert := Fingerprint(s, w, 2).value;
      Hex.DecodeEncode(cert);
      assert quoted == w.hash(signer.addressBytes + cert) + nonce;
    } else {
      assert quoted == signer.addressBytes + Zeros(32 - |signer.addressBytes|) + nonce;
    }
  }

  ghost predicate Collision(hash: Bytes -> Bytes, x: Bytes, y: Bytes) {
    x != y && hash(x) == hash(y)
  }

  /** Two quotes cover the same data exactly if they have the same nonce and either the same address
      and certificate or preimages that are a collision of the hash: the certificate always being 32
      bytes, there is no other way to read the hashed text in two ways. */
  lemma ReportDataInjective(hash: Bytes -> Bytes, a: Bytes, b: Bytes, nonceA: Bytes, nonceB: Bytes,
                            certA: Bytes, certB: Bytes)
    requires forall x :: |hash(x)| == 32
    requires |certA| == |certB| == 32
    requires ReportData(hash, a, nonceA, Some(certA)).Some? && ReportData(hash, b, nonceB, Some(certB)).Some?
    ensures ReportData(hash, a, nonceA, Some(certA)) == ReportData(hash, b, nonceB, Some(certB)) <==>
            nonceA == nonceB && ((a == b && certA == certB) || Collision(hash, a + certA, b + certB))
  {
    var dataA := ReportData(hash, a, nonceA, Some(certA)).value;
    var dataB := ReportData(hash, b, nonceB, Some(certB)).value;
    assert dataA[..32] == hash(a + certA) && dataA[32..] == nonceA;
    assert dataB[..32] == hash(b + certB) && dataB[32..] == nonceB;
    if a + certA == b + certB {
      assert (a + certA)[|a|..] == certA && (b + certB)[|b|..] == certB;
      assert (a + certA)[..|a|] == a && (b + certB)[..|b|] == b;
    }
  }

  /** Two version 2 reports, from any services at any times, quoted over the same data state the same
      nonce; and they agree on signing address and stated certificate fingerprint, unless the two
      hashed texts are a collision of the hash. */
  lemma ReportsBindIdentity(s: Service, w: World, req: Request, signer: Signer, cert: Bytes,
                            s': Service, w': World, req': Request, signer': Signer, cert': Bytes)
    requires RealWorld(w) && RealWorld(w') && WellMade(s) && WellMade(s') && w.hash == w'.hash
    requires req.version == 2 && IsSigner(s, req, signer) && IsFingerprint(s, w, cert)
    requires req'.version == 2 && IsSigner(s', req', signer') && IsFingerprint(s', w', cert')
    requires Generate(s, w, req).report.Ok? && Generate(s', w', req').report.Ok?
    requires Generate(s, w, req).quoted == Generate(s', w', req').quoted
    ensures var o, o' := Generate(s, w, req).report.value, Generate(s', w', req').report.value;
            && o.requestNonce == o'.requestNonce
            && (|| (signer.addressBytes == signer'.addressBytes && o.tlsCertFingerprint == o'.tlsCertFingerprint)
                || Collision(w.hash, signer.addressBytes + cert, signer'.addressBytes + cert'))
  {
    assert SignerFor(s, Text.Lower(Text.TrimSpace(req.signingAlgo))) == Some(signer);
    assert SignerFor(s', Text.Lower(Text.TrimSpace(req'.signingAlgo))) == Some(signer');
    ReportDataInjective(w.hash, signer.addressBytes, signer'.addressBytes,
      ParseNonce(req.nonceHex, w.random).value, ParseNonce(req'.nonceHex, w'.random).value, cert, cert');
  }
}
