/** Principals, the mesh certificate authority and peer verification. */
module Pki {
  import opened Terms
  import opened Labels
  import opened Strings
  import Der

  datatype Error =
    | NoMeshUri | MeshMismatch | BadPrincipal | BadCsr | KeyMismatch | InvalidNodeId
    | KeyRequired | BadTtl | BadChain | NoPeerCert

  // URIs. Labels hold no character that a URI would escape, so rendering is concatenation.

  datatype Url = Url(scheme: string, host: string, path: string)

  const URI_SCHEME := "lcm"
  const ROLE_NODE := "node"
  const ROLE_ADMIN := "admin"

  function Render(u: Url): string
  {
    u.scheme + "://" + u.host + u.path
  }

  function ParseUrl(s: string): Option<Url>
  {
    var (scheme, rest) := Cut(s, "://");
    match rest
    case None => None
    case Some(r) =>
      var (host, path) := Cut(r, "/");
      Some(Url(scheme, host, if path.Some? then "/" + path.value else ""))
  }

  lemma UrlRoundTrip(u: Url, path: string)
    requires ':' !in u.scheme && '/' !in u.host && u.path == "/" + path
    ensures ParseUrl(Render(u)) == Some(u)
  {
    assert Render(u) == u.scheme + "://" + (u.host + u.path);
    CutFront(u.scheme, "://", u.host + u.path);
    assert u.host + u.path == u.host + "/" + path;
    CutFront(u.host, "/", path);
  }

  // Principals.

  datatype Principal = Principal(meshId: string, role: string, name: string)

  function PrincipalUri(p: Principal): Url
  {
    Url(URI_SCHEME, p.meshId, "/" + p.role + "/" + p.name)
  }

  function TrimSlash(s: string): string
  {
    if s != "" && s[0] == '/' then s[1..] else s
  }

  function ParsePrincipal(u: Url): Result<Principal, Error>
  {
    if u.scheme != URI_SCHEME || u.host == "" then Err(BadPrincipal)
    else
      var parts := Split(TrimSlash(u.path), "/");
      if |parts| != 2 || parts[0] == "" || parts[1] == "" then Err(BadPrincipal)
      else if parts[0] != ROLE_NODE && parts[0] != ROLE_ADMIN then Err(BadPrincipal)
      else Ok(Principal(u.host, parts[0], parts[1]))
  }

  /** The principal in the first URI of our scheme. */
  function PrincipalFromUris(uris: seq<string>): Result<Principal, Error>
  {
    if uris == [] then Err(NoMeshUri)
    else
      match ParseUrl(uris[0])
      case Some(u) =>
        if u.scheme == URI_SCHEME then ParsePrincipal(u) else PrincipalFromUris(uris[1..])
      case None => PrincipalFromUris(uris[1..])
  }

  function PrincipalFromCert(cert: Certificate): Result<Principal, Error>
  {
    PrincipalFromUris(cert.tbs.uris)
  }

  predicate KnownRole(role: string)
  {
    role == ROLE_NODE || role == ROLE_ADMIN
  }

  /** Rendering a principal and parsing the URI gives it back, exactly for the principals that have
      a mesh, a known role and a non-empty name without a slash. */
  lemma PrincipalRoundTrip(p: Principal)
    ensures ParsePrincipal(PrincipalUri(p)) == Ok(p)
      <==> p.meshId != "" && KnownRole(p.role) && p.name != "" && '/' !in p.name
  {
    if !KnownRole(p.role) {
      return;
    }
    var path := p.role + "/" + p.name;
    assert TrimSlash("/" + p.role + "/" + p.name) == path;
    CutFront(p.role, "/", p.name);
    assert Split(path, "/") == [p.role] + Split(p.name, "/");
    if '/' !in p.name {
      CutNothing(p.name, "/");
      assert Split(path, "/") == [p.role, p.name];
    } else {
      CutFound(p.name, '/');
      assert |Split(p.name, "/")| >= 2;
    }
  }

  /** What parses, for any URL: our scheme, a host, and a path of a known role and a name, with or
      without the leading slash. */
  lemma ParseExactly(u: Url, p: Principal)
    ensures ParsePrincipal(u) == Ok(p)
            <==> && u.scheme == "lcm" && u.host == p.meshId && p.meshId != ""
                 && (p.role == "node" || p.role == "admin") && p.name != "" && '/' !in p.name
                 && (u.path == "/" + p.role + "/" + p.name || u.path == p.role + "/" + p.name)
  {
    var path := TrimSlash(u.path);
    if KnownRole(p.role) && p.name != "" && '/' !in p.name
       && (u.path == "/" + p.role + "/" + p.name || u.path == p.role + "/" + p.name) {
      assert path == p.role + "/" + p.name;
      CutFront(p.role, "/", p.name);
      CutNothing(p.name, "/");
    }
    if ParsePrincipal(u) == Ok(p) {
      SplitInTwo(path, p.role, p.name);
    }
  }

  /** Two parts come from one slash. */
  lemma SplitInTwo(path: string, first: string, second: string)
    requires Split(path, "/") == [first, second]
    ensures path == first + "/" + second && '/' !in second
  {
    var (head, rest) := Cut(path, "/");
    var parts := Split(path, "/");
    assert rest.Some? && parts[0] == head && parts[1..] == Split(rest.value, "/");
    assert Split(rest.value, "/") == [second];
    if '/' in rest.value {
      CutFound(rest.value, '/');
    }
  }

  /** The first URI of our scheme decides, whatever stands before and after it. */
  lemma {:induction false} FirstUriDecides(before: seq<string>, uri: string, after: seq<string>, u: Url)
    requires forall i | 0 <= i < |before| :: ParseUrl(before[i]).None? || ParseUrl(before[i]).value.scheme != "lcm"
    requires ParseUrl(uri) == Some(u) && u.scheme == "lcm"
    ensures PrincipalFromUris(before + [uri] + after) == ParsePrincipal(u)
    ensures PrincipalFromUris(before) == Err(NoMeshUri)
  {
    if before == [] {
      assert (before + [uri] + after)[0] == uri;
    } else {
      FirstUriDecides(before[1..], uri, after, u);
      assert (before + [uri] + after)[1..] == before[1..] + [uri] + after;
    }
  }

  lemma LabelHasNo(s: string, c: char)
    requires ValidLabel(s) && !LabelChar(c)
    ensures c !in s
  {
  }

  lemma UriText(p: Principal)
    ensures Render(PrincipalUri(p)) == "lcm://" + p.meshId + "/" + p.role + "/" + p.name
  {
  }

  /** The whole way through the text of the URI in a certificate. */
  lemma UriTextRoundTrip(p: Principal)
    requires ValidLabel(p.meshId) && ValidLabel(p.name) && KnownRole(p.role)
    ensures PrincipalFromUris([Render(PrincipalUri(p))]) == Ok(p)
  {
    LabelHasNo(p.meshId, '/');
    LabelHasNo(p.name, '/');
    var path := p.role + "/" + p.name;
    assert PrincipalUri(p).path == "/" + path;
    UrlRoundTrip(PrincipalUri(p), path);
    assert '/' !in p.role;
    PrincipalRoundTrip(p);
  }

  // The authority.

  /** A CA certificate and the private key, named by the id of its public half. */
  datatype Authority = Authority(cert: Certificate, key: nat)

  const BACKDATE: Time := 5 * MINUTE
  const CA_CERT_TTL: Time := 10 * 365 * 24 * HOUR
  const DEFAULT_NODE_CERT_TTL: Time := 30 * 24 * HOUR

  /** Certificates carry whole seconds. */
  function Seconds(t: Time): Time
  {
    t / SECOND * SECOND
  }

  function MeshOf(caCert: Certificate): string
  {
    if caCert.tbs.subject.organization == [] then "" else caCert.tbs.subject.organization[0]
  }

  function NewCA(meshId: string, key: nat, serial: nat, now: Time, pad: Pad): Result<Authority, Error>
  {
    if !ValidLabel(meshId) then Err(InvalidNodeId)
    else
      var name := Name("Local Compute Mesh CA", [meshId]);
      var tbs := Tbs(serial, name, name, Seconds(now - BACKDATE), Seconds(now + CA_CERT_TTL), true, [], [], P256(key));
      Ok(Authority(Certificate(tbs, Signature(P256(key), tbs), pad), key))
  }

  datatype SignRequest = SignRequest(principal: Principal, publicKey: Option<PublicKey>, ttl: Time)

  function Sign(ca: Authority, req: SignRequest, serial: nat, now: Time, pad: Pad): Result<Certificate, Error>
  {
    var p := req.principal;
    if p.meshId != MeshOf(ca.cert) then Err(MeshMismatch)
    else if !ValidLabel(p.name) then Err(InvalidNodeId)
    else if !KnownRole(p.role) then Err(BadPrincipal)
    else if req.publicKey.None? then Err(KeyRequired)
    else if req.ttl <= 0 then Err(BadTtl)
    else if ca.cert.tbs.publicKey != P256(ca.key) then Err(KeyMismatch)
    else
      var tbs := Tbs(
        serial,
        Name(p.name, [p.meshId]),
        ca.cert.tbs.subject,
        Seconds(now - BACKDATE),
        Seconds(now + req.ttl),
        false,
        [Render(PrincipalUri(p))],
        if p.role == ROLE_NODE then [p.name] else [],
        req.publicKey.value);
      Ok(Certificate(tbs, Signature(P256(ca.key), tbs), pad))
  }

  function SignCsr(ca: Authority, csr: Bytes, p: Principal, ttl: Time, serial: nat, now: Time, pad: Pad)
    : Result<Certificate, Error>
  {
    match Der.ParseRequest(csr)
    case None => Err(BadCsr)
    case Some(req) =>
      if req.signedBy != req.publicKey then Err(BadCsr)
      else if !req.publicKey.P256? then Err(BadCsr)
      else Sign(ca, SignRequest(p, Some(req.publicKey), ttl), serial, now, pad)
  }

  function NewCsr(nodeId: string, key: nat, pad: Pad): Result<CertRequest, Error>
  {
    if !ValidLabel(nodeId) then Err(InvalidNodeId)
    else Ok(CertRequest(nodeId, P256(key), P256(key), pad))
  }

  predicate InPeriod(cert: Certificate, now: Time)
  {
    cert.tbs.notBefore <= now <= cert.tbs.notAfter
  }

  predicate SignatureValid(cert: Certificate, key: PublicKey)
  {
    cert.signature == Signature(key, cert.tbs)
  }

  /** Path validation with one trusted root and no intermediates. */
  predicate Chains(root: Certificate, leaf: Certificate, now: Time)
  {
    && InPeriod(leaf, now)
    && (leaf == root
        || (&& leaf.tbs.issuer == root.tbs.subject
            && root.tbs.isCA
            && InPeriod(root, now)
            && SignatureValid(leaf, root.tbs.publicKey)))
  }

  function VerifyAgainst(caCert: Certificate, leaf: Certificate, now: Time): Result<Principal, Error>
  {
    if !Chains(caCert, leaf, now) then Err(BadChain)
    else
      match PrincipalFromCert(leaf)
      case Err(e) => Err(e)
      case Ok(p) => if p.meshId != MeshOf(caCert) then Err(MeshMismatch) else Ok(p)
  }

  /** What NewCA makes: for labels only, a self-signed authority over its key for ten years. */
  lemma AuthorityIs(meshId: string, key: nat, serial: nat, now: Time, pad: Pad)
    ensures var r := NewCA(meshId, key, serial, now, pad);
            && (r.Ok? <==> ValidLabel(meshId)) && (r.Err? ==> r.error == InvalidNodeId)
            && (r.Ok? ==>
                  && r.value.key == key && MeshOf(r.value.cert) == meshId && r.value.cert.tbs.isCA
                  && r.value.cert.tbs.publicKey == P256(key) && r.value.cert.tbs.serial == serial
                  && r.value.cert.tbs.issuer == r.value.cert.tbs.subject
                  && r.value.cert.signature == Signature(P256(key), r.value.cert.tbs)
                  && r.value.cert.tbs.notBefore == WholeSeconds(now - 300_000_000_000)
                  && r.value.cert.tbs.notAfter == WholeSeconds(now + 3650 * 24 * 3_600_000_000_000))
  {
  }

  function WholeSeconds(t: Time): Time
  {
    t - t % 1_000_000_000
  }

  /** When Sign refuses, in the order of its checks. */
  lemma SignAnswers(ca: Authority, req: SignRequest, serial: nat, now: Time, pad: Pad)
    ensures var r, p := Sign(ca, req, serial, now, pad), req.principal;
            var ours, named := p.meshId == MeshOf(ca.cert), ValidLabel(p.name);
            var roled := p.role == "node" || p.role == "admin";
            && (r == Err(MeshMismatch) <==> !ours)
            && (r == Err(InvalidNodeId) <==> ours && !named)
            && (r == Err(BadPrincipal) <==> ours && named && !roled)
            && (r == Err(KeyRequired) <==> ours && named && roled && req.publicKey.None?)
            && (r == Err(BadTtl) <==> ours && named && roled && req.publicKey.Some? && req.ttl <= 0)
            && (r == Err(KeyMismatch) <==> ours && named && roled && req.publicKey.Some? && req.ttl > 0
                                           && ca.cert.tbs.publicKey != P256(ca.key))
            && (r.Ok? <==> ours && named && roled && req.publicKey.Some? && req.ttl > 0
                           && ca.cert.tbs.publicKey == P256(ca.key))
  {
  }

  /** What a signed certificate says. */
  lemma SignedSays(ca: Authority, req: SignRequest, serial: nat, now: Time, pad: Pad)
    requires Sign(ca, req, serial, now, pad).Ok?
    ensures var tbs, p := Sign(ca, req, serial, now, pad).value.tbs, req.principal;
            && tbs.serial == serial && tbs.subject == Name(p.name, [p.meshId]) && tbs.issuer == ca.cert.tbs.subject
            && tbs.publicKey == req.publicKey.value && !tbs.isCA
            && tbs.uris == ["lcm://" + p.meshId + "/" + p.role + "/" + p.name]
            && tbs.dnsNames == (if p.role == "node" then [p.name] else [])
            && tbs.notBefore == WholeSeconds(now - 300_000_000_000) && tbs.notAfter == WholeSeconds(now + req.ttl)
            && Sign(ca, req, serial, now, pad).value.signature == Signature(ca.cert.tbs.publicKey, tbs)
  {
    UriText(req.principal);
  }

  /** Everything that verifies under an authority, and nothing else: the authority's key signed it
      under its name, both periods cover the instant, and its principal is of this mesh. */
  lemma VerifyExactly(meshId: string, key: nat, serial: nat, born: Time, pad: Pad, leaf: Certificate, now: Time,
                      p: Principal)
    requires NewCA(meshId, key, serial, born, pad).Ok?
    ensures VerifyAgainst(NewCA(meshId, key, serial, born, pad).value.cert, leaf, now) == Ok(p)
            <==> && leaf.signature == Signature(P256(key), leaf.tbs)
                 && leaf.tbs.issuer == Name("Local Compute Mesh CA", [meshId])
                 && leaf.tbs.notBefore <= now <= leaf.tbs.notAfter
                 && WholeSeconds(born - 300_000_000_000) <= now <= WholeSeconds(born + 3650 * 24 * 3_600_000_000_000)
                 && PrincipalFromUris(leaf.tbs.uris) == Ok(p) && p.meshId == meshId
  {
    AuthorityIs(meshId, key, serial, born, pad);
  }

  /** Under any root at all: what verifies is the root itself, or was signed by the root's key under the
      root's name while the root is an authority in its period. */
  lemma VerifyNeeds(caCert: Certificate, leaf: Certificate, now: Time)
    requires VerifyAgainst(caCert, leaf, now).Ok?
    ensures leaf.tbs.notBefore <= now <= leaf.tbs.notAfter
    ensures leaf != caCert ==>
              && caCert.tbs.isCA && leaf.tbs.issuer == caCert.tbs.subject
              && leaf.signature == Signature(caCert.tbs.publicKey, leaf.tbs)
              && caCert.tbs.notBefore <= now <= caCert.tbs.notAfter
    ensures PrincipalFromUris(leaf.tbs.uris) == VerifyAgainst(caCert, leaf, now)
    ensures caCert.tbs.subject.organization != [] ==>
              VerifyAgainst(caCert, leaf, now).value.meshId == caCert.tbs.subject.organization[0]
  {
  }

  /** The refusals of verification, for any root. */
  lemma VerifyRefuses(caCert: Certificate, leaf: Certificate, now: Time)
    ensures var r, p := VerifyAgainst(caCert, leaf, now), PrincipalFromUris(leaf.tbs.uris);
            && (r == Err(BadChain) <==> !Chains(caCert, leaf, now))
            && (Chains(caCert, leaf, now) && p.Err? ==> r == p)
            && (r == Err(MeshMismatch) <==> Chains(caCert, leaf, now) && p.Ok? && p.value.meshId != MeshOf(caCert))
  {
    UrisRefuse(leaf.tbs.uris);
  }

  lemma {:induction false} UrisRefuse(uris: seq<string>)
    ensures var p := PrincipalFromUris(uris);
            p.Err? ==> p.error == NoMeshUri || p.error == BadPrincipal
  {
    if uris != [] {
      UrisRefuse(uris[1..]);
    }
  }

  /** A certificate lives exactly from five minutes before it was signed for the lifetime asked for, in
      whole seconds, and never outside the ten years of its authority. */
  lemma ValidityExactly(meshId: string, key: nat, caSerial: nat, born: Time, caPad: Pad,
                        req: SignRequest, serial: nat, signedAt: Time, pad: Pad, now: Time)
    requires NewCA(meshId, key, caSerial, born, caPad).Ok?
    requires Sign(NewCA(meshId, key, caSerial, born, caPad).value, req, serial, signedAt, pad).Ok?
    ensures var ca := NewCA(meshId, key, caSerial, born, caPad).value;
            var r := VerifyAgainst(ca.cert, Sign(ca, req, serial, signedAt, pad).value, now);
            && (r == Ok(req.principal)
                <==> && WholeSeconds(signedAt - 300_000_000_000) <= now <= WholeSeconds(signedAt + req.ttl)
                     && WholeSeconds(born - 300_000_000_000) <= now
                     && now <= WholeSeconds(born + 3650 * 24 * 3_600_000_000_000))
            && (now > signedAt + req.ttl || now > born + 3650 * 24 * 3_600_000_000_000 ==> r.Err?)
            && (now <= signedAt - 301_000_000_000 || now <= born - 301_000_000_000 ==> r.Err?)
  {
    var ca := NewCA(meshId, key, caSerial, born, caPad).value;
    SignThenVerify(meshId, key, caSerial, born, caPad, req, serial, signedAt, pad, now);
    SignedSays(ca, req, serial, signedAt, pad);
    AuthorityIs(meshId, key, caSerial, born, caPad);
  }

  /** For a CA from NewCA, a signed certificate verifies to exactly the requested principal, and it
      does so exactly inside both validity periods. */
  lemma SignThenVerify(meshId: string, key: nat, caSerial: nat, born: Time, caPad: Pad,
                       req: SignRequest, serial: nat, signedAt: Time, pad: Pad, now: Time)
    requires NewCA(meshId, key, caSerial, born, caPad).Ok?
    requires Sign(NewCA(meshId, key, caSerial, born, caPad).value, req, serial, signedAt, pad).Ok?
    ensures var ca := NewCA(meshId, key, caSerial, born, caPad).value;
            var leaf := Sign(ca, req, serial, signedAt, pad).value;
            && (VerifyAgainst(ca.cert, leaf, now) == Ok(req.principal)
                <==> InPeriod(ca.cert, now) && InPeriod(leaf, now))
            && (VerifyAgainst(ca.cert, leaf, now).Err? <==> !(InPeriod(ca.cert, now) && InPeriod(leaf, now)))
            && leaf.tbs.publicKey == req.publicKey.value
            && leaf.tbs.dnsNames == (if req.principal.role == ROLE_NODE then [req.principal.name] else [])
  {
    UriTextRoundTrip(req.principal);
  }

  /** The backdating at work: a verifier whose clock runs up to five minutes behind the signer's
      accepts the certificate, and so does any other until the last second of its lifetime. */
  lemma ClockSkewTolerated(meshId: string, key: nat, caSerial: nat, born: Time, caPad: Pad,
                           req: SignRequest, serial: nat, signedAt: Time, pad: Pad, now: Time)
    requires NewCA(meshId, key, caSerial, born, caPad).Ok?
    requires Sign(NewCA(meshId, key, caSerial, born, caPad).value, req, serial, signedAt, pad).Ok?
    requires born - 5 * MINUTE <= now <= born + CA_CERT_TTL - SECOND
    requires signedAt - 5 * MINUTE <= now <= signedAt + req.ttl - SECOND
    ensures var ca := NewCA(meshId, key, caSerial, born, caPad).value;
            VerifyAgainst(ca.cert, Sign(ca, req, serial, signedAt, pad).value, now) == Ok(req.principal)
  {
    SignThenVerify(meshId, key, caSerial, born, caPad, req, serial, signedAt, pad, now);
    SecondsBounds(born - BACKDATE);
    SecondsBounds(born + CA_CERT_TTL);
    SecondsBounds(signedAt - BACKDATE);
    SecondsBounds(signedAt + req.ttl);
  }

  lemma SecondsBounds(t: Time)
    ensures t - SECOND < Seconds(t) <= t
  {
  }

  // Transport.

  datatype Identity = Identity(principal: Principal, caCert: Certificate, cert: Certificate, key: nat)

  function NewIdentity(caCert: Certificate, cert: Certificate, key: nat, now: Time): Result<Identity, Error>
  {
    if cert.tbs.publicKey != P256(key) then Err(KeyMismatch)
    else
      match VerifyAgainst(caCert, cert, now)
      case Err(e) => Err(e)
      case Ok(p) => Ok(Identity(p, caCert, cert, key))
  }

  /** An identity loads exactly if the key is the certificate's and the certificate verifies; the key
      is looked at first. */
  lemma LoadExactly(caCert: Certificate, cert: Certificate, key: nat, now: Time)
    ensures var r, v := NewIdentity(caCert, cert, key, now), VerifyAgainst(caCert, cert, now);
            && (r == Err(KeyMismatch) <==> cert.tbs.publicKey != P256(key))
            && (cert.tbs.publicKey == P256(key) && v.Err? ==> r == Err(v.error))
            && (r.Ok? ==> r.value == Identity(v.value, caCert, cert, key))
            && (r.Ok? <==> cert.tbs.publicKey == P256(key) && v.Ok?)
  {
    VerifyRefuses(caCert, cert, now);
    UrisRefuse(cert.tbs.uris);
  }

  /** The hook that runs after the standard chain check; `chain` is the first verified chain. */
  function VerifyPeer(id: Identity, chain: seq<Certificate>): Result<(), Error>
  {
    if chain == [] then Err(NoPeerCert)
    else
      match PrincipalFromCert(chain[0])
      case Err(e) => Err(e)
      case Ok(p) => if p.meshId != id.principal.meshId then Err(MeshMismatch) else Ok(())
  }

  /** The hook answers for any chain: there must be a certificate, it must name a principal, and that
      principal must be of our mesh. */
  lemma HookAnswers(id: Identity, chain: seq<Certificate>)
    ensures var r := VerifyPeer(id, chain);
            if chain == [] then r == Err(NoPeerCert)
            else
              var p := PrincipalFromUris(chain[0].tbs.uris);
              && (p.Err? ==> r == Err(p.error))
              && (p.Ok? ==> r == if p.value.meshId == id.principal.meshId then Ok(()) else Err(MeshMismatch))
  {
  }

  /** The hooks of two loaded identities accept each other exactly if their authorities name the same
      mesh, in particular under one authority. */
  lemma PeersAcceptEachOther(caCert1: Certificate, cert1: Certificate, key1: nat, t1: Time,
                             caCert2: Certificate, cert2: Certificate, key2: nat, t2: Time)
    requires NewIdentity(caCert1, cert1, key1, t1).Ok? && NewIdentity(caCert2, cert2, key2, t2).Ok?
    ensures var id1, id2 := NewIdentity(caCert1, cert1, key1, t1).value, NewIdentity(caCert2, cert2, key2, t2).value;
            && (VerifyPeer(id1, [cert2, caCert2]).Ok? <==> MeshOf(caCert1) == MeshOf(caCert2))
            && (VerifyPeer(id2, [cert1, caCert1]).Ok? <==> MeshOf(caCert1) == MeshOf(caCert2))
  {
  }

  /** From the CA to the handshake: any two leaves the CA signed, loaded inside the validity
      periods, carry the principals asked for and pass each other's hook. */
  lemma MeshAcceptsItsOwn(meshId: string, key: nat, caSerial: nat, born: Time, caPad: Pad,
                          req1: SignRequest, serial1: nat, at1: Time, pad1: Pad, key1: nat, t1: Time,
                          req2: SignRequest, serial2: nat, at2: Time, pad2: Pad, key2: nat, t2: Time)
    requires NewCA(meshId, key, caSerial, born, caPad).Ok?
    requires var ca := NewCA(meshId, key, caSerial, born, caPad).value;
             && Sign(ca, req1, serial1, at1, pad1).Ok? && Sign(ca, req2, serial2, at2, pad2).Ok?
             && req1.publicKey == Some(P256(key1)) && req2.publicKey == Some(P256(key2))
             && InPeriod(ca.cert, t1) && InPeriod(Sign(ca, req1, serial1, at1, pad1).value, t1)
             && InPeriod(ca.cert, t2) && InPeriod(Sign(ca, req2, serial2, at2, pad2).value, t2)
    ensures var ca := NewCA(meshId, key, caSerial, born, caPad).value;
            var c1 := Sign(ca, req1, serial1, at1, pad1).value;
            var c2 := Sign(ca, req2, serial2, at2, pad2).value;
            && NewIdentity(ca.cert, c1, key1, t1) == Ok(Identity(req1.principal, ca.cert, c1, key1))
            && NewIdentity(ca.cert, c2, key2, t2) == Ok(Identity(req2.principal, ca.cert, c2, key2))
            && VerifyPeer(Identity(req1.principal, ca.cert, c1, key1), [c2, ca.cert]).Ok?
            && VerifyPeer(Identity(req2.principal, ca.cert, c2, key2), [c1, ca.cert]).Ok?
  {
    SignThenVerify(meshId, key, caSerial, born, caPad, req1, serial1, at1, pad1, t1);
    SignThenVerify(meshId, key, caSerial, born, caPad, req2, serial2, at2, pad2, t2);
    UriTextRoundTrip(req1.principal);
    UriTextRoundTrip(req2.principal);
  }
}
