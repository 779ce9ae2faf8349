/** A mesh with its coordinator, and what each stage of a pairing does for an honest joiner. */
module HonestJoin {
  import opened Terms
  import opened Messages
  import opened PairerModel
  import opened Joining
  import Der
  import Pki
  import Labels
  import Decimal

  /** A mesh with its authority and a coordinator serving on it. */
  datatype Mesh = Mesh(id: string, key: nat, serial: nat, born: Time, pad: Pad,
                       coordinator: Certificate, coordinatorKey: nat, loadedAt: Time, port: nat, nodeTtl: Time)

  function CaOf(m: Mesh): Result<Pki.Authority, Pki.Error>
  {
    Pki.NewCA(m.id, m.key, m.serial, m.born, m.pad)
  }

  function ServerOf(m: Mesh): Result<Server, Pki.Error>
  {
    match CaOf(m)
    case Err(e) => Err(e)
    case Ok(ca) =>
      match Pki.NewIdentity(ca.cert, m.coordinator, m.coordinatorKey, m.loadedAt)
      case Err(e) => Err(e)
      case Ok(identity) => NewServer(identity, ca, m.port, m.nodeTtl)
  }

  /** The coordinator runs with a node identity of its own mesh. */
  predicate Serving(m: Mesh)
  {
    ServerOf(m).Ok? && ServerOf(m).value.identity.principal.role == Pki.ROLE_NODE
  }

  lemma ServerSays(m: Mesh)
    requires Serving(m)
    ensures CaOf(m).Ok? && Labels.ValidLabel(m.id)
    ensures var server := ServerOf(m).value;
            && server.cfg.ca == CaOf(m).value && server.cfg.nodeTtl > 0
            && server.cfg.serverCert == server.identity.cert == m.coordinator
            && server.grpcPort == m.port
            && Pki.NewIdentity(CaOf(m).value.cert, m.coordinator, m.coordinatorKey, m.loadedAt) == Ok(server.identity)
  {
  }

  /** The coordinator's own certificate still verifies whenever both periods cover the instant. */
  lemma CoordinatorVerifies(m: Mesh, now: Time)
    requires Serving(m) && Pki.InPeriod(CaOf(m).value.cert, now) && Pki.InPeriod(m.coordinator, now)
    ensures Pki.VerifyAgainst(CaOf(m).value.cert, m.coordinator, now) == Ok(ServerOf(m).value.identity.principal)
  {
    ServerSays(m);
  }

  lemma PortOf(port: nat)
    ensures SplitHostPort(":" + Decimal.Itoa(port)) == Some(("", Decimal.Itoa(port)))
  {
    var digits := Decimal.Itoa(port);
    assert forall i | 0 <= i < |digits| :: Decimal.IsDigit(digits[i]);
    SplitPlain("", digits);
    assert "" + ":" + digits == ":" + digits;
  }

  /** The matching loop finds the joiner's code among any candidates, in any order. */
  lemma LoopFindsJoiner(order: seq<string>, candidates: set<string>, session: Session, server: Certificate, j: Joiner)
    requires Enumerates(order, candidates) && j.code in candidates && forall c | c in candidates :: ValidCode(c)
    requires j.session == session.id && j.salt == session.salt && j.serverCert == server
    ensures MatchLoop(order, session, CertHash(server), JoinerCsr(j), JoinerTag(j)) == j.code
  {
    assert forall i | 0 <= i < |order| :: order[i] in order;
    MatchLoopFinds(order, session, CertHash(server), JoinerCsr(j), JoinerTag(j));
    assert j.code in order && Opens(j.code, session, CertHash(server), JoinerCsr(j), JoinerTag(j));
  }

  /** Once the code is spent, a certificate comes out exactly for a well-formed request that is signed
      by its own P-256 key and has a label for a subject. */
  lemma ServedExactly(m: Mesh, code: string, session: Session, csr: Bytes, serial: nat, at: Time, pad: Pad)
    requires Serving(m)
    ensures CanSign(ServerOf(m).value.cfg)
    ensures CertifyOp(ServerOf(m).value.cfg, code, session, csr, serial, at, pad).Ok?
            <==> && Der.ParseRequest(csr).Some?
                 && var req := Der.ParseRequest(csr).value;
                 req.signedBy == req.publicKey && req.publicKey.P256? && Labels.ValidLabel(req.commonName)
  {
    ServerSays(m);
    CertifyExactly(ServerOf(m).value.cfg, code, session, csr, serial, at, pad);
  }

  /** The certificate that the coordinator signs for a node's name and key. */
  function NodeCert(m: Mesh, nodeId: string, key: nat, serial: nat, at: Time, pad: Pad): Result<Certificate, Pki.Error>
    requires Serving(m)
  {
    var cfg := ServerOf(m).value.cfg;
    var req := Pki.SignRequest(Pki.Principal(m.id, Pki.ROLE_NODE, nodeId), Some(P256(key)), cfg.nodeTtl);
    Pki.Sign(cfg.ca, req, serial, at, pad)
  }

  /** The joiner's own request is signed for its name and key. */
  lemma SigningSucceeds(m: Mesh, session: Session, j: Joiner, serial: nat, at: Time, pad: Pad)
    requires Serving(m) && Labels.ValidLabel(j.nodeId)
    requires j.request.commonName == j.nodeId && j.request.publicKey == j.request.signedBy == P256(j.key)
    ensures NodeCert(m, j.nodeId, j.key, serial, at, pad).Ok?
    ensures var cfg, node := ServerOf(m).value.cfg, NodeCert(m, j.nodeId, j.key, serial, at, pad).value;
            CertifyOp(cfg, j.code, session, JoinerCsr(j), serial, at, pad)
            == Ok(Bundle(cfg.ca.cert, node, m.id,
                         ServerMac(DeriveKey(j.code, session.salt), session.id, Der.Raw(cfg.ca.cert), Der.Raw(node))))
  {
    ServerSays(m);
    Der.ParseRequestRoundTrip(j.request);
  }

  /** The node's and the coordinator's certificates are in their periods when Join checks them. */
  predicate ClocksFit(m: Mesh, nodeId: string, key: nat, serial: nat, at: Time, pad: Pad, now: Time, later: Time)
    requires Serving(m)
  {
    var ca, node := ServerOf(m).value.cfg.ca.cert, NodeCert(m, nodeId, key, serial, at, pad);
    && Pki.InPeriod(ca, now) && (node.Ok? ==> Pki.InPeriod(node.value, now))
    && Pki.InPeriod(ca, later) && Pki.InPeriod(m.coordinator, later)
  }

  /** The reply to a pairing passes every check that Join makes. */
  lemma ReplyPasses(m: Mesh, session: Session, j: Joiner, node: Certificate, serial: nat, at: Time, pad: Pad,
                    addr: string, host: string, dialled: string, now: Time, later: Time)
    requires Serving(m) && Labels.ValidLabel(j.nodeId) && Writes(addr, host, dialled)
    requires j.session == session.id && j.salt == session.salt && j.serverCert == m.coordinator
    requires NodeCert(m, j.nodeId, j.key, serial, at, pad) == Ok(node)
    requires ClocksFit(m, j.nodeId, j.key, serial, at, pad, now, later)
    ensures var server := ServerOf(m).value;
            var ca := server.cfg.ca.cert;
            var mac := ServerMac(DeriveKey(j.code, session.salt), session.id, Der.Raw(ca), Der.Raw(node));
            var bundle := Bundle(ca, node, m.id, mac);
            JoinFinish(j, ReplyTo(server, bundle), Some(m.coordinator), addr, now, later)
            == Ok(JoinResult(j.key, bundle, server.identity.principal.name,
                             (if ':' in host then "[" + host + "]:" else host + ":") + Decimal.Itoa(m.port)))
  {
    ServerSays(m);
    var server := ServerOf(m).value;
    var principal := Pki.Principal(m.id, Pki.ROLE_NODE, j.nodeId);
    var req := Pki.SignRequest(principal, Some(P256(j.key)), server.cfg.nodeTtl);
    Pki.SignThenVerify(m.id, m.key, m.serial, m.born, m.pad, req, serial, at, pad, now);
    Der.ParseCertificateRoundTrip(server.cfg.ca.cert);
    Der.ParseCertificateRoundTrip(node);
    CoordinatorVerifies(m, later);
    PortOf(m.port);
    CoordinatorAddress(addr, host, dialled, Decimal.Itoa(m.port));
  }

  /** The certificate loads as an identity of the node whenever its period and the CA's allow. */
  lemma NodeCertLoads(m: Mesh, nodeId: string, key: nat, serial: nat, at: Time, pad: Pad, loadAt: Time)
    requires Serving(m) && NodeCert(m, nodeId, key, serial, at, pad).Ok?
    requires Pki.InPeriod(ServerOf(m).value.cfg.ca.cert, loadAt)
    requires Pki.InPeriod(NodeCert(m, nodeId, key, serial, at, pad).value, loadAt)
    ensures var ca, node := ServerOf(m).value.cfg.ca.cert, NodeCert(m, nodeId, key, serial, at, pad).value;
            Pki.NewIdentity(ca, node, key, loadAt)
            == Ok(Pki.Identity(Pki.Principal(m.id, Pki.ROLE_NODE, nodeId), ca, node, key))
  {
    ServerSays(m);
    var req := Pki.SignRequest(Pki.Principal(m.id, Pki.ROLE_NODE, nodeId), Some(P256(key)),
                               ServerOf(m).value.cfg.nodeTtl);
    Pki.SignThenVerify(m.id, m.key, m.serial, m.born, m.pad, req, serial, at, pad, loadAt);
  }

  /** Any label and any node name give a mesh that serves. */
  lemma MeshExists(id: string, name: string, key: nat, coordinatorKey: nat, t: Time, port: nat, pad: Pad)
    returns (m: Mesh)
    requires Labels.ValidLabel(id) && Labels.ValidLabel(name)
    ensures Serving(m) && m.id == id && m.port == port
    ensures Pki.InPeriod(ServerOf(m).value.cfg.ca.cert, t) && Pki.InPeriod(m.coordinator, t)
    ensures ServerOf(m).value.cfg.nodeTtl == Pki.DEFAULT_NODE_CERT_TTL
  {
    var ca := Pki.NewCA(id, key, 0, t, pad).value;
    var req := Pki.SignRequest(Pki.Principal(id, Pki.ROLE_NODE, name), Some(P256(coordinatorKey)), HOUR);
    var coordinator := Pki.Sign(ca, req, 1, t, pad).value;
    Pki.ClockSkewTolerated(id, key, 0, t, pad, req, 1, t, pad, t);
    m := Mesh(id, key, 0, t, pad, coordinator, coordinatorKey, t, port, 0);
  }
}
