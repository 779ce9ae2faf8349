/** The joiner's half of the pairing protocol and the coordinator's replies. */
module Joining {
  import opened Terms
  import opened Messages
  import opened PairerModel
  import Der
  import Pki
  import Labels
  import Decimal

  datatype JoinError =
    | BadFormat
    | BadNodeId
    | NoServerCert
    | ServerCertChanged
    | BadCaCert
    | BadNodeCert
    | BundleMac
    | BundleChain(cause: Pki.Error)
    | BundlePrincipal
    | BundleMesh
    | WrongKey
    | ServerChain(cause: Pki.Error)
    | WrongCoordinator
    | BadAddress

  // Wire messages.

  datatype BeginReply = BeginReply(session: Bytes, salt: Bytes, meshId: string)

  datatype CompleteReply = CompleteReply(
    caDer: Bytes,
    nodeDer: Bytes,
    meshId: string,
    coordinatorNodeId: string,
    coordinatorGrpcAddr: string,
    serverMac: Tag)

  // The coordinator's service.

  datatype Server = Server(identity: Pki.Identity, grpcPort: nat, cfg: Config)

  /** Refuses an identity from another mesh; its certificate is the one the listener presents. */
  function NewServer(identity: Pki.Identity, ca: Pki.Authority, grpcPort: nat, nodeTtl: Time): Result<Server, Pki.Error>
  {
    if identity.principal.meshId != Pki.MeshOf(ca.cert) then Err(Pki.MeshMismatch)
    else
      var ttl := if nodeTtl <= 0 then Pki.DEFAULT_NODE_CERT_TTL else nodeTtl;
      Ok(Server(identity, grpcPort, Config(ca, identity.cert, ttl)))
  }

  /** A coordinator serves exactly with an identity of the authority's mesh; an identity loaded under
      another authority will not do unless that one names the same mesh. */
  lemma ServesOwnMesh(caCert: Certificate, cert: Certificate, key: nat, now: Time,
                      ca: Pki.Authority, grpcPort: nat, nodeTtl: Time)
    requires Pki.NewIdentity(caCert, cert, key, now).Ok?
    ensures var identity := Pki.NewIdentity(caCert, cert, key, now).value;
            var r := NewServer(identity, ca, grpcPort, nodeTtl);
            && (r.Ok? <==> Pki.MeshOf(caCert) == Pki.MeshOf(ca.cert))
            && (r.Err? ==> r.error == Pki.MeshMismatch)
            && (r.Ok? ==> r.value.identity == identity && r.value.grpcPort == grpcPort && r.value.cfg.ca == ca
                          && r.value.cfg.serverCert == cert
                          && r.value.cfg.nodeTtl == if nodeTtl > 0 then nodeTtl else 30 * 24 * 3_600_000_000_000)
  {
    Pki.LoadExactly(caCert, cert, key, now);
  }

  datatype BeginRequest = BeginRequest(nodeId: string)

  /** The node id that the joiner announces is logged and has no other use. */
  function ServeBegin(server: Server, store: Store, now: Time, request: BeginRequest, id: Bytes, salt: Bytes,
                      later: Time)
    : (Store, Result<BeginReply, Error>)
  {
    var (t, result) := BeginOp(store, now, id, salt, later);
    match result
    case Err(e) => (t, Err(e))
    case Ok(session) => (t, Ok(BeginReply(session.id, session.salt, Pki.MeshOf(server.cfg.ca.cert))))
  }

  function ReplyTo(server: Server, b: Bundle): CompleteReply
  {
    CompleteReply(Der.Raw(b.caCert), Der.Raw(b.nodeCert), b.meshId, server.identity.principal.name,
                  ":" + Decimal.Itoa(server.grpcPort), b.serverMac)
  }

  // Addresses.

  /** The last colon separates the port. A host in brackets ends at the first closing one, which
      stands right before that colon; no other bracket may occur anywhere. */
  function SplitHostPort(s: string): Option<(string, string)>
  {
    match LastColon(s)
    case None => None
    case Some(i) =>
      if s[0] == '[' then
        if i >= 2 && s[i - 1] == ']' && ']' !in s[..i - 1] && '[' !in s[1..] && ']' !in s[i..]
        then Some((s[1..i - 1], s[i + 1..])) else None
      else if ':' in s[..i] || '[' in s || ']' in s then None
      else Some((s[..i], s[i + 1..]))
  }

  function LastColon(s: string): (r: Option<nat>)
    ensures r.Some? ==> r.value < |s| && s[r.value] == ':' && forall k | r.value < k < |s| :: s[k] != ':'
    ensures r.None? ==> forall k | 0 <= k < |s| :: s[k] != ':'
  {
    if s == "" then None
    else if s[|s| - 1] == ':' then Some(|s| - 1)
    else LastColon(s[..|s| - 1])
  }

  lemma {:induction false} LastColonIs(s: string, n: nat)
    requires n < |s| && s[n] == ':' && forall k | n < k < |s| :: s[k] != ':'
    ensures LastColon(s) == Some(n)
  {
    var r := LastColon(s);
    assert r.Some? && r.value >= n;
  }

  lemma LastColonAt(s: string, front: string, back: string)
    requires ':' !in back && s == front + ":" + back
    ensures LastColon(s) == Some(|front|)
  {
    var n := |front|;
    forall k | n < k < |s| ensures s[k] != ':' {
      assert s[k] == back[k - n - 1];
    }
    LastColonIs(s, n);
  }

  predicate NoBrackets(s: string)
  {
    '[' !in s && ']' !in s
  }

  /** The two ways to write an address. */
  predicate Writes(s: string, host: string, port: string)
  {
    && NoBrackets(host) && NoBrackets(port) && ':' !in port
    && (s == "[" + host + "]:" + port || (':' !in host && s == host + ":" + port))
  }

  lemma SplitBracketed(host: string, port: string)
    requires NoBrackets(host) && NoBrackets(port) && ':' !in port
    ensures SplitHostPort("[" + host + "]:" + port) == Some((host, port))
  {
    var front := "[" + host + "]";
    var s := front + ":" + port;
    assert s == "[" + host + "]:" + port;
    LastColonAt(s, front, port);
    var i := |front|;
    assert s[i - 1] == ']' && s[1..i - 1] == host && s[i + 1..] == port;
    assert forall k | 0 <= k < |s| && s[k] == ']' :: k == i - 1;
    assert forall k | 0 <= k < |s| && s[k] == '[' :: k == 0;
  }

  lemma SplitPlain(host: string, port: string)
    requires NoBrackets(host) && ':' !in host && NoBrackets(port) && ':' !in port
    ensures SplitHostPort(host + ":" + port) == Some((host, port))
  {
    var s := host + ":" + port;
    LastColonAt(s, host, port);
    assert s[..|host|] == host && s[|host| + 1..] == port;
    assert NoBrackets(s);
    assert s[0] == (if host == "" then ':' else host[0]);
    assert s[0] in s;
  }

  /** An address splits exactly as it is written. */
  lemma SplitExactly(s: string, host: string, port: string)
    ensures SplitHostPort(s) == Some((host, port)) <==> Writes(s, host, port)
  {
    if Writes(s, host, port) {
      if s == "[" + host + "]:" + port {
        SplitBracketed(host, port);
      } else {
        SplitPlain(host, port);
      }
    }
    if SplitHostPort(s) == Some((host, port)) {
      SplitIsWritten(s, host, port);
    }
  }

  lemma SplitIsWritten(s: string, host: string, port: string)
    requires SplitHostPort(s) == Some((host, port))
    ensures Writes(s, host, port)
  {
    var i := LastColon(s).value;
    if s[0] == '[' {
      BracketsAround(s, i);
    } else {
      assert s == s[..i] + ":" + s[i + 1..];
    }
  }

  lemma BracketsAround(s: string, i: nat)
    requires 2 <= i < |s| && s[0] == '[' && s[i - 1] == ']' && s[i] == ':'
    requires ']' !in s[..i - 1] && '[' !in s[1..] && ']' !in s[i..]
    ensures s == "[" + s[1..i - 1] + "]:" + s[i + 1..]
    ensures NoBrackets(s[1..i - 1]) && NoBrackets(s[i + 1..])
  {
    assert forall k | 0 <= k < |s| && s[k] == '[' :: k == 0 by {
      assert forall k | 0 < k < |s| :: s[k] == s[1..][k - 1];
    }
    assert forall k | 0 <= k < |s| && s[k] == ']' :: k == i - 1 by {
      assert forall k | 0 <= k < i - 1 :: s[k] == s[..i - 1][k];
      assert forall k | i <= k < |s| :: s[k] == s[i..][k - i];
    }
  }

  /** What Join returns for the coordinator: the host it dialled, with the port it was told. */
  lemma CoordinatorAddress(addr: string, host: string, dialled: string, told: string)
    requires Writes(addr, host, dialled)
    ensures SplitHostPort(addr).Some?
    ensures JoinHostPort(SplitHostPort(addr).value.0, told)
            == if ':' in host then "[" + host + "]:" + told else host + ":" + told
  {
    SplitExactly(addr, host, dialled);
  }

  /** Joining and splitting are inverse. */
  lemma HostPortRoundTrip(host: string, port: string)
    requires NoBrackets(host) && NoBrackets(port) && ':' !in port
    ensures SplitHostPort(JoinHostPort(host, port)) == Some((host, port))
  {
    SplitExactly(JoinHostPort(host, port), host, port);
  }

  function JoinHostPort(host: string, port: string): string
  {
    if ':' in host then "[" + host + "]:" + port else host + ":" + port
  }

  // The joiner.

  /** A joiner that has sent its Complete request. */
  datatype Joiner = Joiner(
    code: string,
    nodeId: string,
    key: nat,
    request: CertRequest,
    session: Bytes,
    salt: Bytes,
    serverCert: Certificate)

  datatype JoinResult = JoinResult(key: nat, bundle: Bundle, coordinatorNodeId: string, coordinatorGrpcAddr: string)

  /** Join up to the Complete call; `peer` is the certificate seen on the Begin call. */
  function JoinStart(code: string, nodeId: string, key: nat, pad: Pad, begin: BeginReply, peer: Option<Certificate>)
    : Result<Joiner, JoinError>
  {
    if !ValidCode(code) then Err(BadFormat)
    else
      match Pki.NewCsr(nodeId, key, pad)
      case Err(_) => Err(BadNodeId)
      case Ok(request) =>
        if peer.None? then Err(NoServerCert)
        else Ok(Joiner(code, nodeId, key, request, begin.session, begin.salt, peer.value))
  }

  /** The joiner came out of JoinStart, with whatever Begin reply and certificate the network chose.
      JoinStart makes no use of the mesh id in the reply. */
  predicate Started(joiner: Joiner)
  {
    JoinStart(joiner.code, joiner.nodeId, joiner.key, joiner.request.pad,
              BeginReply(joiner.session, joiner.salt, ""), Some(joiner.serverCert)) == Ok(joiner)
  }

  lemma StartedSays(joiner: Joiner)
    requires Started(joiner)
    ensures ValidCode(joiner.code) && Labels.ValidLabel(joiner.nodeId)
    ensures joiner.request.commonName == joiner.nodeId
    ensures joiner.request.publicKey == joiner.request.signedBy == P256(joiner.key)
  {
  }

  function JoinerKey(j: Joiner): Key
  {
    DeriveKey(j.code, j.salt)
  }

  function JoinerCsr(j: Joiner): Bytes
  {
    Der.RawRequest(j.request)
  }

  function JoinerTag(j: Joiner): Tag
  {
    ClientMac(JoinerKey(j), j.session, CertHash(j.serverCert), JoinerCsr(j))
  }

  function VerifyBundle(key: Key, session: Bytes, b: Bundle, nodeId: string, now: Time): Result<(), JoinError>
  {
    if ServerMac(key, session, Der.Raw(b.caCert), Der.Raw(b.nodeCert)) != b.serverMac then Err(BundleMac)
    else
      match Pki.VerifyAgainst(b.caCert, b.nodeCert, now)
      case Err(e) => Err(BundleChain(e))
      case Ok(p) =>
        if p.role != Pki.ROLE_NODE || p.name != nodeId then Err(BundlePrincipal)
        else if b.meshId != p.meshId then Err(BundleMesh)
        else Ok(())
  }

  /** Join after the Complete call; `peer` is the certificate seen on that call. */
  function JoinFinish(j: Joiner, reply: CompleteReply, peer: Option<Certificate>, addr: string, now: Time, later: Time)
    : Result<JoinResult, JoinError>
  {
    if peer != Some(j.serverCert) then Err(ServerCertChanged)
    else if Der.ParseCertificate(reply.caDer).None? then Err(BadCaCert)
    else if Der.ParseCertificate(reply.nodeDer).None? then Err(BadNodeCert)
    else
      var caCert := Der.ParseCertificate(reply.caDer).value;
      var nodeCert := Der.ParseCertificate(reply.nodeDer).value;
      var bundle := Bundle(caCert, nodeCert, reply.meshId, reply.serverMac);
      match VerifyBundle(JoinerKey(j), j.session, bundle, j.nodeId, now)
      case Err(e) => Err(e)
      case Ok(_) =>
        if nodeCert.tbs.publicKey != P256(j.key) then Err(WrongKey)
        else
          match Pki.VerifyAgainst(caCert, j.serverCert, later)
          case Err(e) => Err(ServerChain(e))
          case Ok(sp) =>
            if sp.role != Pki.ROLE_NODE || sp.name != reply.coordinatorNodeId then Err(WrongCoordinator)
            else
              match (SplitHostPort(addr), SplitHostPort(reply.coordinatorGrpcAddr))
              case (Some(here), Some(there)) =>
                Ok(JoinResult(j.key, bundle, reply.coordinatorNodeId, JoinHostPort(here.0, there.1)))
              case _ => Err(BadAddress)
  }

  /** What Join refuses before it calls Complete. */
  lemma JoinStartAnswers(code: string, nodeId: string, key: nat, pad: Pad, begin: BeginReply, peer: Option<Certificate>)
    ensures var r := JoinStart(code, nodeId, key, pad, begin, peer);
            && (r == Err(BadFormat) <==> !ValidCode(code))
            && (r == Err(BadNodeId) <==> ValidCode(code) && !Labels.ValidLabel(nodeId))
            && (r == Err(NoServerCert) <==> ValidCode(code) && Labels.ValidLabel(nodeId) && peer.None?)
            && (r.Ok? <==> ValidCode(code) && Labels.ValidLabel(nodeId) && peer.Some?)
            && (r.Ok? ==>
                  r.value == Joiner(code, nodeId, key, CertRequest(nodeId, P256(key), P256(key), pad),
                                    begin.session, begin.salt, peer.value))
  {
  }

  /** What convinces a joiner: two certificates under one authority, one with its own name and key,
      one that the server showed and that bears the coordinator's name, under a MAC of its code. */
  predicate Convincing(j: Joiner, reply: CompleteReply, ca: Certificate, node: Certificate, now: Time, later: Time)
  {
    && reply.caDer == Der.Raw(ca) && reply.nodeDer == Der.Raw(node)
    && reply.serverMac == Hmac(Argon2(j.code, j.salt), ServerMessage(j.session, Der.Raw(ca), Der.Raw(node)))
    && Pki.VerifyAgainst(ca, node, now) == Ok(Pki.Principal(reply.meshId, "node", j.nodeId))
    && node.tbs.publicKey == P256(j.key)
    && Pki.VerifyAgainst(ca, j.serverCert, later) == Ok(Pki.Principal(reply.meshId, "node", reply.coordinatorNodeId))
  }

  /** Join accepts exactly a convincing reply from the endpoint it began with, when both addresses can
      be split. */
  lemma JoinAcceptsExactly(j: Joiner, reply: CompleteReply, peer: Option<Certificate>, addr: string, now: Time,
                           later: Time)
    ensures JoinFinish(j, reply, peer, addr, now, later).Ok?
            <==> && peer == Some(j.serverCert)
                 && (exists ca, node :: Convincing(j, reply, ca, node, now, later))
                 && SplitHostPort(addr).Some? && SplitHostPort(reply.coordinatorGrpcAddr).Some?
  {
    if JoinFinish(j, reply, peer, addr, now, later).Ok? {
      var ca, node := Der.ParseCertificate(reply.caDer).value, Der.ParseCertificate(reply.nodeDer).value;
      assert Convincing(j, reply, ca, node, now, later);
    }
    if ca, node :| Convincing(j, reply, ca, node, now, later) {
      Der.ParseCertificateRoundTrip(ca);
      Der.ParseCertificateRoundTrip(node);
    }
  }

  /** Why a bundle is refused. */
  lemma BundleRefused(key: Key, session: Bytes, b: Bundle, nodeId: string, now: Time)
    ensures var r, mine := VerifyBundle(key, session, b, nodeId, now), Pki.VerifyAgainst(b.caCert, b.nodeCert, now);
            var mac := b.serverMac == Hmac(key, ServerMessage(session, Der.Raw(b.caCert), Der.Raw(b.nodeCert)));
            && (r == Err(BundleMac) <==> !mac)
            && (mac && mine.Err? ==> r == Err(BundleChain(mine.error)))
            && (r == Err(BundlePrincipal) <==>
                  mac && mine.Ok? && (mine.value.role != "node" || mine.value.name != nodeId))
            && (r == Err(BundleMesh) <==>
                  mac && mine.Ok? && mine.value.role == "node" && mine.value.name == nodeId
                  && mine.value.meshId != b.meshId)
            && (r.Ok? <==> mac && mine == Ok(Pki.Principal(b.meshId, "node", nodeId)))
            && (r.Err? ==>
                  r.error.BundleMac? || r.error.BundleChain? || r.error.BundlePrincipal? || r.error.BundleMesh?)
  {
  }

  /** The refusals before the bundle is looked at. */
  lemma ReplyRefused(j: Joiner, reply: CompleteReply, peer: Option<Certificate>, addr: string, now: Time, later: Time)
    ensures var r := JoinFinish(j, reply, peer, addr, now, later);
            var ca, node := Der.ParseCertificate(reply.caDer), Der.ParseCertificate(reply.nodeDer);
            && (r == Err(ServerCertChanged) <==> peer != Some(j.serverCert))
            && (r == Err(BadCaCert) <==> peer == Some(j.serverCert) && ca.None?)
            && (r == Err(BadNodeCert) <==> peer == Some(j.serverCert) && ca.Some? && node.None?)
  {
    var ca, node := Der.ParseCertificate(reply.caDer), Der.ParseCertificate(reply.nodeDer);
    if peer == Some(j.serverCert) && ca.Some? && node.Some? {
      JoinRefused(j, reply, addr, now, later, ca.value, node.value);
    }
  }

  /** The refusals of a reply with two certificates: first those of the bundle, then another key, a
      server that does not chain or is not the coordinator named, and an address that does not split. */
  lemma JoinRefused(j: Joiner, reply: CompleteReply, addr: string, now: Time, later: Time, ca: Certificate,
                    node: Certificate)
    requires reply.caDer == Der.Raw(ca) && reply.nodeDer == Der.Raw(node)
    ensures var r := JoinFinish(j, reply, Some(j.serverCert), addr, now, later);
            var bundle := VerifyBundle(JoinerKey(j), j.session, Bundle(ca, node, reply.meshId, reply.serverMac),
                                       j.nodeId, now);
            var theirs := Pki.VerifyAgainst(ca, j.serverCert, later);
            var mine := bundle.Ok? && node.tbs.publicKey == P256(j.key);
            var named := theirs.Ok? && theirs.value.role == "node" && theirs.value.name == reply.coordinatorNodeId;
            && !(r.Err? && (r.error.ServerCertChanged? || r.error.BadCaCert? || r.error.BadNodeCert?))
            && (bundle.Err? ==> r == Err(bundle.error))
            && (r == Err(WrongKey) <==> bundle.Ok? && node.tbs.publicKey != P256(j.key))
            && (mine && theirs.Err? ==> r == Err(ServerChain(theirs.error)))
            && (r == Err(WrongCoordinator) <==> mine && theirs.Ok? && !named)
            && (r == Err(BadAddress) <==>
                  mine && named && (SplitHostPort(addr).None? || SplitHostPort(reply.coordinatorGrpcAddr).None?))
  {
    Der.ParseCertificateRoundTrip(ca);
    Der.ParseCertificateRoundTrip(node);
    BundleRefused(JoinerKey(j), j.session, Bundle(ca, node, reply.meshId, reply.serverMac), j.nodeId, now);
  }

  /** Whatever reply Join accepts, honest or not, the result loads as the joiner's own node identity
      under the returned CA at any time in both periods, and that identity accepts the coordinator it
      was told about. */
  lemma JoinYieldsIdentity(j: Joiner, reply: CompleteReply, peer: Option<Certificate>, addr: string,
                           now: Time, later: Time, loadAt: Time)
    requires JoinFinish(j, reply, peer, addr, now, later).Ok?
    ensures var r := JoinFinish(j, reply, peer, addr, now, later).value;
            var ca, node := r.bundle.caCert, r.bundle.nodeCert;
            var identity := Pki.Identity(Pki.Principal(Pki.MeshOf(ca), Pki.ROLE_NODE, j.nodeId), ca, node, j.key);
            && peer == Some(j.serverCert)
            && reply.meshId == Pki.MeshOf(ca)
            && (Pki.InPeriod(ca, loadAt) && Pki.InPeriod(node, loadAt) ==>
                  Pki.NewIdentity(ca, node, r.key, loadAt) == Ok(identity))
            && Pki.VerifyPeer(identity, [j.serverCert, ca]).Ok?
            && Pki.PrincipalFromCert(j.serverCert)
               == Ok(Pki.Principal(Pki.MeshOf(ca), Pki.ROLE_NODE, r.coordinatorNodeId))
  {
    var ca := Der.ParseCertificate(reply.caDer).value;
    var node := Der.ParseCertificate(reply.nodeDer).value;
    assert Pki.VerifyAgainst(ca, node, now).Ok? && Pki.VerifyAgainst(ca, j.serverCert, later).Ok?;
  }
}
